/** What the references of src/html/escape.go stand for, told without the decoder: a reader of UTF-8 gets the rune of
    a numeric reference from its numeral, and that of a named one from the tables. */
module HtmlMeaning {
  import opened Search
  import opened Html

  // ------------------------------------------------------------------------- UTF-8

  predicate IsRune(r: int) { 0 <= r <= 0x10FFFF && !(0xD800 <= r <= 0xDFFF) }

  /** The bits behind the leading 10 of a byte that continues a rune. */
  function Continues(c: Byte): Option<int> { if c / 0x40 == 2 then Some(c % 0x40) else None }

  function Length(c: Byte): Option<nat> {
    if c / 0x80 == 0 then Some(1)
    else if c / 0x20 == 6 then Some(2)
    else if c / 0x10 == 14 then Some(3)
    else if c / 0x08 == 30 then Some(4)
    else None
  }

  /** The bits of the bytes s[1..n] put behind those of x. */
  function Gather(s: seq<Byte>, x: int, n: nat): Option<int>
    requires n <= |s|
    decreases n
  {
    if n <= 1 then Some(x)
    else match (Gather(s, x, n - 1), Continues(s[n - 1]))
      case (Some(y), Some(d)) => Some(0x40 * y + d)
      case _ => None
  }

  /** The least number that needs n bytes. */
  function Least(n: nat): int {
    match n
    case 2 => 0x80
    case 3 => 0x800
    case 4 => 0x1_0000
    case _ => 0
  }

  /** The bits of a leading byte that belong to the rune. */
  function Leading(c: Byte, n: nat): int {
    match n
    case 2 => c % 0x20
    case 3 => c % 0x10
    case 4 => c % 0x08
    case _ => c
  }

  /** The first rune of a text in UTF-8, by the layout of its bits (section 3 of RFC 3629), and the rest of the text;
      no rune may take more bytes than it needs. */
  function Decode(s: seq<Byte>): Option<(int, seq<Byte>)> {
    if s == [] || Length(s[0]) == None || Length(s[0]).value > |s| then None
    else
      var n := Length(s[0]).value;
      match Gather(s, Leading(s[0], n), n)
      case Some(r) => if Least(n) <= r && IsRune(r) then Some((r, s[n..])) else None
      case None => None
  }

  /** What is read of the encoding of r. */
  function Shown(r: int): int { if IsRune(r) then r else 0xFFFD }

  lemma GatherOne(s: seq<Byte>, x: int, n: nat, y: int, d: int)
    requires 1 < n <= |s| && Gather(s, x, n - 1) == Some(y) && s[n - 1] == 0x80 + d && 0 <= d < 0x40
    ensures Gather(s, x, n) == Some(0x40 * y + d)
  {}

  lemma TwoBytes(a: int, b: int, rest: seq<Byte>)
    requires 2 <= a < 0x20 && 0 <= b < 0x40
    ensures Decode([0xC0 + a, 0x80 + b] + rest) == Some((0x40 * a + b, rest))
  {
    var s: seq<Byte> := [0xC0 + a, 0x80 + b] + rest;
    assert s[2..] == rest;
    GatherOne(s, a, 2, a, b);
  }

  lemma ThreeBytes(a: int, b: int, c: int, r: int, rest: seq<Byte>)
    requires 0 <= a < 0x10 && 0 <= b < 0x40 && 0 <= c < 0x40
    requires r == 0x40 * (0x40 * a + b) + c && r >= 0x800 && IsRune(r)
    ensures Decode([0xE0 + a, 0x80 + b, 0x80 + c] + rest) == Some((r, rest))
  {
    var s: seq<Byte> := [0xE0 + a, 0x80 + b, 0x80 + c] + rest;
    assert s[3..] == rest;
    GatherOne(s, a, 2, a, b);
    GatherOne(s, a, 3, 0x40 * a + b, c);
  }

  lemma FourBytes(a: int, b: int, c: int, d: int, r: int, rest: seq<Byte>)
    requires 0 <= a < 8 && 0 <= b < 0x40 && 0 <= c < 0x40 && 0 <= d < 0x40
    requires r == 0x40 * (0x40 * (0x40 * a + b) + c) + d && r >= 0x1_0000 && IsRune(r)
    ensures Decode([0xF0 + a, 0x80 + b, 0x80 + c, 0x80 + d] + rest) == Some((r, rest))
  {
    var s: seq<Byte> := [0xF0 + a, 0x80 + b, 0x80 + c, 0x80 + d] + rest;
    assert s[4..] == rest;
    var x, y := 0x40 * a + b, 0x40 * (0x40 * a + b) + c;
    GatherOne(s, a, 2, a, b);
    GatherOne(s, a, 3, x, c);
    GatherOne(s, a, 4, y, d);
    assert Length(s[0]) == Some(4);
  }

  lemma Quotients(r: int)
    requires r >= 0
    ensures r == 0x40 * (r / 0x40) + r % 0x40 && r / 0x40 == 0x40 * (r / 0x1000) + r / 0x40 % 0x40
    ensures r / 0x1000 == 0x40 * (r / 0x4_0000) + r / 0x1000 % 0x40
  {}

  lemma EncodedShort(r: int, rest: seq<Byte>)
    requires 0 <= r <= 0x7FF
    ensures Decode(Encode(r) + rest) == Some((r, rest))
  {
    if r <= 0x7F {
      assert (Encode(r) + rest)[1..] == rest;
    } else {
      TwoBytes(r / 0x40, r % 0x40, rest);
    }
  }

  lemma EncodedThree(r: int, rest: seq<Byte>)
    requires 0x800 <= r <= 0xFFFF && IsRune(r)
    ensures Decode(Encode3(r) + rest) == Some((r, rest))
  {
    Quotients(r);
    ThreeBytes(r / 0x1000, r / 0x40 % 0x40, r % 0x40, r, rest);
  }

  lemma EncodedFour(r: int, rest: seq<Byte>)
    requires 0x1_0000 <= r <= 0x10FFFF
    ensures Decode(Encode(r) + rest) == Some((r, rest))
  {
    Quotients(r);
    var a, b, c, d := r / 0x4_0000, r / 0x1000 % 0x40, r / 0x40 % 0x40, r % 0x40;
    FourBytes(a, b, c, d, r, rest);
    assert Encode(r) == [0xF0 + a, 0x80 + b, 0x80 + c, 0x80 + d];
  }

  /** Every rune is read back from its encoding, whatever follows, and U+FFFD from what encodes no rune. */
  lemma DecodeEncode(r: int, rest: seq<Byte>)
    ensures Decode(Encode(r) + rest) == Some((Shown(r), rest))
  {
    if !IsRune(r) {
      EncodedThree(0xFFFD, rest);
    } else if r <= 0x7FF {
      EncodedShort(r, rest);
    } else if r <= 0xFFFF {
      EncodedThree(r, rest);
    } else {
      EncodedFour(r, rest);
    }
  }

  // -------------------------------------------------------------- numeric references

  const DIGITS := "0123456789abcdef"
  const CAPITALS := "0123456789ABCDEF"

  /** c is the digit for d in base 10 or 16. */
  predicate DigitFor(c: Byte, d: int, hex: bool) {
    0 <= d < (if hex then 16 else 10) && (c == Ascii(DIGITS[d]) || c == Ascii(CAPITALS[d]))
  }

  predicate IsDigit(c: Byte, hex: bool) { exists d | 0 <= d < 16 :: DigitFor(c, d, hex) }

  predicate AllDigits(ds: seq<Byte>, hex: bool) { forall k :: 0 <= k < |ds| ==> IsDigit(ds[k], hex) }

  ghost function DigitValue(c: Byte, hex: bool): (d: int)
    requires IsDigit(c, hex)
    ensures DigitFor(c, d, hex)
  {
    var d :| 0 <= d < 16 && DigitFor(c, d, hex);
    d
  }

  function Power(base: nat, n: nat): nat { if n == 0 then 1 else base * Power(base, n - 1) }

  function Base(hex: bool): nat { if hex then 16 else 10 }

  /** The number that a numeral denotes: every digit counts by its place. */
  ghost function Value(ds: seq<Byte>, hex: bool): int
    requires AllDigits(ds, hex)
  {
    if ds == [] then 0 else DigitValue(ds[0], hex) * Power(Base(hex), |ds| - 1) + Value(ds[1..], hex)
  }

  /** x is the number v in 32 bits, two's complement. */
  ghost predicate Int32Of(x: int, v: int) { -0x8000_0000 <= x < 0x8000_0000 && (x - v) % 0x1_0000_0000 == 0 }

  lemma DigitRange(c: Byte, d: int, hex: bool)
    requires DigitFor(c, d, hex)
    ensures Digit(c, hex) == Some(d)
  {
    if d < 10 { assert DIGITS[d] == CAPITALS[d] == ('0' as int + d) as char; }
  }

  lemma DigitIs(c: Byte, hex: bool)
    ensures IsDigit(c, hex) <==> Digit(c, hex).Some?
    ensures IsDigit(c, hex) ==> Digit(c, hex) == Some(DigitValue(c, hex))
  {
    if Digit(c, hex).Some? { assert DigitFor(c, Digit(c, hex).value, hex); }
    if IsDigit(c, hex) { DigitRange(c, DigitValue(c, hex), hex); }
  }

  lemma Wrapped(v: int) returns (k: int)
    ensures Wrap(v) == v + k * 0x1_0000_0000 && -0x8000_0000 <= Wrap(v) < 0x8000_0000
  {
    k := -((v + 0x8000_0000) / 0x1_0000_0000);
  }

  lemma Regroup(y: int, w: int, x: int, base: int, d: int, p: int, v: int, j: int, k: int, m: int)
    requires w == base * x + d + j * m && y == w * p + v + k * m
    ensures y == x * (base * p) + (d * p + v) + (j * p + k) * m
  {
    assert w * p == x * (base * p) + d * p + j * p * m;
  }

  /** One digit more of a numeral. */
  lemma DigitRead(s: seq<Byte>, i: nat, n: nat, hex: bool, x: int) returns (d: int)
    requires i < n <= |s| && AllDigits(s[i..n], hex)
    ensures ReadNumber(s, i, hex, x) == ReadNumber(s, i + 1, hex, Wrap(Base(hex) * x + d)) &&
      AllDigits(s[i + 1..n], hex)
    ensures Value(s[i..n], hex) == d * Power(Base(hex), n - i - 1) + Value(s[i + 1..n], hex)
  {
    var ds := s[i..n];
    assert s[i] == ds[0] && s[i + 1..n] == ds[1..];
    DigitIs(s[i], hex);
    d := DigitValue(s[i], hex);
  }

  lemma {:induction false} DigitsRead(s: seq<Byte>, i: nat, n: nat, hex: bool, x: int) returns (y: int, k: int)
    requires i <= n <= |s| && AllDigits(s[i..n], hex) && -0x8000_0000 <= x < 0x8000_0000
    ensures ReadNumber(s, i, hex, x) == ReadNumber(s, n, hex, y) && -0x8000_0000 <= y < 0x8000_0000
    ensures y == x * Power(Base(hex), n - i) + Value(s[i..n], hex) + k * 0x1_0000_0000
    decreases n - i
  {
    if i == n {
      y, k := x, 0;
    } else {
      var d := DigitRead(s, i, n, hex, x);
      var j := Wrapped(Base(hex) * x + d);
      var w := Wrap(Base(hex) * x + d);
      y, k := DigitsRead(s, i + 1, n, hex, w);
      var p := Power(Base(hex), n - i - 1);
      Regroup(y, w, x, Base(hex), d, p, Value(s[i + 1..n], hex), j, k, 0x1_0000_0000);
      k := j * p + k;
    }
  }

  /** What Windows-1252 has in place of the controls 0x80 to 0x9F of Latin-1; five of them it leaves. */
  function Windows1252(c: int): int {
    match c
    case 0x80 => 0x20AC
    case 0x82 => 0x201A
    case 0x83 => 0x0192
    case 0x84 => 0x201E
    case 0x85 => 0x2026
    case 0x86 => 0x2020
    case 0x87 => 0x2021
    case 0x88 => 0x02C6
    case 0x89 => 0x2030
    case 0x8A => 0x0160
    case 0x8B => 0x2039
    case 0x8C => 0x0152
    case 0x8E => 0x017D
    case 0x91 => 0x2018
    case 0x92 => 0x2019
    case 0x93 => 0x201C
    case 0x94 => 0x201D
    case 0x95 => 0x2022
    case 0x96 => 0x2013
    case 0x97 => 0x2014
    case 0x98 => 0x02DC
    case 0x99 => 0x2122
    case 0x9A => 0x0161
    case 0x9B => 0x203A
    case 0x9C => 0x0153
    case 0x9E => 0x017E
    case 0x9F => 0x0178
    case _ => c
  }

  /** The rune of a numeric reference: zero and what is no rune are shown as U+FFFD. */
  function NumberRune(x: int): int { if x == 0 then 0xFFFD else Shown(Windows1252(x)) }

  /** A numeric reference up to where it ends: an ampersand and a number sign, for base 16 an x in either case, the
      digits, all of them, and a semicolon if there is one. */
  ghost predicate NumberText(s: seq<Byte>, hex: bool, ds: seq<Byte>, n: nat) {
    var from := if hex then 3 else 2;
    var to := from + |ds|;
    && to <= n <= |s| && s[0] == Ascii('&') && s[1] == Ascii('#') && s[from..to] == ds && AllDigits(ds, hex)
    && (hex <==> |s| > 2 && s[2] in [Ascii('x'), Ascii('X')])
    && (if n == to then n == |s| || (s[n] != Ascii(';') && !IsDigit(s[n], hex)) else n == to + 1 && s[to] == Ascii(';'))
  }

  lemma NumberRead(s: seq<Byte>, hex: bool, ds: seq<Byte>, n: nat, x: int)
    requires NumberText(s, hex, ds, n) && Int32Of(x, Value(ds, hex))
    ensures ReadNumber(s, if hex then 3 else 2, hex, 0) == (x, n)
  {
    var from := if hex then 3 else 2;
    var to := from + |ds|;
    var y, k := DigitsRead(s, from, to, hex, 0);
    SameInt32(x, y, Value(ds, hex), k);
    if to < |s| { DigitIs(s[to], hex); }
  }

  lemma NumberEntity(t: Tables, s: seq<Byte>, hex: bool, ds: seq<Byte>, n: nat, x: int, attribute: bool)
    requires NumberText(s, hex, ds, n) && Int32Of(x, Value(ds, hex))
    ensures Entity(t, s, attribute) == if n >= 4 then (Encode(Replacement(x)), n) else ([Ascii('&')], 1)
  {
    NumberRead(s, hex, ds, n, x);
    assert s[..1] == [s[0]];
  }

  /** A numeric reference of four bytes or more stands for the rune of its number, computed in 32 bits; a shorter one
      is no reference. */
  lemma NumberMeaning(t: Tables, s: seq<Byte>, hex: bool, ds: seq<Byte>, n: nat, x: int)
    requires NumberText(s, hex, ds, n) && Int32Of(x, Value(ds, hex))
    ensures n >= 4 ==> Decode(Unescaped(t, s)) == Some((NumberRune(x), Unescaped(t, s[n..])))
    ensures n < 4 ==> Unescaped(t, s) == [Ascii('&')] + Unescaped(t, s[1..])
  {
    NumberEntity(t, s, hex, ds, n, x, false);
    if n >= 4 {
      RuneFor(x);
      DecodeEncode(Replacement(x), Unescaped(t, s[n..]));
    }
  }

  lemma SameInt32(x: int, y: int, v: int, k: int)
    requires Int32Of(x, v) && -0x8000_0000 <= y < 0x8000_0000 && y == v + k * 0x1_0000_0000
    ensures x == y
  {}

  lemma RuneFor(x: int)
    ensures Shown(Replacement(x)) == NumberRune(x)
  {}

  /** Every text that begins with an ampersand and a number sign begins with exactly one numeric reference, so that
      NumberMeaning says what it stands for. */
  lemma EveryNumber(s: seq<Byte>) returns (hex: bool, ds: seq<Byte>, n: nat, x: int)
    requires |s| >= 2 && s[0] == Ascii('&') && s[1] == Ascii('#')
    ensures NumberText(s, hex, ds, n) && Int32Of(x, Value(ds, hex))
  {
    hex := |s| > 2 && s[2] in [Ascii('x'), Ascii('X')];
    var from := if hex then 3 else 2;
    var to := from;
    while to < |s| && IsDigit(s[to], hex)
      invariant from <= to <= |s| && AllDigits(s[from..to], hex)
    {
      assert s[from..to + 1] == s[from..to] + [s[to]];
      to := to + 1;
    }
    ds := s[from..to];
    n := if to < |s| && s[to] == Ascii(';') then to + 1 else to;
    x := (Value(ds, hex) + 0x8000_0000) % 0x1_0000_0000 - 0x8000_0000;
  }

  // ---------------------------------------------------------------- named references

  predicate LetterOrDigit(c: Byte) {
    var ch := c as char;
    'a' <= ch <= 'z' || 'A' <= ch <= 'Z' || '0' <= ch <= '9'
  }

  /** A named reference up to where it ends: an ampersand, letters and digits, all of them, and a semicolon if there is
      one. */
  ghost predicate NameText(s: seq<Byte>, n: nat) {
    && 1 <= n <= |s| && s[0] == Ascii('&') && (|s| > 1 ==> s[1] != Ascii('#'))
    && (forall k :: 1 <= k < n ==> LetterOrDigit(s[k]) || (k == n - 1 && s[k] == Ascii(';')))
    && (n == |s| || s[n - 1] == Ascii(';') || (!LetterOrDigit(s[n]) && s[n] != Ascii(';')))
  }

  /** Whether the first table has the name. */
  ghost predicate Listed(t: Tables, name: seq<Byte>) { name in t.entity && t.entity[name] != 0 }

  /** The one or two runes that the tables have for a name; none for a name they do not have. */
  ghost function Runes(t: Tables, name: seq<Byte>): seq<int> {
    if name == [] then []
    else if Listed(t, name) then [t.entity[name]]
    else if name in t.entity2 && t.entity2[name].0 != 0 then [t.entity2[name].0, t.entity2[name].1]
    else []
  }

  /** A reader of UTF-8 gets these runes from the text and then has the rest of it before him. */
  ghost predicate Shows(s: seq<Byte>, rs: seq<int>, rest: seq<Byte>)
    decreases |rs|
  {
    if rs == [] then s == rest
    else Decode(s).Some? && Decode(s).value.0 == Shown(rs[0]) && Shows(Decode(s).value.1, rs[1..], rest)
  }

  /** The longest beginning of a name that is a name of its own, of at least two bytes and at most the limit. */
  ghost predicate LongestListed(t: Tables, name: seq<Byte>, j: nat) {
    && 2 <= j < |name| && j <= t.longestWithoutSemicolon && Listed(t, name[..j])
    && forall k :: j < k < |name| && k <= t.longestWithoutSemicolon ==> !Listed(t, name[..k])
  }

  lemma {:induction false} NameRead(s: seq<Byte>, i: nat, n: nat)
    requires NameText(s, n) && 1 <= i <= n && (i == n > 1 ==> s[n - 1] != Ascii(';'))
    ensures NameEnd(s, i) == n
    decreases n - i
  {
    if i < n && s[i] != Ascii(';') { NameRead(s, i + 1, n); }
  }

  lemma {:induction false} PrefixFound(t: Tables, name: seq<Byte>, m: int, j: nat)
    requires LongestListed(t, name, j) && j <= m < |name| && m <= t.longestWithoutSemicolon
    ensures LongestPrefix(t, name, m) == j
    decreases m
  {
    if m > j { PrefixFound(t, name, m - 1, j); }
  }

  lemma {:induction false} NoPrefix(t: Tables, name: seq<Byte>, m: int)
    requires m < |name| && m <= t.longestWithoutSemicolon && forall j :: 2 <= j <= m ==> !Listed(t, name[..j])
    ensures LongestPrefix(t, name, m) == 0
    decreases m
  {
    if m > 1 { NoPrefix(t, name, m - 1); }
  }

  /** The longest name among those that satisfy the limit, if there is any. */
  lemma SomeLongest(t: Tables, name: seq<Byte>, m: int) returns (j: nat)
    requires m < |name| && m <= t.longestWithoutSemicolon
    requires forall k: nat :: m < k < |name| && k <= t.longestWithoutSemicolon ==> !Listed(t, name[..k])
    ensures LongestListed(t, name, j) || forall k :: 2 <= k < |name| && k <= t.longestWithoutSemicolon ==>
      !Listed(t, name[..k])
    decreases m
  {
    j := 0;
    if m > 1 {
      if Listed(t, name[..m]) { j := m; } else { j := SomeLongest(t, name, m - 1); }
    }
  }

  lemma OneShown(e: seq<Byte>, r: int, rest: seq<Byte>)
    requires e == Encode(r)
    ensures Shows(e + rest, [r], rest)
  {
    DecodeEncode(r, rest);
  }

  lemma TwoShown(r: int, r': int, rest: seq<Byte>)
    ensures Shows(Encode(r) + Encode(r') + rest, [r, r'], rest)
  {
    Assoc(Encode(r), Encode(r'), rest);
    DecodeEncode(r, Encode(r') + rest);
    OneShown(Encode(r'), r', rest);
    assert [r, r'][1..] == [r'];
  }

  lemma NameEntity(t: Tables, s: seq<Byte>, n: nat)
    requires NameText(s, n)
    ensures n > 1 ==> |s| > 1 && s[1] != 35 && NameEnd(s, 1) == n
    ensures n == 1 ==> Entity(t, s, false) == (s[..1], 1)
  {
    NameRead(s, 1, n);
  }

  /** A name that is not listed is looked for among its beginnings. */
  lemma UnlistedEntity(t: Tables, s: seq<Byte>, n: nat, j: nat)
    requires NameText(s, n) && n > 1 && Runes(t, s[1..n]) == []
    requires j == LongestPrefix(t, s[1..n], Min(n - 2, t.longestWithoutSemicolon))
    ensures Entity(t, s, false) == if j > 0 then (Encode(One(t, s[1..n][..j])), j + 1) else (s[..n], n)
  {
    NameEntity(t, s, n);
  }

  lemma ListedEntity(t: Tables, s: seq<Byte>, n: nat, rs: seq<int>)
    requires NameText(s, n) && rs == Runes(t, s[1..n]) && rs != []
    ensures |rs| <= 2 && Entity(t, s, false) ==
      (if |rs| == 1 then Encode(rs[0]) else Encode(rs[0]) + Encode(rs[1]), n)
  {
    NameEntity(t, s, n);
  }

  lemma ListedMeaning(t: Tables, s: seq<Byte>, n: nat, rs: seq<int>)
    requires NameText(s, n) && rs == Runes(t, s[1..n]) && rs != []
    ensures Shows(Unescaped(t, s), rs, Unescaped(t, s[n..]))
  {
    ListedEntity(t, s, n, rs);
    var rest := Unescaped(t, s[n..]);
    if |rs| == 1 {
      OneShown(Encode(rs[0]), rs[0], rest);
      assert rs == [rs[0]];
    } else {
      TwoShown(rs[0], rs[1], rest);
      assert rs == [rs[0], rs[1]];
    }
  }

  lemma PrefixEntity(t: Tables, s: seq<Byte>, n: nat, j: nat)
    requires NameText(s, n) && Runes(t, s[1..n]) == [] && LongestListed(t, s[1..n], j)
    ensures Entity(t, s, false) == (Encode(t.entity[s[1..n][..j]]), j + 1)
  {
    PrefixFound(t, s[1..n], Min(n - 2, t.longestWithoutSemicolon), j);
    UnlistedEntity(t, s, n, j);
  }

  lemma PrefixMeaning(t: Tables, s: seq<Byte>, n: nat, j: nat)
    requires NameText(s, n) && Runes(t, s[1..n]) == [] && LongestListed(t, s[1..n], j)
    ensures Shows(Unescaped(t, s), [t.entity[s[1..n][..j]]], Unescaped(t, s[1..n][j..] + s[n..]))
  {
    PrefixEntity(t, s, n, j);
    PrefixRest(s, n, j);
    EntityShown(t, s, t.entity[s[1..n][..j]], j + 1, s[1..n][j..] + s[n..]);
  }

  lemma PrefixRest(s: seq<Byte>, n: nat, j: nat)
    requires 1 <= n <= |s| && j < n
    ensures s[1..n][j..] + s[n..] == s[j + 1..]
  {}

  lemma EntityShown(t: Tables, s: seq<Byte>, r: int, n: nat, rest: seq<Byte>)
    requires s != [] && s[0] == 38 && Entity(t, s, false) == (Encode(r), n) && rest == s[n..]
    ensures Shows(Unescaped(t, s), [r], Unescaped(t, rest))
  {
    OneShown(Encode(r), r, Unescaped(t, rest));
  }

  lemma UnknownMeaning(t: Tables, s: seq<Byte>, n: nat)
    requires NameText(s, n) && Runes(t, s[1..n]) == [] && forall j: nat :: !LongestListed(t, s[1..n], j)
    ensures Unescaped(t, s) == s[..n] + Unescaped(t, s[n..])
  {
    NameEntity(t, s, n);
    if n > 1 {
      var m := Min(n - 2, t.longestWithoutSemicolon);
      var j := SomeLongest(t, s[1..n], m);
      NoPrefix(t, s[1..n], m);
      UnlistedEntity(t, s, n, 0);
    }
  }

  /** What a named reference stands for: the runes that the tables have for it; otherwise that of the longest of its
      beginnings that has one, and then the rest of the name; otherwise itself. */
  lemma NameMeaning(t: Tables, s: seq<Byte>, n: nat)
    requires NameText(s, n)
    ensures Runes(t, s[1..n]) != [] ==> Shows(Unescaped(t, s), Runes(t, s[1..n]), Unescaped(t, s[n..]))
    ensures Runes(t, s[1..n]) == [] ==> forall j: nat :: LongestListed(t, s[1..n], j) ==>
      Shows(Unescaped(t, s), [t.entity[s[1..n][..j]]], Unescaped(t, s[1..n][j..] + s[n..]))
    ensures Runes(t, s[1..n]) == [] && (forall j: nat :: !LongestListed(t, s[1..n], j)) ==>
      Unescaped(t, s) == s[..n] + Unescaped(t, s[n..])
  {
    if Runes(t, s[1..n]) != [] {
      ListedMeaning(t, s, n, Runes(t, s[1..n]));
    } else if j: nat :| LongestListed(t, s[1..n], j) {
      forall j: nat | LongestListed(t, s[1..n], j)
        ensures Shows(Unescaped(t, s), [t.entity[s[1..n][..j]]], Unescaped(t, s[1..n][j..] + s[n..]))
      {
        PrefixMeaning(t, s, n, j);
      }
    } else {
      UnknownMeaning(t, s, n);
    }
  }

  /** Every text that begins with an ampersand and no numeric reference begins with a named one. */
  lemma EveryName(s: seq<Byte>) returns (n: nat)
    requires s != [] && s[0] == Ascii('&') && (|s| > 1 ==> s[1] != Ascii('#'))
    ensures NameText(s, n)
  {
    n := 1;
    while n < |s| && LetterOrDigit(s[n])
      invariant 1 <= n <= |s| && forall k :: 1 <= k < n ==> LetterOrDigit(s[k])
    {
      n := n + 1;
    }
    if n < |s| && s[n] == Ascii(';') { n := n + 1; }
  }

  /** In the value of an attribute only whole names are looked up, and a name that an equals sign follows is none. */
  lemma AttributeMeaning(t: Tables, s: seq<Byte>, n: nat)
    requires NameText(s, n)
    ensures Entity(t, s, true) ==
      if Runes(t, s[1..n]) == [] || (s[n - 1] != Ascii(';') && n < |s| && s[n] == Ascii('=')) then (s[..n], n)
      else Entity(t, s, false)
  {
    NameEntity(t, s, n);
    assert s[1..1] == [];
  }

  // ----------------------------------------------------------------------- escaping

  /** The five references that escaping uses. */
  ghost predicate BeginsEscape(s: seq<Byte>) {
    Bytes("&amp;") <= s || Bytes("&#39;") <= s || Bytes("&lt;") <= s || Bytes("&gt;") <= s || Bytes("&#34;") <= s
  }

  predicate Special(c: Byte) { c as char in "&'<>\"" }

  /** No byte of an escaped text has a special meaning, other than the ampersands of the five references. */
  lemma {:induction false} EscapedIsSafe(s: seq<Byte>, k: nat)
    requires k < |Escaped(s)| && Special(Escaped(s)[k])
    ensures BeginsEscape(Escaped(s)[k..])
    decreases |s|
  {
    var e, more := EscapedByte(s[0]), Escaped(s[1..]);
    if k < |e| {
      assert Special(s[0]) && k == 0;
      EscapeBegins(s[0], more);
    } else {
      assert (e + more)[k..] == more[k - |e|..];
      EscapedIsSafe(s[1..], k - |e|);
    }
  }

  lemma EscapeBegins(c: Byte, more: seq<Byte>)
    requires Special(c)
    ensures BeginsEscape(EscapedByte(c) + more) && (EscapedByte(c) + more)[0..] == EscapedByte(c) + more
  {
    var e := EscapedByte(c);
    assert e <= e + more;
    assert Bytes("&amp;") == [38, 97, 109, 112, 59] && Bytes("&lt;") == [38, 108, 116, 59];
    assert Bytes("&gt;") == [38, 103, 116, 59] && Bytes("&#39;") == [38, 35, 51, 57, 59];
    assert Bytes("&#34;") == [38, 35, 51, 52, 59];
  }

  /** Exactly the texts without a special byte are left as they are. */
  lemma {:induction false} EscapedUnchanged(s: seq<Byte>)
    ensures Escaped(s) == s <==> forall k :: 0 <= k < |s| ==> !Special(s[k])
    ensures |Escaped(s)| >= |s|
  {
    if s != [] {
      EscapedUnchanged(s[1..]);
      assert s == [s[0]] + s[1..];
      if Special(s[0]) {
        assert |EscapedByte(s[0])| > 1;
      }
    }
  }
}
