/** HTML escaping and in-place unescaping (src/html/escape.go), over bytes. */
module Html {
  import opened Search

  type Byte = x: int | 0 <= x < 256

  function Ascii(c: char): Byte { if c < 128 as char then c as int else 0 }

  function Bytes(s: string): seq<Byte> { seq(|s|, i requires 0 <= i < |s| => Ascii(s[i])) }

  // ------------------------------------------------------------------------- UTF-8

  const RUNE_ERROR := 0xFFFD

  /** The UTF-8 encoding of a rune; what is not a rune is encoded as RuneError. */
  function Encode(r: int): (e: seq<Byte>)
    ensures 1 <= |e| <= 4
  {
    if 0 <= r <= 0x7F then [r]
    else if 0 <= r <= 0x7FF then [0xC0 + r / 0x40, 0x80 + r % 0x40]
    else if r < 0 || r > 0x10FFFF || 0xD800 <= r <= 0xDFFF then Encode3(RUNE_ERROR)
    else if r <= 0xFFFF then Encode3(r)
    else [0xF0 + r / 0x4_0000, 0x80 + r / 0x1000 % 0x40, 0x80 + r / 0x40 % 0x40, 0x80 + r % 0x40]
  }

  function Encode3(r: int): seq<Byte>
    requires 0 <= r <= 0xFFFF
  {
    [0xE0 + r / 0x1000, 0x80 + r / 0x40 % 0x40, 0x80 + r % 0x40]
  }

  // ------------------------------------------------------------- the tables and one entity

  /** The two tables of named references; names include the semicolon they end with, if any. */
  datatype Tables = Tables(entity: map<seq<Byte>, int>, entity2: map<seq<Byte>, (int, int)>,
      longestWithoutSemicolon: nat)

  function One(t: Tables, name: seq<Byte>): int { if name in t.entity then t.entity[name] else 0 }

  function Two(t: Tables, name: seq<Byte>): (int, int) { if name in t.entity2 then t.entity2[name] else (0, 0) }

  /** No replacement is longer than the reference it stands for, the ampersand included. */
  ghost predicate Fitting(t: Tables) {
    && (forall name :: One(t, name) != 0 ==> |Encode(One(t, name))| <= |name| + 1)
    && forall name :: Two(t, name).0 != 0 ==> |Encode(Two(t, name).0) + Encode(Two(t, name).1)| <= |name| + 1
  }

  /** Runes are 32-bit integers that wrap around. */
  function Wrap(x: int): int { (x + 0x8000_0000) % 0x1_0000_0000 - 0x8000_0000 }

  function Digit(c: Byte, hex: bool): Option<int> {
    if 48 <= c <= 57 then Some(c - 48)
    else if hex && 97 <= c <= 102 then Some(c - 97 + 10)
    else if hex && 65 <= c <= 70 then Some(c - 65 + 10)
    else None
  }

  /** Reads digits from position i on: the number so far and the position behind it and a semicolon. */
  function ReadNumber(s: seq<Byte>, i: nat, hex: bool, x: int): (r: (int, nat))
    requires i <= |s|
    ensures i <= r.1 <= |s|
    decreases |s| - i
  {
    if i == |s| then (x, i)
    else match Digit(s[i], hex)
      case Some(d) => ReadNumber(s, i + 1, hex, Wrap((if hex then 16 else 10) * x + d))
      case None => (x, if s[i] == 59 then i + 1 else i)
  }

  const WINDOWS_1252: seq<int> := [
    0x20AC, 0x81, 0x201A, 0x192, 0x201E, 0x2026, 0x2020, 0x2021, 0x2C6, 0x2030, 0x160, 0x2039, 0x152, 0x8D, 0x17D, 0x8F,
    0x90, 0x2018, 0x2019, 0x201C, 0x201D, 0x2022, 0x2013, 0x2014, 0x2DC, 0x2122, 0x161, 0x203A, 0x153, 0x9D, 0x17E,
      0x178]

  function Replacement(x: int): int {
    if 0x80 <= x <= 0x9F then WINDOWS_1252[x - 0x80]
    else if x == 0 || 0xD800 <= x <= 0xDFFF || x > 0x10FFFF then RUNE_ERROR
    else x
  }

  predicate IsAlnum(c: Byte) { 97 <= c <= 122 || 65 <= c <= 90 || 48 <= c <= 57 }

  /** The end of the name that begins at position i, a semicolon included. */
  function NameEnd(s: seq<Byte>, i: nat): (n: nat)
    requires i <= |s|
    ensures i <= n <= |s|
    decreases |s| - i
  {
    if i == |s| then i
    else if IsAlnum(s[i]) then NameEnd(s, i + 1)
    else if s[i] == 59 then i + 1
    else i
  }

  /** The longest prefix of name of at most j > 1 bytes that is a reference without a semicolon; 0 for none. */
  function LongestPrefix(t: Tables, name: seq<Byte>, j: int): (n: nat)
    requires j < |name|
    ensures n <= |name| && (n > 0 ==> One(t, name[..n]) != 0)
    decreases j
  {
    if j <= 1 then 0
    else if One(t, name[..j]) != 0 then j
    else LongestPrefix(t, name, j - 1)
  }

  function Min(a: int, b: int): int { if a < b then a else b }

  /** What a reference at the beginning of s, which starts with an ampersand, stands for, and how many bytes it takes.
      */
  function Entity(t: Tables, s: seq<Byte>, attribute: bool): (r: (seq<Byte>, nat))
    requires s != []
    ensures 1 <= r.1 <= |s|
  {
    if |s| <= 1 then (s[..1], 1)
    else if s[1] == 35 then
      if |s| <= 3 then (s[..1], 1)
      else
        var hex := s[2] == 120 || s[2] == 88;
        var (x, i) := ReadNumber(s, if hex then 3 else 2, hex, 0);
        if i <= 3 then (s[..1], 1) else (Encode(Replacement(x)), i)
    else
      var i := NameEnd(s, 1);
      var name := s[1..i];
      if name == [] || (attribute && name[|name| - 1] != 59 && |s| > i && s[i] == 61) then (s[..i], i)
      else if One(t, name) != 0 then (Encode(One(t, name)), i)
      else if Two(t, name).0 != 0 then (Encode(Two(t, name).0) + Encode(Two(t, name).1), i)
      else
        var j := if attribute then 0 else LongestPrefix(t, name, Min(|name| - 1, t.longestWithoutSemicolon));
        if j > 0 then (Encode(One(t, name[..j])), j + 1) else (s[..i], i)
  }

  /** A replacement never takes more room than its reference. */
  lemma EntityFits(t: Tables, s: seq<Byte>, attribute: bool)
    requires s != [] && Fitting(t)
    ensures |Entity(t, s, attribute).0| <= Entity(t, s, attribute).1
  {}

  /** The text with all its references replaced, read from left to right. */
  function Unescaped(t: Tables, s: seq<Byte>): seq<Byte>
    decreases |s|
  {
    if s == [] then []
    else if s[0] == 38 then Entity(t, s, false).0 + Unescaped(t, s[Entity(t, s, false).1..])
    else [s[0]] + Unescaped(t, s[1..])
  }

  // --------------------------------------------------------------------- in place

  /** Writes the bytes of e at dst. */
  method Write(b: array<Byte>, dst: nat, e: seq<Byte>)
    requires dst + |e| <= b.Length
    modifies b
    ensures b[..dst + |e|] == old(b[..dst]) + e
    ensures forall k :: dst + |e| <= k < b.Length ==> b[k] == old(b[k])
  {
    forall i | 0 <= i < |e| { b[dst + i] := e[i]; }
  }

  /** Reads the digits of a numeric reference. */
  method ReadDigits(b: array<Byte>, src: nat, start: nat, hex: bool) returns (x: int, i: nat)
    requires src + start <= b.Length
    ensures (x, i) == ReadNumber(b[src..], start, hex, 0)
  {
    ghost var s := b[src..];
    i, x := start, 0;
    while i < b.Length - src
      invariant start <= i <= |s| && ReadNumber(s, i, hex, x) == ReadNumber(s, start, hex, 0)
    {
      var c := b[src + i];
      assert c == s[i];
      i := i + 1;
      if hex {
        if 48 <= c <= 57 {
          x := Wrap(16 * x + c - 48);
          continue;
        } else if 97 <= c <= 102 {
          x := Wrap(16 * x + c - 97 + 10);
          continue;
        } else if 65 <= c <= 70 {
          x := Wrap(16 * x + c - 65 + 10);
          continue;
        }
      } else if 48 <= c <= 57 {
        x := Wrap(10 * x + c - 48);
        continue;
      }
      if c != 59 {
        i := i - 1;
      }
      break;
    }
  }

  /** Reads a name. */
  method ReadName(b: array<Byte>, src: nat) returns (i: nat)
    requires src + 1 <= b.Length
    ensures i == NameEnd(b[src..], 1)
  {
    ghost var s := b[src..];
    i := 1;
    while i < b.Length - src
      invariant 1 <= i <= |s| && NameEnd(s, i) == NameEnd(s, 1)
    {
      var c := b[src + i];
      assert c == s[i];
      i := i + 1;
      if IsAlnum(c) {
        continue;
      }
      if c != 59 {
        i := i - 1;
      }
      break;
    }
  }

  /** Reads the reference at src, writes what it stands for at dst, and returns the cursors moved on.
      As dst is not ahead of src and the replacement fits, nothing that is still to be read is overwritten. */
  method UnescapeEntity(t: Tables, b: array<Byte>, dst: nat, src: nat, attribute: bool) returns (dst1: nat, src1: nat)
    requires Fitting(t) && dst <= src < b.Length && b[src] == 38
    modifies b
    ensures var r := Entity(t, old(b[src..]), attribute);
      && src1 == src + r.1 && dst1 == dst + |r.0| && dst1 <= src1 <= b.Length
      && b[..dst1] == old(b[..dst]) + r.0 && b[src1..] == old(b[src1..])
  {
    ghost var s := b[src..];
    EntityFits(t, s, attribute);
    var n := b.Length - src;
    if n <= 1 {
      b[dst] := b[src];
      return dst + 1, src + 1;
    }
    if b[src + 1] == 35 {
      dst1, src1 := UnescapeNumber(t, b, dst, src, attribute);
    } else {
      dst1, src1 := UnescapeName(t, b, dst, src, attribute);
    }
  }

  /** A numeric reference. */
  method UnescapeNumber(ghost t: Tables, b: array<Byte>, dst: nat, src: nat, ghost attribute: bool)
      returns (dst1: nat, src1: nat)
    requires Fitting(t) && dst <= src < b.Length - 1 && b[src] == 38 && b[src + 1] == 35
    modifies b
    ensures var r := Entity(t, old(b[src..]), attribute);
      && src1 == src + r.1 && dst1 == dst + |r.0| && dst1 <= src1 <= b.Length
      && b[..dst1] == old(b[..dst]) + r.0 && b[src1..] == old(b[src1..])
  {
    ghost var s := b[src..];
    EntityFits(t, s, attribute);
    if b.Length - src <= 3 {
      b[dst] := b[src];
      return dst + 1, src + 1;
    }
    var hex := b[src + 2] == 120 || b[src + 2] == 88;
    var x, i := ReadDigits(b, src, if hex then 3 else 2, hex);
    if i <= 3 {
      b[dst] := b[src];
      return dst + 1, src + 1;
    }
    Write(b, dst, Encode(Replacement(x)));
    return dst + |Encode(Replacement(x))|, src + i;
  }

  /** A named reference; without a match the name is copied as it is. */
  method UnescapeName(t: Tables, b: array<Byte>, dst: nat, src: nat, attribute: bool) returns (dst1: nat, src1: nat)
    requires Fitting(t) && dst <= src < b.Length - 1 && b[src] == 38 && b[src + 1] != 35
    modifies b
    ensures var r := Entity(t, old(b[src..]), attribute);
      && src1 == src + r.1 && dst1 == dst + |r.0| && dst1 <= src1 <= b.Length
      && b[..dst1] == old(b[..dst]) + r.0 && b[src1..] == old(b[src1..])
  {
    ghost var s := b[src..];
    EntityFits(t, s, attribute);
    var e, n := LookUp(t, b, src, attribute);
    Write(b, dst, e);
    dst1, src1 := dst + |e|, src + n;
  }

  /** What is to be written for the name behind the ampersand at src. */
  method LookUp(t: Tables, b: array<Byte>, src: nat, attribute: bool) returns (e: seq<Byte>, n: nat)
    requires src < b.Length - 1 && b[src] == 38 && b[src + 1] != 35
    ensures (e, n) == Entity(t, b[src..], attribute)
  {
    ghost var s := b[src..];
    var i := ReadName(b, src);
    var name := b[src..][1..i];
    assert s[1] != 35;
    if |name| == 0 || (attribute && name[|name| - 1] != 59 && b.Length - src > i && b[src + i] == 61) {
    } else if One(t, name) != 0 {
      return Encode(One(t, name)), i;
    } else if Two(t, name).0 != 0 {
      return Encode(Two(t, name).0) + Encode(Two(t, name).1), i;
    } else if !attribute {
      var j := FindPrefix(t, name);
      if j > 0 {
        return Encode(One(t, name[..j])), j + 1;
      }
    }
    assert b[src..src + i] == s[..i];
    return b[src..src + i], i;
  }

  /** Looks for the longest reference without a semicolon that the name begins with. */
  method FindPrefix(t: Tables, name: seq<Byte>) returns (j: nat)
    requires |name| > 0
    ensures j == LongestPrefix(t, name, Min(|name| - 1, t.longestWithoutSemicolon))
  {
    var maxLen := |name| - 1;
    if maxLen > t.longestWithoutSemicolon {
      maxLen := t.longestWithoutSemicolon;
    }
    j := maxLen;
    while j > 1
      invariant j < |name| && LongestPrefix(t, name, j) == LongestPrefix(t, name, maxLen)
    {
      if One(t, name[..j]) != 0 {
        return;
      }
      j := j - 1;
    }
    return 0;
  }

  /** Unescapes b in place: the result is its first n bytes. */
  method Unescape(t: Tables, b: array<Byte>) returns (n: nat)
    requires Fitting(t)
    modifies b
    ensures n <= b.Length && b[..n] == Unescaped(t, old(b[..]))
  {
    ghost var s := b[..];
    for i := 0 to b.Length
      invariant b[..] == s && forall k :: 0 <= k < i ==> s[k] != 38
    {
      if b[i] == 38 {
        PlainPrefix(t, s, i);
        var dst: nat, src: nat := i, i;
        while src < b.Length
          invariant dst <= src <= b.Length && b[src..] == s[src..]
          invariant b[..dst] + Unescaped(t, s[src..]) == Unescaped(t, s)
          decreases b.Length - src
        {
          dst, src := UnescapeNext(t, b, dst, src, s);
        }
        assert s[src..] == [];
        return dst;
      }
    }
    PlainPrefix(t, s, |s|);
    return b.Length;
  }

  /** How far the loop has come: what is written and what is still to be read make up the whole. */
  ghost predicate Underway(t: Tables, s: seq<Byte>, out: seq<Byte>, rest: seq<Byte>) { out + Unescaped(t,
      rest) == Unescaped(t, s) }

  method CopyByte(t: Tables, b: array<Byte>, dst: nat, src: nat, ghost s: seq<Byte>)
    requires dst <= src < b.Length == |s| && b[src] != 38 && b[src..] == s[src..] && Underway(t, s, b[..dst], s[src..])
    modifies b
    ensures b[src + 1..] == s[src + 1..] && Underway(t, s, b[..dst + 1], s[src + 1..])
  {
    ghost var rest, out := b[src..], b[..dst];
    ByteOn(t, out, rest);
    b[dst] := b[src];
    assert b[..dst + 1] == out + [rest[0]];
    assert rest[1..] == s[src + 1..];
    assert b[src + 1..] == rest[1..];
  }

  method NextReference(t: Tables, b: array<Byte>, dst: nat, src: nat, ghost s: seq<Byte>) returns (dst1: nat, src1: nat)
    requires Fitting(t) && dst <= src < b.Length == |s| && b[src] == 38 && b[src..] == s[src..] &&
      Underway(t, s, b[..dst], s[src..])
    modifies b
    ensures src < src1 <= b.Length && dst1 <= src1 && b[src1..] == s[src1..] && Underway(t, s, b[..dst1], s[src1..])
  {
    ghost var rest, out := b[src..], b[..dst];
    dst1, src1 := UnescapeEntity(t, b, dst, src, false);
    assert rest[src1 - src..] == s[src1..];
    assert b[src1..] == rest[src1 - src..];
    ReferenceOn(t, s, out, rest, b[..dst1], s[src1..]);
  }

  /** One turn of the loop: the next reference or byte. */
  method UnescapeNext(t: Tables, b: array<Byte>, dst: nat, src: nat, ghost s: seq<Byte>) returns (dst1: nat, src1: nat)
    requires Fitting(t) && dst <= src < b.Length == |s| && b[src..] == s[src..] &&
      b[..dst] + Unescaped(t, s[src..]) == Unescaped(t, s)
    modifies b
    ensures src < src1 <= b.Length && dst1 <= src1 && b[src1..] == s[src1..]
    ensures b[..dst1] + Unescaped(t, s[src1..]) == Unescaped(t, s)
  {
    if b[src] == 38 {
      dst1, src1 := NextReference(t, b, dst, src, s);
    } else {
      CopyByte(t, b, dst, src, s);
      dst1, src1 := dst + 1, src + 1;
    }
  }

  lemma ReferenceOn(t: Tables, s: seq<Byte>, out: seq<Byte>, rest: seq<Byte>, out1: seq<Byte>, rest1: seq<Byte>)
    requires rest != [] && rest[0] == 38 && Underway(t, s, out, rest)
    requires var r := Entity(t, rest, false); out1 == out + r.0 && rest1 == rest[r.1..]
    ensures Underway(t, s, out1, rest1)
  {
    var r := Entity(t, rest, false);
    Assoc(out, r.0, Unescaped(t, rest[r.1..]));
  }

  lemma ByteOn(t: Tables, out: seq<Byte>, rest: seq<Byte>)
    requires rest != [] && rest[0] != 38
    ensures out + [rest[0]] + Unescaped(t, rest[1..]) == out + Unescaped(t, rest)
  {
    Assoc(out, [rest[0]], Unescaped(t, rest[1..]));
  }

  lemma Assoc(a: seq<Byte>, b: seq<Byte>, c: seq<Byte>)
    ensures (a + b) + c == a + (b + c)
  {}

  /** Text without an ampersand stands for itself. */
  lemma {:induction false} PlainPrefix(t: Tables, s: seq<Byte>, i: nat)
    requires i <= |s| && forall k :: 0 <= k < i ==> s[k] != 38
    ensures Unescaped(t, s) == s[..i] + Unescaped(t, s[i..])
  {
    if i == 0 {
      assert s[0..] == s;
    } else {
      PlainPrefix(t, s[1..], i - 1);
      PlainByte(t, s);
      FirstBack(s, i, Unescaped(t, s[i..]));
    }
  }

  lemma PlainByte(t: Tables, s: seq<Byte>)
    requires s != [] && s[0] != 38
    ensures Unescaped(t, s) == [s[0]] + Unescaped(t, s[1..])
  {}

  lemma FirstBack(s: seq<Byte>, i: nat, more: seq<Byte>)
    requires 0 < i <= |s|
    ensures s[1..][i - 1..] == s[i..] && [s[0]] + (s[1..][..i - 1] + more) == s[..i] + more
  {}

  // --------------------------------------------------------------- escaping, and back

  /** What a byte is escaped to: five of them have a reference. */
  function EscapedByte(c: Byte): seq<Byte> {
    match c
    case 38 => [38, 97, 109, 112, 59]
    case 39 => [38, 35, 51, 57, 59]
    case 60 => [38, 108, 116, 59]
    case 62 => [38, 103, 116, 59]
    case 34 => [38, 35, 51, 52, 59]
    case _ => [c]
  }

  function Escaped(s: seq<Byte>): seq<Byte> { if s == [] then [] else EscapedByte(s[0]) + Escaped(s[1..]) }

  /** The tables know the three names that escaping uses. */
  predicate KnowsBasics(t: Tables) {
    One(t, [97, 109, 112, 59]) == 38 && One(t, [108, 116, 59]) == 60 && One(t, [103, 116, 59]) == 62
  }

  /** A name of letters up to a semicolon is read as a whole, whatever follows. */
  lemma {:induction false} NameUpToSemicolon(s: seq<Byte>, i: nat, n: nat)
    requires 1 <= i <= n < |s| && (forall k :: i <= k < n ==> IsAlnum(s[k])) && s[n] == 59
    ensures NameEnd(s, i) == n + 1
    decreases n - i
  {
    if i < n { NameUpToSemicolon(s, i + 1, n); }
  }

  lemma NamedReference(t: Tables, name: seq<Byte>, rest: seq<Byte>)
    requires |name| > 1 && (forall k :: 0 <= k < |name| - 1 ==> IsAlnum(name[k])) && name[|name| - 1] == 59 &&
      One(t, name) != 0
    ensures Entity(t, [38] + name + rest, false) == (Encode(One(t, name)), |name| + 1)
  {
    var s := [38] + name + rest;
    forall k | 1 <= k < |name| ensures IsAlnum(s[k]) { assert s[k] == name[k - 1]; }
    NameUpToSemicolon(s, 1, |name|);
    assert s[1..|name| + 1] == name;
  }

  /** A decimal reference of two digits. */
  lemma NumericReference(t: Tables, d: Byte, e: Byte, rest: seq<Byte>)
    requires 48 <= d <= 57 && 48 <= e <= 57
    ensures Entity(t, [38, 35, d, e, 59] + rest, false) == (Encode(Replacement(10 * (d - 48) + (e - 48))), 5)
  {
    var s := [38, 35, d, e, 59] + rest;
    assert s[2] == d && s[3] == e && s[4] == 59;
    assert ReadNumber(s, 4, false, 10 * (d - 48) + (e - 48)) == (10 * (d - 48) + (e - 48), 5);
    assert ReadNumber(s, 3, false, d - 48) == ReadNumber(s, 4, false, Wrap(10 * (d - 48) + (e - 48)));
  }

  /** The reference of an escaped byte is replaced by that byte, whatever follows. */
  lemma EscapedByteBack(t: Tables, c: Byte, rest: seq<Byte>)
    requires KnowsBasics(t)
    ensures Unescaped(t, EscapedByte(c) + rest) == [c] + Unescaped(t, rest)
  {
    var e := EscapedByte(c);
    var s := e + rest;
    assert s[|e|..] == rest;
    if c == 38 || c == 60 || c == 62 {
      NamedReference(t, e[1..], rest);
      assert [38] + e[1..] + rest == s;
    } else if c == 39 {
      NumericReference(t, 51, 57, rest);
    } else if c == 34 {
      NumericReference(t, 51, 52, rest);
    }
  }

  /** Unescaping undoes escaping, for every byte string. */
  lemma {:induction false} UnescapeEscape(t: Tables, s: seq<Byte>)
    requires KnowsBasics(t)
    ensures Unescaped(t, Escaped(s)) == s
  {
    if s != [] {
      UnescapeEscape(t, s[1..]);
      EscapedByteBack(t, s[0], Escaped(s[1..]));
      assert [s[0]] + s[1..] == s;
    }
  }

  /** The converse does not hold: a name may have two references. */
  lemma EscapeUnescapeMayDiffer(t: Tables) returns (s: seq<Byte>)
    requires KnowsBasics(t)
    ensures Escaped(Unescaped(t, s)) != s
  {
    s := [38, 35, 51, 56, 59];
    NumericReference(t, 51, 56, []);
    assert s + [] == s && s[5..] == [];
    assert Unescaped(t, s) == [38];
  }

  method EscapeString(s: seq<Byte>) returns (r: seq<Byte>)
    ensures r == Escaped(s)
  {
    r := [];
    for i := 0 to |s|
      invariant r + Escaped(s[i..]) == Escaped(s)
    {
      assert s[i..][0] == s[i] && s[i..][1..] == s[i + 1..];
      assert r + (EscapedByte(s[i]) + Escaped(s[i + 1..])) == (r + EscapedByte(s[i])) + Escaped(s[i + 1..]);
      r := r + EscapedByte(s[i]);
    }
    assert s[|s|..] == [];
  }

  method UnescapeString(t: Tables, s: seq<Byte>) returns (r: seq<Byte>)
    requires Fitting(t)
    ensures r == Unescaped(t, s)
  {
    if 38 !in s {
      PlainPrefix(t, s, |s|);
      assert s[..|s|] == s && s[|s|..] == [];
      return s;
    }
    var b := new Byte[|s|](i requires 0 <= i < |s| => s[i]);
    assert b[..] == s;
    var n := Unescape(t, b);
    return b[..n];
  }
}
