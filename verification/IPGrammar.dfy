/** Which texts the parsers of src/net/ip.go:495-649 accept, and as what address: the notation of
    section 2.2 of RFC 4291, except that numerals may have any number of leading zeros. */
module IPGrammar {
  import opened Search
  import opened IPText

  // ------------------------------------------------------------------------ numerals

  predicate Numeral(base: nat, t: string) { t != "" && forall c :: c in t ==> ValueIn(base, c).Some? }

  /** The number that t stands for, on top of m. */
  function NumberOn(base: nat, m: nat, t: string): nat
    decreases |t|
  {
    if t == "" || ValueIn(base, t[0]).None? then m else NumberOn(base, m * base + ValueIn(base, t[0]).value, t[1..])
  }

  function Number(base: nat, t: string): nat { NumberOn(base, 0, t) }

  predicate Ends(base: nat, rest: string) { rest == "" || ValueIn(base, rest[0]).None? }

  lemma {:induction false} NumberGrows(base: nat, m: nat, t: string)
    requires base > 0
    ensures NumberOn(base, m, t) >= m
    decreases |t|
  {
    if t != "" && ValueIn(base, t[0]).Some? {
      Times(m, base);
      NumberGrows(base, m * base + ValueIn(base, t[0]).value, t[1..]);
    }
  }

  lemma Times(m: nat, base: nat)
    requires base > 0
    ensures m * base >= m
  {}

  lemma DigitRead(base: nat, c: char, w: string, m: nat, n: nat)
    requires ValueIn(base, c).Some? && n == m * base + ValueIn(base, c).value
    ensures ReadOn(base, [c] + w, m) == if n >= BIG then None else ReadOn(base, w, n)
    ensures NumberOn(base, m, [c] + w) == NumberOn(base, n, w)
  {
    assert ([c] + w)[1..] == w;
  }

  /** A numeral is read to its end, unless its value is too big. */
  lemma {:induction false} ReadOnIs(base: nat, t: string, rest: string, m: nat)
    requires base > 0 && m < BIG && Ends(base, rest) && forall c :: c in t ==> ValueIn(base, c).Some?
    ensures ReadOn(base, t + rest, m) == if NumberOn(base, m, t) < BIG then Some((NumberOn(base, m, t), rest)) else None
    decreases |t|
  {
    if t == "" {
      assert t + rest == rest;
    } else {
      var c, u := t[0], t[1..];
      assert c in t && forall d :: d in u ==> d in t;
      var n := m * base + ValueIn(base, c).value;
      DigitRead(base, c, u + rest, m, n);
      DigitRead(base, c, u, m, n);
      assert t + rest == [c] + (u + rest) && t == [c] + u;
      if n < BIG { ReadOnIs(base, u, rest, n); } else { NumberGrows(base, n, u); }
    }
  }

  lemma ReadIs(base: nat, t: string, rest: string)
    requires base > 0 && Numeral(base, t) && Ends(base, rest)
    ensures Read(base, t + rest) == if Number(base, t) < BIG then Some((Number(base, t), rest)) else None
  {
    assert t[0] in t && (t + rest)[0] == t[0];
    ReadOnIs(base, t, rest, 0);
  }

  /** The digits that a text begins with. */
  function Lead(base: nat, s: string): string {
    if s == "" || ValueIn(base, s[0]).None? then "" else [s[0]] + Lead(base, s[1..])
  }

  lemma {:induction false} LeadSplits(base: nat, s: string)
    ensures var t := Lead(base, s); |t| <= |s| && s == t + s[|t|..] && Ends(base, s[|t|..]) && forall c :: c in t ==>
      ValueIn(base, c).Some?
  {
    if s != "" && ValueIn(base, s[0]).Some? {
      LeadSplits(base, s[1..]);
      var t := Lead(base, s[1..]);
      assert s[1..][|t|..] == s[|t| + 1..];
    }
  }

  /** What was read is a numeral. */
  lemma ReadSplits(base: nat, s: string) returns (t: string)
    requires base > 0 && Read(base, s).Some?
    ensures var (n, rest) := Read(base, s).value;
      Numeral(base, t) && s == t + rest && Ends(base, rest) && n == Number(base, t) < BIG
  {
    LeadSplits(base, s);
    t := Lead(base, s);
    ReadIs(base, t, s[|t|..]);
  }

  // ------------------------------------------------------------------ dotted addresses

  predicate IsOctet(t: string) { Numeral(10, t) && Number(10, t) <= 0xFF }

  predicate AllOctets(ts: seq<string>) { forall i :: 0 <= i < |ts| ==> IsOctet(ts[i]) }

  function Octets(ts: seq<string>): (p: seq<Byte>)
    requires AllOctets(ts)
    ensures |p| == |ts|
  {
    seq(|ts|, i requires 0 <= i < |ts| => Number(10, ts[i]) as Byte)
  }

  /** Four numerals of at most 255, joined by dots. */
  predicate IsDotted(s: string, ts: seq<string>) {
    |ts| == 4 && AllOctets(ts) && s == ts[0] + "." + ts[1] + "." + ts[2] + "." + ts[3]
  }

  /** The rest of a dotted address, with a dot in front of each numeral but the first. */
  function OctetText(ts: seq<string>, first: bool): string {
    if ts == [] then "" else (if first then "" else ".") + (ts[0] + OctetText(ts[1..], false))
  }

  lemma OctetEnds(ts: seq<string>)
    ensures Ends(10, OctetText(ts, false)) && (OctetText(ts, false) == "" <==> ts == [])
  {}

  lemma OctetStep(t: string, rest: string, p: seq<Byte>)
    requires IsOctet(t) && Ends(10, rest) && |p| < 4
    ensures ParseOctets((if p == [] then "" else ".") + (t + rest), p) == ParseOctets(rest, p + [Number(10, t) as Byte])
  {
    ReadIs(10, t, rest);
    var s := (if p == [] then "" else ".") + (t + rest);
    assert p != [] ==> s[1..] == t + rest;
    assert p == [] ==> s == t + rest;
  }

  lemma {:induction false} OctetsRead(ts: seq<string>, p: seq<Byte>)
    requires AllOctets(ts) && |ts| + |p| == 4
    ensures ParseOctets(OctetText(ts, p == []), p) == Some(IPv4(p + Octets(ts)))
    decreases |ts|
  {
    if ts == [] {
      assert p + Octets(ts) == p;
    } else {
      var n: Byte := Number(10, ts[0]);
      OctetEnds(ts[1..]);
      OctetStep(ts[0], OctetText(ts[1..], false), p);
      OctetsRead(ts[1..], p + [n]);
      assert p + [n] + Octets(ts[1..]) == p + Octets(ts);
    }
  }

  lemma {:induction false} OctetsFound(s: string, p: seq<Byte>) returns (ts: seq<string>)
    requires |p| <= 4 && ParseOctets(s, p).Some?
    ensures AllOctets(ts) && |ts| + |p| == 4 && s == OctetText(ts, p == [])
    decreases |s|
  {
    if |p| == 4 {
      ts := [];
    } else {
      var u := if |p| > 0 then s[1..] else s;
      var t := ReadSplits(10, u);
      var (n, rest) := Read(10, u).value;
      var us := OctetsFound(rest, p + [n]);
      ts := [t] + us;
      assert ts[1..] == us;
      assert s == (if p == [] then "" else ".") + u;
    }
  }

  lemma FourOctets(ts: seq<string>)
    requires |ts| == 4
    ensures OctetText(ts, true) == ts[0] + "." + ts[1] + "." + ts[2] + "." + ts[3]
  {
    var a, b, c := ts[1..], ts[1..][1..], ts[1..][1..][1..];
    assert c[1..] == [];
    assert OctetText(c, false) == "." + ts[3];
    assert OctetText(b, false) == "." + (ts[2] + ("." + ts[3]));
    assert OctetText(a, false) == "." + (ts[1] + ("." + (ts[2] + ("." + ts[3]))));
  }

  /** The dotted parser accepts exactly the dotted texts, as the address of their four numbers. */
  lemma DottedLanguage(s: string, ip: IP)
    ensures ParseIPv4(s) == Some(ip) <==> exists ts :: IsDotted(s, ts) && ip == IPv4(Octets(ts))
  {
    if ParseIPv4(s) == Some(ip) {
      var ts := OctetsFound(s, []);
      OctetsRead(ts, []);
      FourOctets(ts);
      assert IsDotted(s, ts) && [] + Octets(ts) == Octets(ts);
    }
    if ts :| IsDotted(s, ts) && ip == IPv4(Octets(ts)) {
      OctetsRead(ts, []);
      FourOctets(ts);
      assert [] + Octets(ts) == Octets(ts);
    }
  }

  // ------------------------------------------------------------------- colon addresses

  predicate IsGroup(t: string) { Numeral(16, t) && Number(16, t) <= 0xFFFF }

  ghost predicate IsQuad(t: string) { exists ts :: IsDotted(t, ts) }

  /** The two bytes of a group; the four of a dotted address in its place. */
  function ItemBytes(t: string): (p: seq<Byte>)
    ensures IsGroup(t) ==> |p| == 2
  {
    if IsGroup(t) then [Number(16, t) / 0x100, Number(16, t) % 0x100]
    else match ParseIPv4(t)
      case Some(ip) => if |ip| == 16 then ip[12..] else []
      case None => []
  }

  predicate AllGroups(ts: seq<string>) { forall i :: 0 <= i < |ts| ==> IsGroup(ts[i]) }

  /** Groups, the last of which may be a dotted address. */
  ghost predicate Items(ts: seq<string>) {
    ts != [] ==> AllGroups(ts[..|ts| - 1]) && (IsGroup(ts[|ts| - 1]) || IsQuad(ts[|ts| - 1]))
  }

  function Bytes(ts: seq<string>): seq<Byte> { if ts == [] then [] else ItemBytes(ts[0]) + Bytes(ts[1..]) }

  function Colons(ts: seq<string>): string {
    if ts == [] then "" else if |ts| == 1 then ts[0] else ts[0] + ":" + Colons(ts[1..])
  }

  /** The items before the ellipsis, if there is one, and those behind it. */
  datatype Form = Form(front: seq<string>, back: Option<seq<string>>) {
    function Text(): string { Colons(front) + if back.None? then "" else "::" + Colons(back.value) }

    function Front(): seq<Byte> { Bytes(front) }

    function Back(): seq<Byte> { if back.None? then [] else Bytes(back.value) }

    /** A dotted address only comes last. */
    ghost predicate Ok() { if back.None? then Items(front) else AllGroups(front) && Items(back.value) }
  }

  /** Items of sixteen bytes, or of less with an ellipsis, which stands for at least one group. */
  ghost predicate IsColonForm(s: string, f: Form) {
    s == f.Text() && f.Ok() && if f.back.None? then |f.Front()| == 16 else |f.Front()| + |f.Back()| < 16
  }

  function Denoted(f: Form): IP
    requires |f.Front()| + |f.Back()| <= 16
  {
    f.Front() + Zeros(16 - |f.Front()| - |f.Back()|) + f.Back()
  }

  lemma QuadBytes(t: string, ts: seq<string>)
    requires IsDotted(t, ts)
    ensures ParseIPv4(t) == Some(IPv4(Octets(ts))) && !IsGroup(t) && ItemBytes(t) == Octets(ts)
  {
    DottedLanguage(t, IPv4(Octets(ts)));
    assert t[|ts[0]|] == '.';
    assert '.' in t && ValueIn(16, '.').None?;
  }

  lemma QuadLength(t: string)
    requires IsQuad(t)
    ensures |ItemBytes(t)| == 4 && !IsGroup(t)
  {
    var ts :| IsDotted(t, ts);
    QuadBytes(t, ts);
  }

  lemma SingleItem(t: string)
    ensures Colons([t]) == t && Bytes([t]) == ItemBytes(t) && (IsGroup(t) || IsQuad(t) ==> Items([t]))
  {
    assert [t][1..] == [] && [t][..0] == [];
  }

  lemma ItemsTail(ts: seq<string>)
    requires Items(ts) && |ts| > 1
    ensures IsGroup(ts[0]) && Items(ts[1..])
  {
    assert IsGroup(ts[..|ts| - 1][0]);
    assert ts[1..][..|ts[1..]| - 1] == ts[..|ts| - 1][1..];
  }

  lemma {:induction false} BytesEven(ts: seq<string>)
    requires Items(ts)
    ensures |Bytes(ts)| % 2 == 0 && (ts != [] ==> |Bytes(ts)| >= 2)
  {
    if |ts| == 1 {
      SingleItem(ts[0]);
      assert ts == [ts[0]];
      if IsQuad(ts[0]) { QuadLength(ts[0]); }
    } else if ts != [] {
      ItemsTail(ts);
      BytesEven(ts[1..]);
    }
  }

  // ---------------------------------------------------------------- from text to form

  /** The numeral t and what follows it have been read. */
  lemma GroupRead(t: string, rest: string, ip: seq<Byte>, e: Option<nat>)
    requires IsGroup(t) && Ends(16, rest) && |ip| < 16 && |ip| % 2 == 0
    ensures ParseGroups(t + rest, ip, e) ==
      if rest != "" && rest[0] == '.' then ParseTrailer(t + rest, ip, e) else ParseColon(rest, ip + ItemBytes(t), e)
  {
    ReadIs(16, t, rest);
  }

  lemma GroupSplits(s: string, ip: seq<Byte>, e: Option<nat>) returns (t: string, rest: string)
    requires |ip| < 16 && |ip| % 2 == 0 && ParseGroups(s, ip, e).Some?
    ensures IsGroup(t) && s == t + rest && Ends(16, rest)
  {
    t := ReadSplits(16, s);
    rest := Read(16, s).value.1;
  }

  lemma ItemMore(t: string, ts: seq<string>)
    requires ts != []
    ensures Colons([t] + ts) == t + (":" + Colons(ts)) && Bytes([t] + ts) == ItemBytes(t) + Bytes(ts)
  {
    assert ([t] + ts)[1..] == ts;
    assert Colons([t] + ts) == t + ":" + Colons(ts);
  }

  lemma GroupMore(t: string, ts: seq<string>)
    requires ts != [] && IsGroup(t)
    ensures Items(ts) ==> Items([t] + ts)
    ensures AllGroups(ts) ==> AllGroups([t] + ts)
  {
    var us := [t] + ts;
    assert us[..|us| - 1] == [t] + ts[..|ts| - 1];
  }

  function Prepended(t: string, f: Form): Form { Form([t] + f.front, f.back) }

  lemma FormMore(t: string, f: Form)
    requires IsGroup(t) && f.Ok() && f.front != []
    ensures Prepended(t, f).Ok() && Prepended(t, f).Text() == t + (":" + f.Text())
    ensures Prepended(t, f).Front() == ItemBytes(t) + f.Front() && Prepended(t, f).Back() == f.Back()
  {
    ItemMore(t, f.front);
    GroupMore(t, f.front);
  }

  /** What reading a form on top of ip gives. */
  function Got(f: Form, ip: seq<Byte>, e: Option<nat>): (seq<Byte>, Option<nat>) {
    (ip + f.Front() + f.Back(), if f.back.Some? then Some(|ip| + |f.Front()|) else e)
  }

  lemma GotMore(t: string, f: Form, ip: seq<Byte>, e: Option<nat>)
    requires IsGroup(t) && f.Ok() && f.front != []
    ensures Got(Prepended(t, f), ip, e) == Got(f, ip + ItemBytes(t), e)
  {
    FormMore(t, f);
    assert ip + (ItemBytes(t) + f.Front()) == ip + ItemBytes(t) + f.Front();
  }

  lemma OneGroup(t: string, ip: seq<Byte>, e: Option<nat>)
    requires IsGroup(t)
    ensures var f := Form([t], None);
      f.Ok() && f.Text() == t && f.Front() == ItemBytes(t) && Got(f, ip, e) == (ip + ItemBytes(t), e)
  {
    SingleItem(t);
    assert t + "" == t;
    assert ip + ItemBytes(t) + [] == ip + ItemBytes(t);
  }

  /** A group, the ellipsis, and what is behind it. */
  lemma EllipsisForm(t: string, back: seq<string>, ip: seq<Byte>)
    requires IsGroup(t) && Items(back)
    ensures var f := Form([t], Some(back));
      && f.Ok() && f.Text() == t + ("::" + Colons(back))
      && Got(f, ip, None) == (ip + ItemBytes(t) + Bytes(back), Some(|ip + ItemBytes(t)|))
  {
    SingleItem(t);
  }

  /** Whatever the group parser reads is the text of a form. */
  lemma {:induction false} GroupsFound(s: string, ip: seq<Byte>, e: Option<nat>) returns (f: Form)
    requires s != "" && |ip| <= 16 && |ip| % 2 == 0 && ParseGroups(s, ip, e).Some?
    ensures f.Ok() && f.front != [] && s == f.Text() && (e.Some? ==> f.back.None?)
    ensures ParseGroups(s, ip, e) == Some(Got(f, ip, e)) && |Got(f, ip, e).0| <= 16
    decreases |s|
  {
    var t, rest := GroupSplits(s, ip, e);
    GroupRead(t, rest, ip, e);
    if rest != "" && rest[0] == '.' {
      f := TrailerFound(s, ip, e);
    } else if rest == "" {
      f := Form([t], None);
      assert s == t;
      OneGroup(t, ip, e);
    } else if rest[1] != ':' {
      var g := GroupsFound(rest[1..], ip + ItemBytes(t), e);
      f := Prepended(t, g);
      FormMore(t, g);
      GotMore(t, g, ip, e);
      assert rest == ":" + rest[1..];
    } else {
      f := EllipsisFound(t, rest, ip);
    }
  }

  lemma TrailerFound(s: string, ip: seq<Byte>, e: Option<nat>) returns (f: Form)
    requires ParseTrailer(s, ip, e).Some?
    ensures f == Form([s], None) && f.Ok() && s == f.Text() && ParseTrailer(s, ip, e) == Some(Got(f, ip, e))
  {
    var ip4 := ParseIPv4(s).value;
    DottedLanguage(s, ip4);
    var ts :| IsDotted(s, ts) && ip4 == IPv4(Octets(ts));
    QuadBytes(s, ts);
    f := Form([s], None);
    SingleItem(s);
    assert s + "" == s;
    assert ip4[12..] == Octets(ts);
    assert ip + Octets(ts) + [] == ip + Octets(ts);
  }

  lemma {:induction false} EllipsisFound(t: string, rest: string, ip: seq<Byte>) returns (f: Form)
    requires IsGroup(t) && |ip| < 16 && |ip| % 2 == 0
    requires |rest| > 1 && rest[0] == rest[1] == ':' && ParseColon(rest, ip + ItemBytes(t), None).Some?
    ensures f.Ok() && f.front != [] && t + rest == f.Text() && f.back.Some?
    ensures ParseColon(rest, ip + ItemBytes(t), None) == Some(Got(f, ip, None)) && |Got(f, ip, None).0| <= 16
    decreases |t + rest|, 0
  {
    var back := [];
    if |rest| == 2 {
      assert rest == "::" + Colons([]);
      assert ip + ItemBytes(t) + Bytes([]) == ip + ItemBytes(t);
    } else {
      var g := GroupsFound(rest[2..], ip + ItemBytes(t), Some(|ip| + 2));
      back := g.front;
      assert g.Text() == Colons(back);
      assert rest == "::" + rest[2..];
      assert ip + ItemBytes(t) + Bytes(back) + [] == ip + ItemBytes(t) + Bytes(back);
    }
    f := Form([t], Some(back));
    EllipsisForm(t, back, ip);
  }

  // ---------------------------------------------------------------- from form to text

  lemma ColonsStart(ts: seq<string>)
    requires ts != [] && Items(ts)
    ensures Colons(ts) != "" && Colons(ts)[0] != ':'
  {
    if |ts| > 1 { ItemsTail(ts); }
    if IsGroup(ts[0]) {
      assert ts[0][0] in ts[0];
    } else {
      assert IsQuad(ts[0]);
      var qs :| IsDotted(ts[0], qs);
      assert qs[0][0] in qs[0] && ts[0][0] == qs[0][0];
    }
    if |ts| > 1 { assert Colons(ts) == ts[0] + ":" + Colons(ts[1..]); }
  }

  lemma QuadSplits(t: string, ts: seq<string>) returns (rest: string)
    requires IsDotted(t, ts)
    ensures t == ts[0] + rest && rest != "" && rest[0] == '.'
  {
    rest := "." + ts[1] + "." + ts[2] + "." + ts[3];
  }

  lemma TrailerRead(t: string, ts: seq<string>, ip: seq<Byte>, e: Option<nat>)
    requires IsDotted(t, ts) && |ip| + 4 <= 16 && (e.None? ==> |ip| == 12)
    ensures ParseTrailer(t, ip, e) == Some((ip + ItemBytes(t), e))
  {
    QuadBytes(t, ts);
    assert IPv4(Octets(ts))[12..] == Octets(ts);
  }

  lemma QuadRead(t: string, ip: seq<Byte>, e: Option<nat>)
    requires IsQuad(t) && |ip| + 4 <= 16 && |ip| % 2 == 0 && (e.None? ==> |ip| == 12)
    ensures ParseGroups(t, ip, e) == Some((ip + ItemBytes(t), e))
  {
    var ts :| IsDotted(t, ts);
    var rest := QuadSplits(t, ts);
    QuadBegins(ts[0]);
    GroupRead(ts[0], rest, ip, e);
    TrailerRead(t, ts, ip, e);
  }

  /** A number of a dotted address could be a group as well. */
  lemma QuadBegins(t: string)
    requires IsOctet(t)
    ensures IsGroup(t)
  {
    forall c | c in t ensures ValueIn(16, c).Some? { assert ValueIn(10, c).Some?; }
    DecimalInHex(t, 0);
  }

  /** The decimal digits of m as hexadecimal ones. */
  function AsHex(m: nat): nat { 0x100 * (m / 100) + 0x10 * (m / 10 % 10) + m % 10 }

  lemma {:induction false} DecimalInHex(t: string, m: nat)
    requires (forall c :: c in t ==> ValueIn(10, c).Some?) && NumberOn(10, m, t) <= 0xFF
    ensures NumberOn(16, AsHex(m), t) == AsHex(NumberOn(10, m, t))
    decreases |t|
  {
    if t != "" {
      assert t[0] in t && forall c :: c in t[1..] ==> c in t;
      var d := ValueIn(10, t[0]).value;
      assert ValueIn(16, t[0]) == Some(d);
      NumberGrows(10, 10 * m + d, t[1..]);
      NextAsHex(m, d);
      DecimalInHex(t[1..], 10 * m + d);
    }
  }

  lemma NextAsHex(m: nat, d: nat)
    requires m <= 25 && d < 10
    ensures AsHex(10 * m + d) == 16 * AsHex(m) + d
  {
    var tens, ones := m / 10, m % 10;
    assert m == 10 * tens + ones && tens < 10;
    assert (10 * m + d) / 10 == m && (10 * m + d) % 10 == d && (10 * m + d) / 100 == tens;
    assert m / 100 == 0;
  }

  lemma ColonsUnfold(ts: seq<string>)
    requires |ts| > 1
    ensures Colons(ts) == ts[0] + (":" + Colons(ts[1..])) && Bytes(ts) == ItemBytes(ts[0]) + Bytes(ts[1..])
  {
    ColonBetween(ts[0], Colons(ts[1..]));
  }

  lemma ColonBetween(t: string, w: string)
    ensures t + ":" + w == t + (":" + w)
  {}

  lemma LastItemRead(ts: seq<string>, ip: seq<Byte>, e: Option<nat>)
    requires |ts| == 1 && Items(ts) && |ip| % 2 == 0 && |ip| + |Bytes(ts)| <= 16 &&
      (e.None? ==> |ip| + |Bytes(ts)| == 16)
    ensures ParseGroups(Colons(ts), ip, e) == Some((ip + Bytes(ts), e))
  {
    var t := ts[0];
    assert ts[1..] == [] && Bytes(ts) == ItemBytes(t);
    if IsGroup(t) {
      LoneGroupRead(t, ip, e);
    } else {
      QuadLength(t);
      QuadRead(t, ip, e);
    }
  }

  /** A group, a colon, and the text w that begins the next one. */
  lemma GroupThen(t: string, w: string, ip: seq<Byte>, e: Option<nat>)
    requires IsGroup(t) && w != "" && w[0] != ':' && |ip| < 16 && |ip| % 2 == 0
    ensures ParseGroups(t + (":" + w), ip, e) == ParseGroups(w, ip + ItemBytes(t), e)
  {
    GroupRead(t, ":" + w, ip, e);
    assert (":" + w)[1..] == w;
  }

  lemma AppendAll(a: seq<Byte>, b: seq<Byte>, c: seq<Byte>, bc: seq<Byte>)
    requires bc == b + c
    ensures a + b + c == a + bc
  {}

  /** The items fit behind ip; without an ellipsis they fill the address. */
  ghost predicate HasRoom(ts: seq<string>, ip: seq<Byte>, e: Option<nat>) {
    ts != [] && Items(ts) && |ip| % 2 == 0 && |ip| + |Bytes(ts)| <= 16 && (e.None? ==> |ip| + |Bytes(ts)| == 16)
  }

  lemma RoomOn(ts: seq<string>, ip: seq<Byte>, e: Option<nat>)
    requires HasRoom(ts, ip, e) && |ts| > 1
    ensures IsGroup(ts[0]) && |ip| < 16 && HasRoom(ts[1..], ip + ItemBytes(ts[0]), e)
  {
    ItemsTail(ts);
    BytesEven(ts[1..]);
    ColonsUnfold(ts);
  }

  /** Reading the items of a form without an ellipsis. */
  lemma {:induction false} ItemsRead(ts: seq<string>, ip: seq<Byte>, e: Option<nat>)
    requires HasRoom(ts, ip, e)
    ensures ParseGroups(Colons(ts), ip, e) == Some((ip + Bytes(ts), e))
    decreases |ts|
  {
    if |ts| == 1 {
      LastItemRead(ts, ip, e);
    } else {
      RoomOn(ts, ip, e);
      ItemsRead(ts[1..], ip + ItemBytes(ts[0]), e);
      NextItemRead(ts, ip, e);
    }
  }

  lemma NextItemRead(ts: seq<string>, ip: seq<Byte>, e: Option<nat>)
    requires |ts| > 1 && IsGroup(ts[0]) && |ip| < 16 && |ip| % 2 == 0 && Items(ts[1..])
    requires ParseGroups(Colons(ts[1..]), ip + ItemBytes(ts[0]), e) == Some((ip + ItemBytes(ts[0]) + Bytes(ts[1..]), e))
    ensures ParseGroups(Colons(ts), ip, e) == Some((ip + Bytes(ts), e))
  {
    ColonsUnfold(ts);
    ColonsStart(ts[1..]);
    GroupThen(ts[0], Colons(ts[1..]), ip, e);
    AppendAll(ip, ItemBytes(ts[0]), Bytes(ts[1..]), Bytes(ts));
  }

  lemma LoneGroupRead(t: string, ip: seq<Byte>, e: Option<nat>)
    requires IsGroup(t) && |ip| < 16 && |ip| % 2 == 0
    ensures ParseGroups(t, ip, e) == Some((ip + ItemBytes(t), e))
  {
    GroupRead(t, "", ip, e);
    assert t + "" == t;
  }

  lemma LastGroupRead(front: seq<string>, back: seq<string>, ip: seq<Byte>)
    requires |front| == 1 && AllGroups(front) && Items(back) && |ip| % 2 == 0 &&
      |ip| + |Bytes(front)| + |Bytes(back)| < 16
    ensures ParseGroups(Colons(front) + ("::" + Colons(back)), ip, None) ==
      Some((ip + Bytes(front) + Bytes(back), Some(|ip| + |Bytes(front)|)))
  {
    assert front[1..] == [] && Bytes(front) == ItemBytes(front[0]);
    LastBeforeEllipsis(front[0], back, ip);
  }

  ghost predicate HasGap(front: seq<string>, back: seq<string>, ip: seq<Byte>) {
    front != [] && AllGroups(front) && Items(back) && |ip| % 2 == 0 && |ip| + |Bytes(front)| + |Bytes(back)| < 16
  }

  lemma GapOn(front: seq<string>, back: seq<string>, ip: seq<Byte>)
    requires HasGap(front, back, ip) && |front| > 1
    ensures IsGroup(front[0]) && |ip| < 16 && |ip| % 2 == 0 && AllGroups(front[1..]) &&
      HasGap(front[1..], back, ip + ItemBytes(front[0]))
  {
    ColonsUnfold(front);
  }

  /** What is read from the groups of front, the ellipsis and the items of back. */
  ghost predicate FormIsRead(front: seq<string>, back: seq<string>, ip: seq<Byte>)
    requires |ip| <= 16 && |ip| % 2 == 0
  {
    ParseGroups(Colons(front) + ("::" + Colons(back)), ip, None) == Some((ip + Bytes(front) + Bytes(back),
      Some(|ip| + |Bytes(front)|)))
  }

  /** Reading the groups up to the ellipsis, and the items behind it. */
  lemma {:induction false} FormRead(front: seq<string>, back: seq<string>, ip: seq<Byte>)
    requires HasGap(front, back, ip)
    ensures FormIsRead(front, back, ip)
    decreases |front|
  {
    if |front| == 1 {
      LastGroupRead(front, back, ip);
    } else {
      GapOn(front, back, ip);
      FormRead(front[1..], back, ip + ItemBytes(front[0]));
      NextGroupRead(front, back, ip);
    }
  }

  lemma NextGroupRead(front: seq<string>, back: seq<string>, ip: seq<Byte>)
    requires |front| > 1 && IsGroup(front[0]) && |ip| < 16 && |ip| % 2 == 0 && AllGroups(front[1..])
    requires FormIsRead(front[1..], back, ip + ItemBytes(front[0]))
    ensures FormIsRead(front, back, ip)
  {
    var t, w, more := front[0], Colons(front[1..]), "::" + Colons(back);
    ColonsUnfold(front);
    GroupsStart(front[1..], more);
    TextAssoc(t, w, more, Colons(front));
    GroupThen(t, w + more, ip, None);
    AppendAll(ip, ItemBytes(t), Bytes(front[1..]), Bytes(front));
  }

  lemma ItemsOfGroups(ts: seq<string>)
    requires AllGroups(ts)
    ensures Items(ts)
  {}

  lemma GroupsStart(ts: seq<string>, more: string)
    requires ts != [] && AllGroups(ts)
    ensures var w := Colons(ts) + more; w != "" && w[0] != ':'
  {
    ItemsOfGroups(ts);
    ColonsStart(ts);
  }

  lemma TextAssoc(t: string, w: string, more: string, text: string)
    requires text == t + (":" + w)
    ensures text + more == t + (":" + (w + more))
  {}

  lemma RoomBehind(back: seq<string>, ip: seq<Byte>, item: seq<Byte>)
    requires |item| == 2 && back != [] && Items(back) && |ip| % 2 == 0 && |ip| + 2 + |Bytes(back)| < 16
    ensures HasRoom(back, ip + item, Some(|ip| + 2))
  {}

  lemma LastBeforeEllipsis(t: string, back: seq<string>, ip: seq<Byte>)
    requires IsGroup(t) && Items(back) && |ip| % 2 == 0 && |ip| + 2 + |Bytes(back)| < 16
    ensures ParseGroups(t + ("::" + Colons(back)), ip, None) ==
      Some((ip + ItemBytes(t) + Bytes(back), Some(|ip| + 2)))
  {
    var w := Colons(back);
    GroupRead(t, "::" + w, ip, None);
    assert ("::" + w)[2..] == w;
    if back != [] {
      ColonsStart(back);
      RoomBehind(back, ip, ItemBytes(t));
      ItemsRead(back, ip + ItemBytes(t), Some(|ip| + 2));
    } else {
      assert ip + ItemBytes(t) + [] == ip + ItemBytes(t);
    }
  }

  // --------------------------------------------------------------------- the languages

  lemma FormExpands(f: Form, s: string)
    requires IsColonForm(s, f)
    ensures Expand(f.Front() + f.Back(), if f.back.Some? then Some(|f.Front()|) else None) == Some(Denoted(f))
  {
    if f.back.Some? {
      ExpandsAt(f.Front(), f.Back());
    } else {
      ExpandsWhole(f.Front(), f.Back());
    }
  }

  lemma ExpandsAt(front: seq<Byte>, back: seq<Byte>)
    requires |front| + |back| < 16
    ensures Expand(front + back, Some(|front|)) == Some(front + Zeros(16 - |front| - |back|) + back)
  {
    assert (front + back)[..|front|] == front && (front + back)[|front|..] == back;
  }

  lemma ExpandsWhole(front: seq<Byte>, back: seq<Byte>)
    requires |front| == 16 && back == []
    ensures Expand(front + back, None) == Some(front + Zeros(16 - |front| - |back|) + back)
  {
    assert Zeros(16 - |front| - |back|) == [] && front + [] == front;
    assert front + back == front;
  }

  lemma FormParsed(s: string, f: Form)
    requires IsColonForm(s, f)
    ensures ParseIPv6(s) == Some(Denoted(f))
  {
    FormExpands(f, s);
    if f.back.None? {
      FullFormParsed(s, f.front);
      assert f.Front() + f.Back() == f.Front();
    } else if f.front == [] {
      LeadingEllipsisParsed(s, f.back.value);
      assert f.Front() + f.Back() == f.Back();
    } else {
      GappedFormParsed(s, f.front, f.back.value);
    }
  }

  lemma FullFormParsed(s: string, front: seq<string>)
    requires s == Colons(front) + "" && Items(front) && |Bytes(front)| == 16
    ensures ParseIPv6(s) == Expand(Bytes(front), None)
  {
    ColonsStart(front);
    assert s == Colons(front);
    ItemsRead(front, [], None);
    assert [] + Bytes(front) == Bytes(front);
  }

  lemma PlainStart(s: string)
    requires s != "" && s[0] != ':'
    ensures ParseIPv6(s) == Finish(ParseGroups(s, [], None))
  {}

  lemma OnNothing(a: seq<Byte>, b: seq<Byte>)
    ensures [] + a + b == a + b
  {}

  lemma GappedFormParsed(s: string, front: seq<string>, back: seq<string>)
    requires s == Colons(front) + ("::" + Colons(back)) && HasGap(front, back, [])
    ensures ParseIPv6(s) == Expand(Bytes(front) + Bytes(back), Some(|Bytes(front)|))
  {
    GroupsStart(front, "::" + Colons(back));
    PlainStart(s);
    FormRead(front, back, []);
    OnNothing(Bytes(front), Bytes(back));
  }

  lemma LeadingEllipsisParsed(s: string, back: seq<string>)
    requires s == Colons([]) + ("::" + Colons(back)) && Items(back) && |Bytes(back)| < 16
    ensures ParseIPv6(s) == Expand(Bytes(back), Some(0))
  {
    assert s == "::" + Colons(back) && s[2..] == Colons(back);
    if back == [] {
      assert [][..0] + Zeros(16) + [][0..] == Zeros(16);
    } else {
      ColonsStart(back);
      ItemsRead(back, [], Some(0));
      assert [] + Bytes(back) == Bytes(back);
    }
  }

  lemma ParsedForm(s: string) returns (f: Form)
    requires ParseIPv6(s).Some?
    ensures IsColonForm(s, f)
  {
    if |s| >= 2 && s[0] == ':' && s[1] == ':' {
      f := LeadingEllipsisForm(s);
    } else {
      f := PlainForm(s);
    }
  }

  lemma PlainForm(s: string) returns (f: Form)
    requires Finish(ParseGroups(s, [], None)).Some?
    ensures IsColonForm(s, f)
  {
    f := GroupsFound(s, [], None);
    NothingBefore(f.Front(), f.Back());
    Sized(f, f.Front() + f.Back());
  }

  lemma NothingBefore(front: seq<Byte>, back: seq<Byte>)
    ensures [] + front + back == front + back
  {
    assert [] + front == front;
  }

  lemma Sized(f: Form, ip: seq<Byte>)
    requires ip == f.Front() + f.Back() && Expand(ip, if f.back.Some? then Some(|f.Front()|) else None).Some? &&
      |ip| <= 16
    ensures if f.back.None? then |f.Front()| == 16 else |f.Front()| + |f.Back()| < 16
  {}

  lemma LeadingEllipsisForm(s: string) returns (f: Form)
    requires |s| >= 2 && s[0] == ':' && s[1] == ':' && ParseIPv6(s).Some?
    ensures IsColonForm(s, f)
  {
    assert s == "::" + s[2..];
    if |s| == 2 {
      f := Form([], Some([]));
      assert s == "" + ("::" + "");
    } else {
      var g := GroupsFound(s[2..], [], Some(0));
      f := Form([], Some(g.front));
      assert g.Text() == Colons(g.front);
      assert [] + g.Front() + g.Back() == g.Front();
      assert s == "" + ("::" + Colons(g.front));
    }
  }

  /** The colon parser accepts exactly the texts of such forms, as the address that the form denotes. */
  lemma ColonLanguage(s: string, ip: IP)
    ensures ParseIPv6(s) == Some(ip) <==> exists f :: IsColonForm(s, f) && ip == Denoted(f)
  {
    if ParseIPv6(s) == Some(ip) {
      var f := ParsedForm(s);
      FormParsed(s, f);
    }
    if f :| IsColonForm(s, f) && ip == Denoted(f) { FormParsed(s, f); }
  }

  // ------------------------------------------------------------------ either notation

  lemma {:induction false} FirstBehind(t: string, rest: string)
    requires (forall c :: c in t ==> c != '.' && c != ':') && rest != "" && (rest[0] == '.' || rest[0] == ':')
    ensures FirstOf(t + rest) == Some(rest[0])
  {
    if t == "" {
      assert t + rest == rest;
    } else {
      assert t[0] in t && (t + rest)[1..] == t[1..] + rest;
      assert forall c :: c in t[1..] ==> c in t;
      FirstBehind(t[1..], rest);
    }
  }

  lemma DotFirst(s: string, ts: seq<string>)
    requires IsDotted(s, ts)
    ensures FirstOf(s) == Some('.')
  {
    var rest := QuadSplits(s, ts);
    forall c | c in ts[0] ensures c != '.' && c != ':' { assert ValueIn(10, c).Some?; }
    FirstBehind(ts[0], rest);
  }

  lemma ColonBehind(t: string, rest: string)
    requires IsGroup(t) && rest != "" && rest[0] == ':'
    ensures FirstOf(t + rest) == Some(':')
  {
    forall c | c in t ensures c != '.' && c != ':' { assert ValueIn(16, c).Some?; }
    FirstBehind(t, rest);
  }

  lemma ColonFirst(s: string, f: Form)
    requires IsColonForm(s, f)
    ensures FirstOf(s) == Some(':')
  {
    var more := if f.back.None? then "" else "::" + Colons(f.back.value);
    if f.front == [] {
      assert s == more && s[0] == ':';
    } else if |f.front| == 1 {
      SingleItem(f.front[0]);
      assert f.front == [f.front[0]];
      if f.back.None? {
        if !IsGroup(f.front[0]) { QuadLength(f.front[0]); }
      } else {
        ColonBehind(f.front[0], more);
      }
    } else {
      if f.back.Some? { ItemsOfGroups(f.front); }
      ItemsTail(f.front);
      ColonsUnfold(f.front);
      TextAssoc(f.front[0], Colons(f.front[1..]), more, Colons(f.front));
      ColonBehind(f.front[0], ":" + (Colons(f.front[1..]) + more));
    }
  }

  /** ParseIP accepts exactly the two notations; no text is in both. */
  lemma AddressLanguage(s: string, ip: IP)
    ensures ParseIP(s) == Some(ip) <==>
      (exists ts :: IsDotted(s, ts) && ip == IPv4(Octets(ts))) || (exists f :: IsColonForm(s, f) && ip == Denoted(f))
  {
    DottedLanguage(s, ip);
    ColonLanguage(s, ip);
    if ts :| IsDotted(s, ts) { DotFirst(s, ts); }
    if f :| IsColonForm(s, f) { ColonFirst(s, f); }
  }
}
