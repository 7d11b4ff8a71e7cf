/** The order of section 6 of RFC 6724 on destination addresses (src/net/addrselect.go:57-212). */
module AddrOrder {
  import opened Search
  import opened IPText
  import opened AddrSelect
  import opened PackedWord

  datatype Attr = Attr(scope: nat, precedence: nat, tag: nat)

  /** A destination with the source address it would be reached from; None is nil. */
  datatype Candidate = Candidate(addr: Option<IP>, src: Option<IP>, addrAttr: Attr, srcAttr: Attr)

  function Bytes(ip: Option<IP>): IP { if ip.Some? then ip.value else [] }

  ghost function AttrOf(t: seq<Entry>, ip: Option<IP>): Attr {
    if ip.None? then Attr(0, 0, 0)
    else Attr(ClassifyScope(ip.value), Pick(t, ip.value).precedence, Pick(t, ip.value).tag)
  }

  /** The attributes are those of the two addresses. */
  ghost predicate Attributed(t: seq<Entry>, c: Candidate) {
    c.addrAttr == AttrOf(t, c.addr) && c.srcAttr == AttrOf(t, c.src)
  }

  // ------------------------------------------------------------------ the rules as a list

  function Truth(b: bool): int { if b then 1 else 0 }

  function SameFamily(a: Candidate, b: Candidate): bool {
    To4(Bytes(a.addr)).Some? == To4(Bytes(b.addr)).Some?
  }

  /** What each rule says, in order: positive for a, negative for b. Rule 9 only speaks within one family. */
  function Rules(a: Candidate, b: Candidate): (r: seq<int>)
    ensures |r| == 6
  {
    if a.src.None? && b.src.None? then [0, 0, 0, 0, 0, 0]
    else [
      Truth(a.src.Some?) - Truth(b.src.Some?),
      Truth(a.addrAttr.scope == a.srcAttr.scope) - Truth(b.addrAttr.scope == b.srcAttr.scope),
      Truth(a.srcAttr.tag == a.addrAttr.tag) - Truth(b.srcAttr.tag == b.addrAttr.tag),
      a.addrAttr.precedence - b.addrAttr.precedence,
      b.addrAttr.scope - a.addrAttr.scope,
      if SameFamily(a, b) then CommonPrefix(Bytes(a.src), Bytes(a.addr)) - CommonPrefix(Bytes(b.src), Bytes(b.addr))
        else 0
    ]
  }

  /** The first of them that is not zero. */
  function Verdict(r: seq<int>): int {
    if r == [] then 0 else if r[0] != 0 then r[0] else Verdict(r[1..])
  }

  /** The first rule that speaks prefers a. */
  predicate Better(a: Candidate, b: Candidate) { Verdict(Rules(a, b)) > 0 }

  // --------------------------------------------------------------------- the sorter

  class ByRFC6724 {
    const addrs: array<Option<IP>>
    const addrAttr: array<Attr>
    const srcs: array<Option<IP>>
    const srcAttr: array<Attr>

    ghost predicate Valid()
      reads this
    {
      addrs.Length == addrAttr.Length == srcs.Length == srcAttr.Length &&
      addrs != srcs && addrAttr != srcAttr
    }

    ghost function Frame(): set<object> { {addrs, addrAttr, srcs, srcAttr} }

    ghost function At(i: nat): Candidate
      requires Valid() && i < addrs.Length
      reads this, Frame()
    {
      Candidate(addrs[i], srcs[i], addrAttr[i], srcAttr[i])
    }

    ghost function Candidates(): (s: seq<Candidate>)
      requires Valid()
      reads this, Frame()
      ensures |s| == addrs.Length && forall i :: 0 <= i < |s| ==> s[i] == At(i)
    {
      seq(addrs.Length, i requires 0 <= i < addrs.Length reads this, Frame() => At(i))
    }

    /** sortByRFC6724withSrcs, up to the call of the sort. */
    constructor (t: seq<Entry>, dsts: seq<Option<IP>>, from: seq<Option<IP>>)
      requires |dsts| == |from|
      ensures Valid() && fresh(Frame()) && addrs[..] == dsts && srcs[..] == from
      ensures forall i :: 0 <= i < addrs.Length ==> Attributed(t, At(i))
    {
      addrs := new Option<IP>[|dsts|](i requires 0 <= i < |dsts| => dsts[i]);
      srcs := new Option<IP>[|from|](i requires 0 <= i < |from| => from[i]);
      addrAttr := new Attr[|dsts|](i => Attr(0, 0, 0));
      srcAttr := new Attr[|from|](i => Attr(0, 0, 0));
      new;
      var i := 0;
      while i < |dsts|
        invariant 0 <= i <= |dsts| && Valid() && fresh(Frame()) && addrs[..] == dsts && srcs[..] == from
        invariant forall j :: 0 <= j < i ==> addrAttr[j] == AttrOf(t, dsts[j]) && srcAttr[j] == AttrOf(t, from[j])
      {
        var d := IpAttrOf(t, dsts[i]);
        var s := IpAttrOf(t, from[i]);
        addrAttr[i] := d;
        srcAttr[i] := s;
        i := i + 1;
      }
      assert forall j :: 0 <= j < |dsts| ==> addrs[..][j] == dsts[j] && srcs[..][j] == from[j];
    }

    method Swap(i: nat, j: nat)
      requires Valid() && i < addrs.Length && j < addrs.Length
      modifies addrs, addrAttr, srcs, srcAttr
      ensures Valid() && Candidates() == old(Candidates())[i := old(At(j))][j := old(At(i))]
      ensures multiset(Candidates()) == multiset(old(Candidates()))
    {
      ghost var was := Candidates();
      addrs[i], addrs[j] := addrs[j], addrs[i];
      srcs[i], srcs[j] := srcs[j], srcs[i];
      addrAttr[i], addrAttr[j] := addrAttr[j], addrAttr[i];
      srcAttr[i], srcAttr[j] := srcAttr[j], srcAttr[i];
      assert Candidates() == was[i := was[j]][j := was[i]];
    }

    method Less(i: nat, j: nat) returns (r: bool)
      requires Valid() && i < addrs.Length && j < addrs.Length
      ensures r <==> Better(At(i), At(j))
    {
      var da, db := addrs[i], addrs[j];
      var sourceDA, sourceDB := srcs[i], srcs[j];
      var attrDA, attrDB := addrAttr[i], addrAttr[j];
      var attrSourceDA, attrSourceDB := srcAttr[i], srcAttr[j];
      ghost var rules := Rules(At(i), At(j));
      SpellOut(rules);

      if sourceDA.None? && sourceDB.None? {
        return false;
      }
      if sourceDB.None? {
        return true;
      }
      if sourceDA.None? {
        return false;
      }
      if attrDA.scope == attrSourceDA.scope && attrDB.scope != attrSourceDB.scope {
        return true;
      }
      if attrDA.scope != attrSourceDA.scope && attrDB.scope == attrSourceDB.scope {
        return false;
      }
      if attrSourceDA.tag == attrDA.tag && attrSourceDB.tag != attrDB.tag {
        return true;
      }
      if attrSourceDA.tag != attrDA.tag && attrSourceDB.tag == attrDB.tag {
        return false;
      }
      if attrDA.precedence > attrDB.precedence {
        return true;
      }
      if attrDA.precedence < attrDB.precedence {
        return false;
      }
      if attrDA.scope < attrDB.scope {
        return true;
      }
      if attrDA.scope > attrDB.scope {
        return false;
      }
      var da4 := To4(Bytes(da)).Some?;
      var db4 := To4(Bytes(db)).Some?;
      if da4 == db4 {
        var commonA := CommonPrefixLen(sourceDA.value, Bytes(da));
        var commonB := CommonPrefixLen(sourceDB.value, Bytes(db));
        if commonA > commonB {
          return true;
        }
        if commonA < commonB {
          return false;
        }
      }
      return false;
    }
  }

  /** ipAttrOf. */
  method IpAttrOf(t: seq<Entry>, ip: Option<IP>) returns (a: Attr)
    ensures a == AttrOf(t, ip)
  {
    if ip.None? {
      return Attr(0, 0, 0);
    }
    var match' := Classify(t, ip.value);
    return Attr(ClassifyScope(ip.value), match'.precedence, match'.tag);
  }

  lemma SpellOut(r: seq<int>)
    requires |r| == 6
    ensures Verdict(r) == if r[0] != 0 then r[0] else if r[1] != 0 then r[1] else if r[2] != 0 then r[2]
                          else if r[3] != 0 then r[3] else if r[4] != 0 then r[4] else r[5]
  {
    var tail := r[1..];
    var tail2 := tail[1..];
    var tail3 := tail2[1..];
    var tail4 := tail3[1..];
    var tail5 := tail4[1..];
    assert Verdict(r) == if r[0] != 0 then r[0] else Verdict(tail);
    assert Verdict(tail) == if r[1] != 0 then r[1] else Verdict(tail2);
    assert Verdict(tail2) == if r[2] != 0 then r[2] else Verdict(tail3);
    assert Verdict(tail3) == if r[3] != 0 then r[3] else Verdict(tail4);
    assert Verdict(tail4) == if r[4] != 0 then r[4] else Verdict(tail5);
    assert Verdict(tail5) == r[5];
  }

  // ------------------------------------------------------------------------ the order

  /** Where a candidate stands by itself, without looking at another. */
  function Key(c: Candidate): (k: seq<int>)
    ensures |k| == 6
  {
    if c.src.None? then [0, 0, 0, 0, 0, 0]
    else [
      1,
      Truth(c.addrAttr.scope == c.srcAttr.scope),
      Truth(c.srcAttr.tag == c.addrAttr.tag),
      c.addrAttr.precedence,
      0 - c.addrAttr.scope as int,
      CommonPrefix(Bytes(c.src), Bytes(c.addr))
    ]
  }

  function Minus(x: seq<int>, y: seq<int>): (r: seq<int>)
    requires |x| == |y|
    ensures |r| == |x|
  {
    seq(|x|, i requires 0 <= i < |x| => x[i] - y[i])
  }

  lemma PrecedenceTellsFamily(t: seq<Entry>, a: Candidate, b: Candidate)
    requires IsPolicyTable(t) && Attributed(t, a) && Attributed(t, b)
    requires a.addrAttr.precedence == b.addrAttr.precedence
    ensures SameFamily(a, b)
  {
    if a.addr.Some? { PrecedenceMarksV4(t, a.addr.value); }
    if b.addr.Some? { PrecedenceMarksV4(t, b.addr.value); }
  }

  /** The rules compare two candidates by their keys, lexicographically: rule 9 is only asked once
      rule 6 has found the precedences equal, and then the families are the same. */
  lemma RulesCompareKeys(t: seq<Entry>, a: Candidate, b: Candidate)
    requires IsPolicyTable(t) && Attributed(t, a) && Attributed(t, b)
    ensures Better(a, b) <==> Verdict(Minus(Key(a), Key(b))) > 0
  {
    SpellOut(Rules(a, b));
    SpellOut(Minus(Key(a), Key(b)));
    if a.addrAttr.precedence == b.addrAttr.precedence { PrecedenceTellsFamily(t, a, b); }
  }

  lemma {:induction false} LexAntisymmetric(x: seq<int>, y: seq<int>)
    requires |x| == |y|
    ensures Verdict(Minus(x, y)) == -Verdict(Minus(y, x))
  {
    if |x| > 0 {
      assert Minus(x, y)[1..] == Minus(x[1..], y[1..]) && Minus(y, x)[1..] == Minus(y[1..], x[1..]);
      LexAntisymmetric(x[1..], y[1..]);
    }
  }

  lemma {:induction false} LexTransitive(x: seq<int>, y: seq<int>, z: seq<int>)
    requires |x| == |y| == |z| && Verdict(Minus(x, y)) >= 0 && Verdict(Minus(y, z)) >= 0
    ensures Verdict(Minus(x, z)) >= 0
    ensures Verdict(Minus(x, z)) == 0 ==> Verdict(Minus(x, y)) == 0 && Verdict(Minus(y, z)) == 0
  {
    if |x| > 0 {
      assert Minus(x, y)[1..] == Minus(x[1..], y[1..]);
      assert Minus(y, z)[1..] == Minus(y[1..], z[1..]);
      assert Minus(x, z)[1..] == Minus(x[1..], z[1..]);
      if x[0] == y[0] == z[0] { LexTransitive(x[1..], y[1..], z[1..]); }
    }
  }

  /** Less is a strict weak order on candidates that carry their own attributes. */
  lemma StrictWeakOrder(t: seq<Entry>, a: Candidate, b: Candidate, c: Candidate)
    requires IsPolicyTable(t) && Attributed(t, a) && Attributed(t, b) && Attributed(t, c)
    ensures !(Better(a, b) && Better(b, a))
    ensures Better(a, b) && Better(b, c) ==> Better(a, c)
    ensures Better(a, c) ==> Better(a, b) || Better(b, c)
  {
    RulesCompareKeys(t, a, b);
    RulesCompareKeys(t, b, a);
    RulesCompareKeys(t, b, c);
    RulesCompareKeys(t, a, c);
    LexAntisymmetric(Key(a), Key(b));
    LexAntisymmetric(Key(b), Key(c));
    LexAntisymmetric(Key(a), Key(c));
    if Better(a, b) && Better(b, c) { LexTransitive(Key(a), Key(b), Key(c)); }
    if !Better(a, b) && !Better(b, c) { LexTransitive(Key(c), Key(b), Key(a)); }
  }

  const FAR: IP := [0x80, 0, 0, 0, 0, 0, 0, 0, 0, 0, 0, 0, 0, 0, 0, 0]

  /** Without the table the rules are no such order: an IPv4 candidate ties with two IPv6 ones
      that do not tie with each other. */
  lemma OrderNeedsTheTable() returns (a: Candidate, b: Candidate, c: Candidate)
    ensures a.addrAttr == b.addrAttr == c.addrAttr && a.srcAttr == b.srcAttr == c.srcAttr
    ensures Better(a, c) && !Better(a, b) && !Better(b, c)
  {
    var far, near := FAR, LOOPBACK;
    var v4: IP := [10, 0, 0, 1];
    var attr := Attr(SCOPE_GLOBAL, 40, 1);
    a := Candidate(Some(near), Some(near), attr, attr);
    b := Candidate(Some(v4), Some(v4), attr, attr);
    c := Candidate(Some(far), Some(near), attr, attr);
    SpellOut(Rules(a, b));
    SpellOut(Rules(b, c));
    SpellOut(Rules(a, c));
    PrefixesOfThree();
  }

  lemma PrefixesOfThree()
    ensures To4(LOOPBACK).None? && To4(FAR).None?
    ensures CommonPrefix(LOOPBACK, LOOPBACK) == 64 && CommonPrefix(LOOPBACK, FAR) == 0
  {
    assert LOOPBACK[11] == 0 && FAR[11] == 0;
    TopBitApart(LOOPBACK[..8], FAR[..8]);
    LeadingIs(LOOPBACK[..8], LOOPBACK[..8], 64);
  }

  lemma TopBitApart(p: IP, q: IP)
    requires |p| == |q| == 8 && p[0] == 0 && q[0] == 0x80
    ensures Leading(p, q, 0) == Leading(q, p, 0) == 0
  {
    ByteRange();
    ZeroBits(7);
    ShlGrows(7, 8);
    RunOfOnes(8, 7, 7);
    assert !Bit(p, 0) && Bit(q, 0);
  }

  /** The 4-byte and the 16-byte form of an IPv4 address are the same to the order. */
  lemma FormIsIrrelevant(t: seq<Entry>, ip: IP)
    requires |ip| == 4
    ensures AttrOf(t, Some(IPv4(ip))) == AttrOf(t, Some(ip))
    ensures forall x: IP ::
      CommonPrefix(x, IPv4(ip)) == CommonPrefix(x, ip) && CommonPrefix(IPv4(ip), x) == CommonPrefix(ip, x)
  {
    assert To4(IPv4(ip)) == Some(ip);
    PickShort(t, IPv4(ip), ip);
  }

  lemma {:induction false} PickShort(t: seq<Entry>, a: IP, b: IP)
    requires Short(a) == Short(b)
    ensures Pick(t, a) == Pick(t, b)
  {
    if t != [] { PickShort(t[1..], a, b); }
  }
}
