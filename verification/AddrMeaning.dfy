/** What the order of src/net/addrselect.go amounts to, told by address prefixes: the policy table of section 2.1, the
    scopes of section 3.1 and the rules of section 6 of RFC 6724. */
module AddrMeaning {
  import opened Search
  import opened IPText
  import opened PackedWord
  import opened AddrSelect
  import opened AddrOrder

  // -------------------------------------------------------------- prefixes and bytes

  /** p begins with these bytes. */
  predicate Starts(p: IP, first: seq<Byte>) { first <= p }

  /** 0:0:0:0:0:ffff:0:0/96, where IPv4 addresses are. */
  predicate InV4(p: IP) { Starts(p, [0, 0, 0, 0, 0, 0, 0, 0, 0, 0, 0xff, 0xff]) }

  /** The bits from n on are the same. */
  predicate SameFrom(x: Byte, y: Byte, n: nat) { forall k :: n <= k < 8 ==> LowBit(x, k) == LowBit(y, k) }

  lemma HighBits(x: Byte, y: Byte, r: nat)
    requires r <= 8
    ensures SameFrom(x, y, 8 - r) <==> AddrSelect.Shr(x, 8 - r) == AddrSelect.Shr(y, 8 - r)
  {
    var n := 8 - r;
    if SameFrom(x, y, n) {
      forall k | 0 <= k < r ensures LowBit(AddrSelect.Shr(x, n), k) == LowBit(AddrSelect.Shr(y, n), k) {
        ShrBit(x, n, k);
        ShrBit(y, n, k);
      }
      ByteRange();
      ShrBounded(x, n, r);
      ShrBounded(y, n, r);
      SameBits(AddrSelect.Shr(x, n), AddrSelect.Shr(y, n), r);
    }
    if AddrSelect.Shr(x, n) == AddrSelect.Shr(y, n) {
      forall k | n <= k < 8 ensures LowBit(x, k) == LowBit(y, k) {
        ShrBit(x, n, k - n);
        ShrBit(y, n, k - n);
      }
    }
  }

  /** The first 8 * l + r bits are the first l bytes and the r high bits of the next one. */
  lemma AgreeOnBytes(p: IP, q: IP, l: nat, r: nat)
    requires |p| == |q| == 16 && r <= 8 && (r > 0 ==> l < 16) && l <= 16
    ensures Agree(p, q, 8 * l + r) <==> p[..l] == q[..l] && (r > 0 ==>
      AddrSelect.Shr(p[l], 8 - r) == AddrSelect.Shr(q[l], 8 - r))
  {
    if r > 0 {
      forall j | 0 <= j < 8
        ensures Bit(p, 8 * l + 7 - j) == LowBit(p[l], j) && Bit(q, 8 * l + 7 - j) == LowBit(q[l], j)
      {
        BitAt(p, l, j);
        BitAt(q, l, j);
      }
      HighBits(p[l], q[l], r);
    }
    if Agree(p, q, 8 * l + r) {
      forall i | 0 <= i < l ensures p[i] == q[i] { AgreeByte(p, q, 8 * l + r, i); }
      forall k | 8 - r <= k < 8 ensures r > 0 ==> LowBit(p[l], k) == LowBit(q[l], k) {
        assert r > 0 ==> Bit(p, 8 * l + 7 - k) == Bit(q, 8 * l + 7 - k);
      }
    }
    if p[..l] == q[..l] && (r > 0 ==> AddrSelect.Shr(p[l], 8 - r) == AddrSelect.Shr(q[l], 8 - r)) {
      SameBytes(p, q, l);
      forall k | 0 <= k < 8 * l + r ensures Bit(p, k) == Bit(q, k) {
        if k >= 8 * l {
          var j := 8 * l + 7 - k;
          assert Bit(p, 8 * l + 7 - j) == LowBit(p[l], j) && LowBit(p[l], j) == LowBit(q[l], j);
        }
      }
    }
  }

  /** The same as ContainsPrefix, for a network given by a number of four bytes. */
  lemma ContainsShort(net: IP, ones: nat, ip: IP)
    requires |net| == 4 && ones <= 32
    ensures Within(IPNet(net, Mask(ones, 4)), ip) <==> To4(ip).Some? && Agree(net, To4(ip).value, ones)
  {
    if To4(ip).Some? {
      var x, m := To4(ip).value, Mask(ones, 4);
      forall k | 0 <= k < 32 ensures AlikeAt(net, x, m, k) <==> (k < ones ==> Bit(net, k) == Bit(x, k)) {
        MaskBits(ones, 4, k);
      }
      if Agree(net, x, ones) {
        assert AllAlike(net, x, m);
      } else {
        var k :| 0 <= k < ones && Bit(net, k) != Bit(x, k);
        assert !AlikeAt(net, x, m, k);
      }
    }
  }

  // ---------------------------------------------------------------- the policy table

  /** Whether an address in its 16-byte form has the k-th prefix of the table in section 2.1 of RFC 6724. */
  predicate HasPrefix(k: nat, p: IP)
    requires k < 9 && |p| == 16
  {
    match k
    case 0 => Starts(p, [0, 0, 0, 0, 0, 0, 0, 0, 0, 0, 0, 0, 0, 0, 0, 1]) // ::1/128
    case 1 => true // ::/0
    case 2 => InV4(p) // ::ffff:0:0/96
    case 3 => Starts(p, [0x20, 0x02]) // 2002::/16
    case 4 => Starts(p, [0x20, 0x01, 0, 0]) // 2001::/32
    case 5 => p[0] / 2 == 0x7e // fc00::/7
    case 6 => Starts(p, [0, 0, 0, 0, 0, 0, 0, 0, 0, 0, 0, 0]) // ::/96
    case 7 => p[0] == 0xfe && p[1] / 0x40 == 3 // fec0::/10
    case 8 => Starts(p, [0x3f, 0xfe]) // 3ffe::/16
  }

  lemma HighestBits(x: Byte)
    ensures AddrSelect.Shr(x, 1) == x / 2 && AddrSelect.Shr(x, 6) == x / 0x40
  {
    assert AddrSelect.Shr(x, 1) == x / 2;
    assert AddrSelect.Shr(x, 2) == x / 2 / 2 == x / 4;
    assert AddrSelect.Shr(x, 3) == x / 4 / 2 == x / 8;
    assert AddrSelect.Shr(x, 4) == x / 8 / 2 == x / 0x10;
    assert AddrSelect.Shr(x, 5) == x / 0x10 / 2 == x / 0x20;
    assert AddrSelect.Shr(x, 6) == x / 0x20 / 2 == x / 0x40;
  }

  /** The rows of whole bytes. */
  lemma BytePrefix(k: nat, ip: IP, first: seq<Byte>)
    requires k < 9 && (|ip| == 4 || |ip| == 16) && PolicyLen(k) == 8 * |first| && first <= PolicyRow(k).prefix.ip
    ensures Matches(k, ip) <==> Starts(Long(ip), first)
  {
    AgreeOnBytes(PolicyRow(k).prefix.ip, Long(ip), |first|, 0);
    assert PolicyRow(k).prefix.ip[..|first|] == first;
  }

  lemma UniqueLocal(ip: IP)
    requires |ip| == 4 || |ip| == 16
    ensures Matches(5, ip) <==> Long(ip)[0] / 2 == 0x7e
  {
    var p, q := PolicyRow(5).prefix.ip, Long(ip);
    AgreeOnBytes(p, q, 0, 7);
    HighestBits(p[0]);
    HighestBits(q[0]);
  }

  lemma SiteLocal(ip: IP)
    requires |ip| == 4 || |ip| == 16
    ensures Matches(7, ip) <==> Long(ip)[0] == 0xfe && Long(ip)[1] / 0x40 == 3
  {
    var p, q := PolicyRow(7).prefix.ip, Long(ip);
    AgreeOnBytes(p, q, 1, 2);
    HighestBits(p[1]);
    HighestBits(q[1]);
    assert p[..1] == [0xfe] && q[..1] == [q[0]];
  }

  lemma RowPrefix(k: nat, ip: IP)
    requires k < 9 && (|ip| == 4 || |ip| == 16)
    ensures Matches(k, ip) <==> HasPrefix(k, Long(ip))
  {
    match k {
      case 0 => BytePrefix(0, ip, [0, 0, 0, 0, 0, 0, 0, 0, 0, 0, 0, 0, 0, 0, 0, 1]);
      case 1 =>
      case 2 => BytePrefix(2, ip, [0, 0, 0, 0, 0, 0, 0, 0, 0, 0, 0xff, 0xff]);
      case 3 => BytePrefix(3, ip, [0x20, 0x02]);
      case 4 => BytePrefix(4, ip, [0x20, 0x01, 0, 0]);
      case 5 => UniqueLocal(ip);
      case 6 => BytePrefix(6, ip, [0, 0, 0, 0, 0, 0, 0, 0, 0, 0, 0, 0]);
      case 7 => SiteLocal(ip);
      case 8 => BytePrefix(8, ip, [0x3f, 0xfe]);
    }
  }

  /** Precedence and label of an address: those of the longest prefix that it has. */
  function Policy(p: IP): (nat, nat)
    requires |p| == 16
  {
    if HasPrefix(0, p) then (50, 0)
    else if HasPrefix(2, p) then (35, 4)
    else if HasPrefix(6, p) then (1, 3)
    else if HasPrefix(4, p) then (5, 5)
    else if HasPrefix(3, p) then (30, 2)
    else if HasPrefix(8, p) then (1, 12)
    else if HasPrefix(7, p) then (1, 11)
    else if HasPrefix(5, p) then (3, 13)
    else (40, 1)
  }

  /** The entry that the sorted table has for an address carries the precedence and the label that the RFC gives its
      longest prefix. */
  lemma PolicyMeaning(t: seq<Entry>, ip: IP)
    requires IsPolicyTable(t) && (|ip| == 4 || |ip| == 16)
    ensures (Pick(t, ip).precedence, Pick(t, ip).tag) == Policy(Long(ip))
  {
    var k := LongestPrefix(t, ip);
    forall j | 0 <= j < 9 ensures Matches(j, ip) <==> HasPrefix(j, Long(ip)) { RowPrefix(j, ip); }
    LongestRow(k, Long(ip));
    RowPolicy(k);
  }

  function Given(k: nat): (nat, nat)
    requires k < 9
  {
    match k
    case 0 => (50, 0)
    case 1 => (40, 1)
    case 2 => (35, 4)
    case 3 => (30, 2)
    case 4 => (5, 5)
    case 5 => (3, 13)
    case 6 => (1, 3)
    case 7 => (1, 11)
    case 8 => (1, 12)
  }

  lemma RowPolicy(k: nat)
    requires k < 9
    ensures (PolicyRow(k).precedence, PolicyRow(k).tag) == Given(k)
  {}

  lemma LongestRow(k: nat, p: IP)
    requires k < 9 && |p| == 16 && HasPrefix(k, p)
    requires forall j :: 0 <= j < 9 && j != k && HasPrefix(j, p) ==> PolicyLen(j) < PolicyLen(k)
    ensures Policy(p) == Given(k)
  {
    assert HasPrefix(1, p);
    assert forall j :: 0 <= j < 9 && HasPrefix(j, p) ==> PolicyLen(j) <= PolicyLen(k);
  }

  // --------------------------------------------------------------------------- scopes

  /** The scope of an address: link-local for loopback and link-local addresses, what the low half of the second byte
      says for IPv6 multicast, site-local for the deprecated site-local addresses, global for all others. */
  function Scope(ip: IP): nat {
    if |ip| == 4 || (|ip| == 16 && InV4(ip)) then
      var q := ip[|ip| - 4..];
      if q[0] == 127 || (q[0] == 169 && q[1] == 254) then 2 else 14 // 127.0.0.0/8, 169.254.0.0/16
    else if |ip| != 16 then 14
    else if Starts(ip, [0, 0, 0, 0, 0, 0, 0, 0, 0, 0, 0, 0, 0, 0, 0, 1]) then 2 // ::1
    else if ip[0] == 0xfe && ip[1] / 0x40 == 2 then 2 // fe80::/10
    else if ip[0] == 0xff then ip[1] % 0x10 // ff00::/8
    else if ip[0] == 0xfe && ip[1] / 0x40 == 3 then 5 // fec0::/10
    else 14
  }

  /** The n low bits of x. */
  function LowBits(x: nat, n: nat): nat { if n == 0 then 0 else 2 * LowBits(x / 2, n - 1) + x % 2 }

  function Ones(n: nat): nat { if n == 0 then 0 else 2 * Ones(n - 1) + 1 }

  function Halved(x: nat, n: nat): nat { if n == 0 then x else Halved(x / 2, n - 1) }

  lemma AndHalf(x: nat, m: nat)
    ensures And(x, 2 * m) == 2 * And(x / 2, m) && And(x, 2 * m + 1) == 2 * And(x / 2, m) + x % 2
  {}

  lemma {:induction false} AndOnes(x: nat, n: nat)
    ensures And(x, Ones(n)) == LowBits(x, n)
  {
    if n > 0 {
      AndOnes(x / 2, n - 1);
      AndHalf(x, Ones(n - 1));
    }
  }

  lemma {:induction false} AndShifted(x: nat, m: nat, n: nat)
    ensures And(x, Shl(m, n)) == Shl(And(Halved(x, n), m), n)
  {
    if n > 0 {
      AndShifted(x / 2, m, n - 1);
      AndHalf(x, Shl(m, n - 1));
    }
  }

  lemma LowTwo(x: nat)
    ensures LowBits(x, 2) == x % 4
  {
    assert LowBits(x, 2) == 2 * LowBits(x / 2, 1) + x % 2 && LowBits(x / 2, 1) == x / 2 % 2;
  }

  lemma LowTwoMore(x: nat, n: nat)
    ensures LowBits(x, n + 2) == 4 * LowBits(x / 4, n) + LowBits(x, 2)
  {
    assert LowBits(x, n + 2) == 2 * LowBits(x / 2, n + 1) + x % 2;
    assert LowBits(x / 2, n + 1) == 2 * LowBits(x / 2 / 2, n) + x / 2 % 2 && x / 2 / 2 == x / 4;
    assert LowBits(x, 2) == 2 * LowBits(x / 2, 1) + x % 2 && LowBits(x / 2, 1) == x / 2 % 2;
  }

  lemma LowFour(x: Byte)
    ensures LowBits(x, 4) == x % 0x10
  {
    LowTwoMore(x, 2);
    LowTwo(x);
    LowTwo(x / 4);
  }

  lemma HalvedTwo(x: nat, n: nat)
    ensures Halved(x, n + 2) == Halved(x / 4, n)
  {
    assert Halved(x, n + 2) == Halved(x / 2, n + 1) == Halved(x / 2 / 2, n) && x / 2 / 2 == x / 4;
  }

  lemma HalvedSix(x: nat)
    ensures Halved(x, 6) == x / 0x40
  {
    HalvedTwo(x, 4);
    HalvedTwo(x / 4, 2);
    HalvedTwo(x / 4 / 4, 0);
    assert x / 4 / 4 == x / 0x10 && x / 0x10 / 4 == x / 0x40;
  }

  lemma HighTwo(x: Byte)
    ensures And(x, 0xc0) == 0x40 * (x / 0x40)
  {
    Shl6(3);
    AndShifted(x, 3, 6);
    HalvedSix(x);
    var y := x / 0x40;
    AndOnes(y, 2);
    LowTwo(y);
    Shl6(And(y, 3));
  }

  lemma Shl6(x: nat)
    ensures Shl(x, 6) == 0x40 * x
  {
    ShlTwice(x, 5, 1);
    Shl5(x);
  }

  lemma LowHalf(x: Byte)
    ensures And(x, 0xf) == x % 0x10
  {
    AndOnes(x, 4);
    LowFour(x);
  }

  lemma V4Form(ip: IP)
    requires |ip| == 16
    ensures InV4(ip) <==> To4(ip).Some?
  {
    if InV4(ip) {
      forall k | 0 <= k < 10 ensures ip[..10][k] == 0 {
        assert ip[k] == [0, 0, 0, 0, 0, 0, 0, 0, 0, 0, 0xff, 0xff][k];
      }
    }
    if To4(ip).Some? {
      MappedBits(ip);
      assert Long(ip) == ip;
    }
  }

  lemma ScopeMeaning(ip: IP)
    ensures ClassifyScope(ip) == Scope(ip)
  {
    if |ip| == 16 {
      V4Form(ip);
      HighTwo(ip[1]);
      LowHalf(ip[1]);
      assert ip == LOOPBACK <==> Starts(ip, LOOPBACK);
    }
  }

  // ---------------------------------------------------------------------------- rules

  predicate SameScope(c: Candidate) { c.addrAttr.scope == c.srcAttr.scope }

  predicate SameLabel(c: Candidate) { c.addrAttr.tag == c.srcAttr.tag }

  /** Up to rule 2, 5, 6 or 8 the two candidates are alike. */
  predicate AlikeUpTo(rule: nat, a: Candidate, b: Candidate) {
    && a.src.Some? && b.src.Some?
    && (rule >= 2 ==> SameScope(a) == SameScope(b))
    && (rule >= 5 ==> SameLabel(a) == SameLabel(b))
    && (rule >= 6 ==> a.addrAttr.precedence == b.addrAttr.precedence)
    && (rule >= 8 ==> a.addrAttr.scope == b.addrAttr.scope)
  }

  /** a is preferred, and b is not. */
  predicate Preferred(a: Candidate, b: Candidate) { Better(a, b) && !Better(b, a) }

  /** Which way the rules point: of two candidates that are alike up to a rule, the one is preferred that has a source
      address (1), one of the scope of its destination (2), one of the same label (5), the higher precedence (6), the
      smaller scope (8) or, in one family, the longer prefix in common (9). If no rule speaks, none is preferred. */
  lemma RulesPoint(a: Candidate, b: Candidate)
    ensures a.src.Some? && b.src.None? ==> Preferred(a, b)
    ensures AlikeUpTo(1, a, b) && SameScope(a) && !SameScope(b) ==> Preferred(a, b)
    ensures AlikeUpTo(2, a, b) && SameLabel(a) && !SameLabel(b) ==> Preferred(a, b)
    ensures AlikeUpTo(5, a, b) && a.addrAttr.precedence > b.addrAttr.precedence ==> Preferred(a, b)
    ensures AlikeUpTo(6, a, b) && a.addrAttr.scope < b.addrAttr.scope ==> Preferred(a, b)
    ensures var m, n := CommonPrefix(Bytes(a.src), Bytes(a.addr)), CommonPrefix(Bytes(b.src), Bytes(b.addr));
      var alike := AlikeUpTo(8, a, b) && To4(Bytes(a.addr)).Some? == To4(Bytes(b.addr)).Some?;
      && (alike && m > n ==> Preferred(a, b))
      && ((a.src.None? && b.src.None?) || (AlikeUpTo(8, a, b) && (alike ==> m == n)) ==> !Better(a, b) && !Better(b, a))
  {
    SpellOut(Rules(a, b));
    SpellOut(Rules(b, a));
  }
}
