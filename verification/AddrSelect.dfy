/** Choosing among destination addresses (src/net/addrselect.go) and the networks of
    src/net/ip.go:432-471 that it looks addresses up in. */
module AddrSelect {
  import opened Search
  import opened IPText
  import opened PackedWord

  // ---------------------------------------------------------------------------- bits

  /** Bit k of x, counted from the least significant one. */
  predicate LowBit(x: nat, k: nat) { if k == 0 then x % 2 == 1 else LowBit(x / 2, k - 1) }

  lemma {:induction false} ZeroBits(k: nat)
    ensures !LowBit(0, k)
  {
    if k > 0 { ZeroBits(k - 1); }
  }

  lemma {:induction false} AndBit(x: nat, y: nat, k: nat)
    ensures LowBit(And(x, y), k) <==> LowBit(x, k) && LowBit(y, k)
  {
    if x == 0 || y == 0 {
      ZeroBits(k);
    } else if k > 0 {
      AndBit(x / 2, y / 2, k - 1);
    }
  }

  lemma {:induction false} SameBits(x: nat, y: nat, n: nat)
    requires x < Shl(1, n) && y < Shl(1, n)
    requires forall k :: 0 <= k < n ==> LowBit(x, k) == LowBit(y, k)
    ensures x == y
  {
    if n > 0 {
      assert LowBit(x, 0) == LowBit(y, 0);
      forall k | 0 <= k < n - 1 ensures LowBit(x / 2, k) == LowBit(y / 2, k) {
        assert LowBit(x, k + 1) == LowBit(y, k + 1);
      }
      SameBits(x / 2, y / 2, n - 1);
    }
  }

  lemma ByteRange()
    ensures Shl(1, 8) == 256
  {
    ShlTwice(1, 5, 3);
    Shl5(1);
    Shl5(32);
  }

  /** The two bytes agree on every bit of the mask. */
  predicate AlikeUnder(x: Byte, y: Byte, m: Byte) {
    forall k :: 0 <= k < 8 && LowBit(m, k) ==> LowBit(x, k) == LowBit(y, k)
  }

  /** A mask hides the difference of two bytes iff they agree on every bit it selects. */
  lemma MaskedAlike(x: Byte, y: Byte, m: Byte)
    ensures And(x, m) == And(y, m) <==> AlikeUnder(x, y, m)
  {
    if And(x, m) == And(y, m) {
      forall k | 0 <= k < 8 && LowBit(m, k) ensures LowBit(x, k) == LowBit(y, k) {
        AndBit(x, m, k);
        AndBit(y, m, k);
      }
    }
    if AlikeUnder(x, y, m) { MaskedEqual(x, y, m); }
  }

  lemma MaskedEqual(x: Byte, y: Byte, m: Byte)
    requires AlikeUnder(x, y, m)
    ensures And(x, m) == And(y, m)
  {
    AndAtMost(x, m);
    AndAtMost(y, m);
    ByteRange();
    forall k | 0 <= k < 8 ensures LowBit(And(x, m), k) == LowBit(And(y, m), k) {
      AndBit(x, m, k);
      AndBit(y, m, k);
    }
    SameBits(And(x, m), And(y, m), 8);
  }

  /** Bit k of an address, counted from the most significant bit of its first byte. */
  predicate Bit(p: seq<Byte>, k: nat)
    requires k < 8 * |p|
  {
    LowBit(p[k / 8], 7 - k % 8)
  }

  /** The first n bits are the same. */
  predicate Agree(p: seq<Byte>, q: seq<Byte>, n: nat)
    requires n <= 8 * |p| && n <= 8 * |q|
  {
    forall k :: 0 <= k < n ==> Bit(p, k) == Bit(q, k)
  }

  /** The number of leading bits that p and q share, from bit n on. */
  function Leading(p: seq<Byte>, q: seq<Byte>, n: nat): (r: nat)
    requires |p| == |q| && n <= 8 * |p|
    ensures n <= r <= 8 * |p|
    ensures forall k :: n <= k < r ==> Bit(p, k) == Bit(q, k)
    ensures r < 8 * |p| ==> Bit(p, r) != Bit(q, r)
    decreases 8 * |p| - n
  {
    if n == 8 * |p| || Bit(p, n) != Bit(q, n) then n else Leading(p, q, n + 1)
  }

  // --------------------------------------------------------------------------- masks

  lemma {:induction false} ShlGrows(m: nat, n: nat)
    requires m <= n
    ensures 1 <= Shl(1, m) <= Shl(1, n)
  {
    if m > 0 { ShlGrows(m - 1, n - 1); } else if n > 0 { ShlGrows(0, n - 1); }
  }

  /** The byte of n one bits followed by zeros. */
  function MaskByte(n: int): Byte {
    ByteRange();
    if n <= 0 then 0 else if n >= 8 then 0xff else ShlGrows(8 - n, 8); Shl(1, 8) - Shl(1, 8 - n)
  }

  lemma {:induction false} RunOfOnes(a: nat, b: nat, k: nat)
    requires k < a && b <= a && Shl(1, b) <= Shl(1, a)
    ensures LowBit(Shl(1, a) - Shl(1, b), k) <==> b <= k
    decreases a
  {
    if b == 0 {
      assert (Shl(1, a) - 1) / 2 == Shl(1, a - 1) - 1;
      if k > 0 { ShlGrows(0, a - 1); RunOfOnes(a - 1, 0, k - 1); }
    } else {
      assert Shl(1, a) - Shl(1, b) == 2 * (Shl(1, a - 1) - Shl(1, b - 1));
      if k > 0 { RunOfOnes(a - 1, b - 1, k - 1); }
    }
  }

  /** A mask of that many one bits over l bytes. */
  function Mask(ones: nat, l: nat): (m: seq<Byte>)
    ensures |m| == l
  {
    seq(l, i requires 0 <= i < l => MaskByte(ones - 8 * i))
  }

  lemma MaskByteBits(n: int, k: nat)
    requires k < 8
    ensures LowBit(MaskByte(n), 7 - k) <==> k < n
  {
    ByteRange();
    if n <= 0 {
      ZeroBits(7 - k);
    } else {
      var zeros := if n >= 8 then 0 else 8 - n;
      ShlGrows(zeros, 8);
      RunOfOnes(8, zeros, 7 - k);
    }
  }

  lemma MaskBits(ones: nat, l: nat, k: nat)
    requires k < 8 * l
    ensures Bit(Mask(ones, l), k) <==> k < ones
  {
    MaskByteBits(ones - 8 * (k / 8), k % 8);
  }

  function AllOnes(l: nat): (m: seq<Byte>)
    ensures |m| == l
  {
    seq(l, i => 0xff)
  }

  /** The number of leading one bits. */
  function Ones(m: seq<Byte>): nat { Leading(m, AllOnes(|m|), 0) }

  lemma OnesOfMask(ones: nat, l: nat)
    requires ones <= 8 * l
    ensures Ones(Mask(ones, l)) == ones
  {
    var m := Mask(ones, l);
    forall k | 0 <= k < 8 * l ensures Bit(AllOnes(l), k) && (Bit(m, k) <==> k < ones) {
      MaskByteBits(8, k % 8);
      MaskBits(ones, l, k);
    }
    LeadingIs(m, AllOnes(l), ones);
  }

  lemma LeadingIs(p: seq<Byte>, q: seq<Byte>, n: nat)
    requires |p| == |q| && n <= 8 * |p| && Agree(p, q, n) && (n < 8 * |p| ==> Bit(p, n) != Bit(q, n))
    ensures Leading(p, q, 0) == n
  {
    var r := Leading(p, q, 0);
    var least := if r < n then r else n;
    assert least < 8 * |p| ==> (Bit(p, least) == Bit(q, least) <==> least < r);
  }

  /** ip.go: CIDRMask. */
  method CIDRMask(ones: int, bits: int) returns (r: Option<seq<Byte>>)
    ensures r.Some? <==> (bits == 32 || bits == 128) && 0 <= ones <= bits
    ensures r.Some? ==> r.value == Mask(ones, bits / 8)
    ensures r.Some? ==> forall k :: 0 <= k < bits ==> (Bit(r.value, k) <==> k < ones)
  {
    if bits != 32 && bits != 128 {
      return None;
    }
    if ones < 0 || ones > bits {
      return None;
    }
    var l := bits / 8;
    var m: seq<Byte> := [];
    var n := ones;
    var i := 0;
    while i < l
      invariant 0 <= i <= l && |m| == i && 0 <= n
      invariant n == if ones >= 8 * i then ones - 8 * i else 0
      invariant forall j :: 0 <= j < i ==> m[j] == MaskByte(ones - 8 * j)
    {
      if n >= 8 {
        m := m + [0xff];
        n := n - 8;
      } else {
        var rest := 0xff;
        var shift := 0;
        ByteRange();
        while shift < n
          invariant 0 <= shift <= n && rest == Shl(1, 8 - shift) - 1
        {
          rest, shift := rest / 2, shift + 1;
        }
        ShlGrows(8 - n, 8);
        m := m + [0xff - rest];
        n := 0;
      }
      i := i + 1;
    }
    assert m == Mask(ones, l);
    forall k | 0 <= k < bits ensures Bit(m, k) <==> k < ones { MaskBits(ones, l, k); }
    return Some(m);
  }

  /** v loses its leading one bit when it is shifted. */
  lemma ShiftsOut(v: Byte, c: nat)
    requires 0x80 <= v && 1 <= c <= 8
    ensures v == MaskByte(c) <==> 2 * v - 0x100 == MaskByte(c - 1)
  {
    ByteRange();
    assert Shl(1, 9 - c) == 2 * Shl(1, 8 - c);
  }

  lemma LeadingOne(c: nat)
    requires 1 <= c <= 8
    ensures MaskByte(c) >= 0x80
  {
    ByteRange();
    ShlGrows(8 - c, 7);
  }

  /** b is a mask of n + c ones iff what is left of it after n shifts is a mask of c ones. */
  ghost predicate Shifted(b: Byte, v: Byte, n: nat, c: nat) { b == MaskByte(n + c) <==> v == MaskByte(c) }

  lemma NoEighthOne(b: Byte, v: Byte)
    requires b != 0xff && 0x80 <= v && Shifted(b, v, 7, 1)
    ensures 0x100 - Shl(1, 7) < v
  {
    ByteRange();
  }

  /** Counts the one bits that a byte starts with; the byte is a mask byte iff nothing is left. */
  method CountOnes(b: Byte) returns (n: nat, left: bool)
    requires b != 0xff
    ensures n < 8
    ensures !left ==> b == MaskByte(n)
    ensures left ==> forall c :: 0 <= c < 8 ==> b != MaskByte(c)
  {
    n := 0;
    var v: Byte := b;
    ByteRange();
    while v >= 0x80
      invariant n <= 7 && v <= 0x100 - Shl(1, n)
      invariant forall c :: 0 <= c < n ==> b != MaskByte(c)
      invariant forall c :: 0 <= c <= 8 - n ==> Shifted(b, v, n, c)
      decreases v
    {
      assert Shifted(b, v, n, 0) && Shifted(b, v, n, 8 - n);
      if n == 7 { NoEighthOne(b, v); }
      var w: Byte := 2 * v - 0x100;
      ghost var n' := n + 1;
      forall c | 0 <= c <= 7 - n ensures Shifted(b, w, n', c) {
        ShiftsOut(v, c + 1);
        assert Shifted(b, v, n, c + 1);
      }
      n, v := n + 1, w;
    }
    assert Shifted(b, v, n, 0);
    left := v != 0;
    if left {
      forall c | n <= c < 8 ensures b != MaskByte(c) {
        assert Shifted(b, v, n, c - n);
        if c > n { LeadingOne(c - n); }
      }
    }
  }

  /** simpleMaskLength: the number of one bits, or -1 when the ones are not all in front. */
  method SimpleMaskLength(mask: seq<Byte>) returns (n: int)
    ensures -1 <= n <= 8 * |mask|
    ensures n >= 0 ==> mask == Mask(n, |mask|)
    ensures n == -1 ==> forall ones: nat :: mask != Mask(ones, |mask|)
  {
    n := 0;
    var i := 0;
    while i < |mask| && mask[i] == 0xff
      invariant 0 <= i <= |mask| && n == 8 * i
      invariant forall j :: 0 <= j < i ==> mask[j] == 0xff
    {
      n, i := n + 8, i + 1;
    }
    if i == |mask| {
      assert mask == Mask(n, |mask|);
      return;
    }
    var ones, left := CountOnes(mask[i]);
    n := n + ones;
    if left {
      assert mask[i] != MaskByte(0);
      forall k: nat ensures mask != Mask(k, |mask|) { assert Mask(k, |mask|)[i] == MaskByte(k - 8 * i); }
      return -1;
    }
    ghost var partial := i;
    i := i + 1;
    while i < |mask|
      invariant partial < i <= |mask| && n < 8 * partial + 8
      invariant forall j :: 0 <= j < i ==> mask[j] == MaskByte(n - 8 * j)
    {
      if mask[i] != 0 {
        forall k: nat ensures mask != Mask(k, |mask|) {
          assert Mask(k, |mask|)[i] == MaskByte(k - 8 * i);
          assert Mask(k, |mask|)[partial] == MaskByte(k - 8 * partial);
        }
        return -1;
      }
      i := i + 1;
    }
    assert mask == Mask(n, |mask|);
  }

  /** IPMask.Size. */
  method Size(m: seq<Byte>) returns (ones: int, bits: int)
    ensures forall k :: 0 <= k <= 8 * |m| && m == Mask(k, |m|) ==> (ones, bits) == (k, 8 * |m|)
    ensures (forall k: nat :: m != Mask(k, |m|)) ==> (ones, bits) == (0, 0)
  {
    ones := SimpleMaskLength(m);
    bits := 8 * |m|;
    if ones == -1 {
      return 0, 0;
    }
    OnesOfMask(ones, |m|);
    forall k | 0 <= k <= 8 * |m| && m == Mask(k, |m|) ensures k == ones { OnesOfMask(k, |m|); }
  }

  /** Size undoes CIDRMask. */
  method MaskRoundTrip(ones: int, bits: int) returns (r: (int, int))
    requires (bits == 32 || bits == 128) && 0 <= ones <= bits
    ensures r == (ones, bits)
  {
    var m := CIDRMask(ones, bits);
    var o, b := Size(m.value);
    r := (o, b);
  }

  // ------------------------------------------------------------------------ networks

  datatype IPNet = IPNet(ip: IP, mask: seq<Byte>)

  /** The shorter of the two forms of an address. */
  function Short(ip: IP): IP { if To4(ip).Some? then To4(ip).value else ip }

  /** networkNumberAndMask, with empty slices for nil. */
  function NetworkNumberAndMask(n: IPNet): (r: (IP, seq<Byte>))
    ensures |r.0| == |r.1|
  {
    var ip := Short(n.ip);
    if |ip| != 4 && |ip| != 16 then ([], [])
    else if |n.mask| == |ip| then (ip, n.mask)
    else if |n.mask| == 16 then (ip, n.mask[12..])
    else ([], [])
  }

  /** The three agree on bit k: the mask hides it, or it is the same in both. */
  ghost predicate AlikeAt(nn: seq<Byte>, x: seq<Byte>, m: seq<Byte>, k: nat)
    requires |nn| == |x| == |m| && k < 8 * |x|
  {
    Bit(m, k) ==> Bit(nn, k) == Bit(x, k)
  }

  ghost predicate AllAlike(nn: seq<Byte>, x: seq<Byte>, m: seq<Byte>)
    requires |nn| == |x| == |m|
  {
    forall k :: 0 <= k < 8 * |x| ==> AlikeAt(nn, x, m, k)
  }

  /** The address, in its short form, agrees with the network on every bit of the mask. */
  ghost predicate Within(n: IPNet, ip: IP) {
    var (nn, m) := NetworkNumberAndMask(n);
    var x := Short(ip);
    |x| == |nn| && AllAlike(nn, x, m)
  }

  lemma BitAt(p: seq<Byte>, i: nat, j: nat)
    requires i < |p| && j < 8
    ensures Bit(p, 8 * i + 7 - j) == LowBit(p[i], j)
  {
    assert (8 * i + (7 - j)) / 8 == i && (8 * i + (7 - j)) % 8 == 7 - j;
  }

  lemma BitsOfByte(nn: seq<Byte>, x: seq<Byte>, m: seq<Byte>, i: nat, k: nat)
    requires |nn| == |x| == |m| && i < |x| && 8 * i <= k < 8 * i + 8 && AlikeUnder(nn[i], x[i], m[i])
    ensures AlikeAt(nn, x, m, k)
  {
    assert k / 8 == i;
  }

  lemma ByteOfBits(nn: seq<Byte>, x: seq<Byte>, m: seq<Byte>, i: nat)
    requires |nn| == |x| == |m| && i < |x| && forall k :: 8 * i <= k < 8 * i + 8 ==> AlikeAt(nn, x, m, k)
    ensures AlikeUnder(nn[i], x[i], m[i])
  {
    forall j | 0 <= j < 8 && LowBit(m[i], j) ensures LowBit(nn[i], j) == LowBit(x[i], j) {
      BitAt(nn, i, j);
      BitAt(x, i, j);
      BitAt(m, i, j);
      assert AlikeAt(nn, x, m, 8 * i + 7 - j);
    }
  }

  /** IPNet.Contains. */
  method Contains(n: IPNet, ip: IP) returns (r: bool)
    ensures r <==> Within(n, ip)
  {
    var (nn, m) := NetworkNumberAndMask(n);
    var x := Short(ip);
    var l := |x|;
    if l != |nn| {
      return false;
    }
    var i := 0;
    while i < l
      invariant 0 <= i <= l
      invariant forall k :: 0 <= k < 8 * i ==> AlikeAt(nn, x, m, k)
    {
      MaskedAlike(nn[i], x[i], m[i]);
      if And(nn[i], m[i]) != And(x[i], m[i]) {
        if Within(n, ip) { ByteOfBits(nn, x, m, i); }
        return false;
      }
      forall k | 8 * i <= k < 8 * i + 8 ensures AlikeAt(nn, x, m, k) { BitsOfByte(nn, x, m, i, k); }
      i := i + 1;
    }
    return true;
  }

  /** The 16-byte form, for addresses that have one. */
  function Long(ip: IP): (r: IP)
    requires |ip| == 4 || |ip| == 16
    ensures |r| == 16
  {
    if |ip| == 4 then IPv4(ip) else ip
  }

  lemma ShortIsTail(ip: IP)
    requires |ip| == 4 || |ip| == 16
    ensures |Short(ip)| == (if To4(ip).Some? then 4 else 16) && Short(ip) == Long(ip)[16 - |Short(ip)|..]
  {}

  lemma TailBit(q: seq<Byte>, l: nat, k: nat)
    requires |q| == 16 && l <= 16 && k < 8 * l
    ensures Bit(q[16 - l..], k) == Bit(q, k + 128 - 8 * l)
  {
    assert (k + 128 - 8 * l) / 8 == k / 8 + (16 - l) && (k + 128 - 8 * l) % 8 == k % 8;
  }

  /** The bits in front of an IPv4 address in its 16-byte form. */
  lemma MappedBits(ip: IP)
    requires |ip| == 4 || (|ip| == 16 && To4(ip).Some?)
    ensures Long(ip)[..12] == [0, 0, 0, 0, 0, 0, 0, 0, 0, 0, 0xff, 0xff]
  {}

  lemma SameBytes(p: IP, q: IP, l: nat)
    requires |p| == |q| == 16 && l <= 16 && p[..l] == q[..l]
    ensures Agree(p, q, 8 * l)
  {
    forall k | 0 <= k < 8 * l ensures Bit(p, k) == Bit(q, k) {
      assert p[..l][k / 8] == q[..l][k / 8];
    }
  }

  lemma TailAlike(net: IP, x: IP, ones: nat, l: nat, k: nat)
    requires |net| == |x| == 16 && l <= 16 && 128 - 8 * l <= k < 128
    ensures AlikeAt(net[16 - l..], x[16 - l..], Mask(ones, 16)[16 - l..], k - (128 - 8 * l)) <==>
            (k < ones ==> Bit(net, k) == Bit(x, k))
  {
    TailBit(net, l, k - (128 - 8 * l));
    TailBit(x, l, k - (128 - 8 * l));
    TailBit(Mask(ones, 16), l, k - (128 - 8 * l));
    MaskBits(ones, 16, k);
  }

  lemma TailsAgree(net: IP, x: IP, ones: nat, l: nat)
    requires |net| == |x| == 16 && l <= 16 && ones <= 128 && Agree(net, x, 128 - 8 * l)
    ensures AllAlike(net[16 - l..], x[16 - l..], Mask(ones, 16)[16 - l..]) <==> Agree(net, x, ones)
  {
    var nn, y, m := net[16 - l..], x[16 - l..], Mask(ones, 16)[16 - l..];
    if Agree(net, x, ones) {
      forall k | 0 <= k < 8 * l ensures AlikeAt(nn, y, m, k) { TailAlike(net, x, ones, l, k + (128 - 8 * l)); }
    }
    if AllAlike(nn, y, m) {
      forall k | 0 <= k < ones ensures Bit(net, k) == Bit(x, k) {
        if k >= 128 - 8 * l { TailAlike(net, x, ones, l, k); }
      }
    }
  }

  lemma FamilyAgrees(net: IP, ip: IP)
    requires |net| == 16 && (|ip| == 4 || |ip| == 16) && To4(net).Some? == To4(ip).Some?
    ensures |Short(net)| == |Short(ip)| <= 16 && Agree(net, Long(ip), 128 - 8 * |Short(ip)|)
  {
    ShortIsTail(net);
    ShortIsTail(ip);
    if To4(net).Some? {
      MappedBits(net);
      MappedBits(ip);
      SameBytes(net, Long(ip), 12);
    }
  }

  lemma NumberAndMask(net: IP, ones: nat)
    requires |net| == 16
    ensures NetworkNumberAndMask(IPNet(net, Mask(ones, 16))) == (Short(net), Mask(ones, 16)[16 - |Short(net)|..])
  {}

  lemma WithinFamily(net: IP, ones: nat, ip: IP)
    requires |net| == 16 && ones <= 128 && (|ip| == 4 || |ip| == 16) && To4(net).Some? == To4(ip).Some?
    ensures Within(IPNet(net, Mask(ones, 16)), ip) <==> Agree(net, Long(ip), ones)
  {
    FamilyAgrees(net, ip);
    var l := |Short(ip)|;
    TailsAgree(net, Long(ip), ones, l);
    NumberAndMask(net, ones);
    ShortIsTail(net);
    ShortIsTail(ip);
  }

  /** A network given by its 16-byte number and prefix length holds the addresses of its own
      family whose 16-byte form starts with that prefix. */
  lemma ContainsPrefix(net: IP, ones: nat, ip: IP)
    requires |net| == 16 && ones <= 128 && (|ip| == 4 || |ip| == 16)
    ensures Within(IPNet(net, Mask(ones, 16)), ip) <==>
            (To4(net).Some? == To4(ip).Some? && Agree(net, Long(ip), ones))
  {
    if To4(net).Some? == To4(ip).Some? {
      WithinFamily(net, ones, ip);
    } else {
      NumberAndMask(net, ones);
      ShortIsTail(net);
      ShortIsTail(ip);
    }
  }

  // ---------------------------------------------------------------- the policy table

  datatype Entry = Entry(prefix: IPNet, precedence: nat, tag: nat)

  const NO_ENTRY := Entry(IPNet([], []), 0, 0)

  function Zeros(l: nat): (p: seq<Byte>)
    ensures |p| == l
  {
    seq(l, i => 0)
  }

  /** A row for the network whose number starts with these bytes. */
  function Row(first: seq<Byte>, ones: nat, precedence: nat, tag: nat): Entry
    requires |first| <= 16
  {
    Entry(IPNet(first + Zeros(16 - |first|), Mask(ones, 16)), precedence, tag)
  }

  const V4_PREFIX: IP := [0, 0, 0, 0, 0, 0, 0, 0, 0, 0, 0xff, 0xff]
  const LOOPBACK: IP := [0, 0, 0, 0, 0, 0, 0, 0, 0, 0, 0, 0, 0, 0, 0, 1]

  /** The nine rows, in the order the source lists them. */
  function PolicyRow(k: nat): Entry
    requires k < 9
  {
    match k
    case 0 => Row(LOOPBACK, 128, 50, 0)
    case 1 => Row([], 0, 40, 1)
    case 2 => Row(V4_PREFIX, 96, 35, 4)
    case 3 => Row([0x20, 0x02], 16, 30, 2)
    case 4 => Row([0x20, 0x01], 32, 5, 5)
    case 5 => Row([0xfc], 7, 3, 13)
    case 6 => Row([], 96, 1, 3)
    case 7 => Row([0xfe, 0xc0], 10, 1, 11)
    case 8 => Row([0x3f, 0xfe], 16, 1, 12)
  }

  function PrefixLen(e: Entry): nat { Ones(e.prefix.mask) }

  /** The table after sorting: every row, the longest masks first. */
  ghost predicate IsPolicyTable(t: seq<Entry>) {
    (forall i :: 0 <= i < |t| ==> IsRow(t[i])) &&
    (forall k :: 0 <= k < 9 ==> PolicyRow(k) in t) &&
    ByMaskLength(t)
  }

  ghost predicate IsRow(e: Entry) { exists k :: 0 <= k < 9 && e == PolicyRow(k) }

  ghost predicate ByMaskLength(t: seq<Entry>) {
    forall i, j :: 0 <= i < j < |t| ==> PrefixLen(t[i]) >= PrefixLen(t[j])
  }

  /** The first entry of the table that holds the address. */
  ghost function Pick(t: seq<Entry>, ip: IP): Entry {
    if t == [] then NO_ENTRY else if Within(t[0].prefix, ip) then t[0] else Pick(t[1..], ip)
  }

  /** policyTable.Classify. */
  method Classify(t: seq<Entry>, ip: IP) returns (e: Entry)
    ensures e == Pick(t, ip)
  {
    var i := 0;
    while i < |t|
      invariant 0 <= i <= |t| && Pick(t, ip) == Pick(t[i..], ip)
    {
      var inside := Contains(t[i].prefix, ip);
      if inside {
        return t[i];
      }
      assert t[i..][1..] == t[i + 1..];
      i := i + 1;
    }
    return NO_ENTRY;
  }

  lemma {:induction false} PickIsFirst(t: seq<Entry>, ip: IP)
    ensures Pick(t, ip) == NO_ENTRY || (Pick(t, ip) in t && Within(Pick(t, ip).prefix, ip))
    ensures ByMaskLength(t) ==>
              forall e :: e in t && Within(e.prefix, ip) ==> Pick(t, ip) in t && PrefixLen(e) <= PrefixLen(Pick(t, ip))
  {
    if t != [] && !Within(t[0].prefix, ip) {
      PickIsFirst(t[1..], ip);
      if ByMaskLength(t) {
        assert ByMaskLength(t[1..]);
        assert forall e :: e in t ==> e == t[0] || e in t[1..];
      }
    }
  }

  /** The prefix of a row is a prefix of the address in its 16-byte form (section 2.1 of RFC 6724). */
  ghost predicate Matches(k: nat, ip: IP)
    requires k < 9 && (|ip| == 4 || |ip| == 16)
  {
    Agree(PolicyRow(k).prefix.ip, Long(ip), PolicyLen(k))
  }

  function PolicyLen(k: nat): (n: nat)
    requires k < 9
    ensures n <= 128
  {
    match k
    case 0 => 128
    case 1 => 0
    case 2 => 96
    case 3 => 16
    case 4 => 32
    case 5 => 7
    case 6 => 96
    case 7 => 10
    case 8 => 16
  }

  lemma RowFacts(k: nat)
    requires k < 9
    ensures |PolicyRow(k).prefix.ip| == 16
    ensures PolicyRow(k).prefix.mask == Mask(PolicyLen(k), 16)
    ensures PrefixLen(PolicyRow(k)) == PolicyLen(k)
  {
    OnesOfMask(PolicyLen(k), 16);
  }

  lemma RowFamily(k: nat)
    requires k < 9
    ensures To4(PolicyRow(k).prefix.ip).Some? <==> k == 2
  {
    var p := PolicyRow(k).prefix.ip;
    assert |p| == 16;
    if k == 2 {
      assert IsZeros(p[..10]);
    } else {
      assert p[11] != 0xff;
    }
  }

  lemma AgreeByte(p: IP, q: IP, n: nat, i: nat)
    requires |p| == |q| == 16 && 8 * i + 8 <= n <= 128 && Agree(p, q, n)
    ensures p[i] == q[i]
  {
    ByteRange();
    forall j | 0 <= j < 8 ensures LowBit(p[i], j) == LowBit(q[i], j) {
      BitAt(p, i, j);
      BitAt(q, i, j);
      assert Bit(p, 8 * i + 7 - j) == Bit(q, 8 * i + 7 - j);
    }
    SameBits(p[i], q[i], 8);
  }

  /** Of the rows, only the two for every address and for IPv4 match an IPv4 address. */
  lemma MatchesV4(k: nat, ip: IP)
    requires k < 9 && (|ip| == 4 || |ip| == 16) && To4(ip).Some?
    ensures Matches(k, ip) <==> k == 1 || k == 2
  {
    var p, q := PolicyRow(k).prefix.ip, Long(ip);
    MappedBits(ip);
    assert q[..12][0] == 0 && q[..12][10] == 0xff;
    if k == 2 {
      assert p[..12] == q[..12];
      SameBytes(p, q, 12);
    } else if k == 5 {
      FirstBit(p, q);
    } else if k != 1 && Matches(k, ip) {
      AgreeByte(p, q, PolicyLen(k), if k == 0 || k == 6 then 10 else 0);
    }
  }

  lemma FirstBit(p: IP, q: IP)
    requires |p| == |q| == 16 && p[0] == 0xfc && q[0] == 0
    ensures Bit(p, 0) != Bit(q, 0)
  {
    ZeroBits(7);
    ByteRange();
    assert Shl(1, 2) == 4;
    RunOfOnes(8, 2, 7);
  }

  /** The family test of Contains only takes the row ::/0 away from IPv4 addresses. */
  lemma HoldsIffMatches(k: nat, ip: IP)
    requires k < 9 && (|ip| == 4 || |ip| == 16)
    ensures Within(PolicyRow(k).prefix, ip) <==> Matches(k, ip) && !(k == 1 && To4(ip).Some?)
  {
    RowFacts(k);
    RowFamily(k);
    ContainsPrefix(PolicyRow(k).prefix.ip, PolicyLen(k), ip);
    if To4(ip).Some? {
      MatchesV4(k, ip);
    } else if k == 2 && Matches(k, ip) {
      NotMapped(ip);
    }
  }

  lemma NotMapped(ip: IP)
    requires |ip| == 16 && Matches(2, ip)
    ensures To4(ip).Some?
  {
    var p := PolicyRow(2).prefix.ip;
    forall i | 0 <= i < 12 ensures ip[i] == p[i] { AgreeByte(p, ip, 96, i); }
    assert IsZeros(ip[..10]);
  }

  /** Two rows of one length do not match the same address. */
  lemma OneRowPerLength(j: nat, k: nat, ip: IP)
    requires j < 9 && k < 9 && (|ip| == 4 || |ip| == 16) && Matches(j, ip) && Matches(k, ip)
    requires PolicyLen(j) == PolicyLen(k)
    ensures j == k
  {
    if j < k {
      DifferentRows(j, k, ip);
    } else if k < j {
      DifferentRows(k, j, ip);
    }
  }

  lemma DifferentRows(j: nat, k: nat, ip: IP)
    requires j < k < 9 && (|ip| == 4 || |ip| == 16) && PolicyLen(j) == PolicyLen(k)
    ensures !Matches(j, ip) || !Matches(k, ip)
  {
    assert (j, k) == (2, 6) || (j, k) == (3, 8);
    var i := if j == 2 then 10 else 0;
    assert PolicyRow(j).prefix.ip[i] != PolicyRow(k).prefix.ip[i];
    if Matches(j, ip) && Matches(k, ip) {
      AgreeByte(PolicyRow(j).prefix.ip, Long(ip), PolicyLen(j), i);
      AgreeByte(PolicyRow(k).prefix.ip, Long(ip), PolicyLen(k), i);
    }
  }

  /** Section 2.1 of RFC 6724: Classify answers the row with the longest matching prefix, which
      is unique, so the order among rows of one length does not matter. */
  lemma LongestPrefix(t: seq<Entry>, ip: IP) returns (k: nat)
    requires IsPolicyTable(t) && (|ip| == 4 || |ip| == 16)
    ensures k < 9 && Pick(t, ip) == PolicyRow(k) && Matches(k, ip)
    ensures forall j :: 0 <= j < 9 && j != k && Matches(j, ip) ==> PolicyLen(j) < PolicyLen(k)
  {
    PickIsFirst(t, ip);
    var always := if To4(ip).Some? then 2 else 1;
    assert Within(PolicyRow(always).prefix, ip) by {
      HoldsIffMatches(always, ip);
      if always == 2 { MatchesV4(2, ip); }
    }
    assert PolicyRow(always) in t;
    var e := Pick(t, ip);
    var i :| 0 <= i < |t| && t[i] == e;
    assert IsRow(t[i]);
    k :| 0 <= k < 9 && e == PolicyRow(k);
    RowFacts(k);
    assert Within(e.prefix, ip) by {
      if e == NO_ENTRY { RowFacts(k); }
    }
    HoldsIffMatches(k, ip);
    forall j | 0 <= j < 9 && j != k && Matches(j, ip) ensures PolicyLen(j) < PolicyLen(k) {
      HoldsIffMatches(j, ip);
      RowFacts(j);
      if PolicyLen(j) == PolicyLen(k) { OneRowPerLength(j, k, ip); }
      if j == 1 && To4(ip).Some? {
        MatchesV4(k, ip);
      } else {
        assert PolicyRow(j) in t;
      }
    }
  }

  /** Anything but 4 or 16 bytes is in no network. */
  lemma {:induction false} OddLengths(t: seq<Entry>, ip: IP)
    requires (forall e :: e in t ==> IsRow(e)) && |ip| != 4 && |ip| != 16
    ensures Pick(t, ip) == NO_ENTRY
  {
    if t != [] {
      assert t[0] in t;
      var k :| 0 <= k < 9 && t[0] == PolicyRow(k);
      RowFacts(k);
      OddLengths(t[1..], ip);
    }
  }

  lemma RowOfPrecedence35(k: nat)
    requires k < 9
    ensures PolicyRow(k).precedence == 35 <==> k == 2
  {}

  /** Precedence 35 marks exactly the IPv4 addresses. */
  lemma PrecedenceMarksV4(t: seq<Entry>, ip: IP)
    requires IsPolicyTable(t)
    ensures Pick(t, ip).precedence == 35 <==> To4(ip).Some?
  {
    if |ip| == 4 || |ip| == 16 {
      var k := LongestPrefix(t, ip);
      RowOfPrecedence35(k);
      if To4(ip).Some? {
        MatchesV4(2, ip);
        MatchesV4(k, ip);
        assert Matches(2, ip);
      } else if k == 2 {
        NotMapped(ip);
      }
    } else {
      OddLengths(t, ip);
    }
  }

  // ------------------------------------------------------------------------- scopes

  const SCOPE_LINK_LOCAL := 0x2
  const SCOPE_SITE_LOCAL := 0x5
  const SCOPE_GLOBAL := 0xe

  function Equal(ip: IP, x: IP): bool {
    if |ip| == |x| then ip == x
    else if |ip| == 4 && |x| == 16 then x[..12] == V4_PREFIX && ip == x[12..]
    else if |ip| == 16 && |x| == 4 then ip[..12] == V4_PREFIX && ip[12..] == x
    else false
  }

  predicate IsLoopback(ip: IP) {
    if To4(ip).Some? then To4(ip).value[0] == 127 else Equal(ip, LOOPBACK)
  }

  predicate IsMulticast(ip: IP) {
    if To4(ip).Some? then And(To4(ip).value[0], 0xf0) == 0xe0 else |ip| == 16 && ip[0] == 0xff
  }

  predicate IsLinkLocalUnicast(ip: IP) {
    if To4(ip).Some? then To4(ip).value[0] == 169 && To4(ip).value[1] == 254
    else |ip| == 16 && ip[0] == 0xfe && And(ip[1], 0xc0) == 0x80
  }

  /** classifyScope. */
  function ClassifyScope(ip: IP): nat {
    if IsLoopback(ip) || IsLinkLocalUnicast(ip) then SCOPE_LINK_LOCAL
    else
      var ipv6 := |ip| == 16 && To4(ip).None?;
      if ipv6 && IsMulticast(ip) then And(ip[1], 0xf)
      else if ipv6 && ip[0] == 0xfe && And(ip[1], 0xc0) == 0xc0 then SCOPE_SITE_LOCAL
      else SCOPE_GLOBAL
  }

  // ------------------------------------------------------------- common prefix length

  function Cut(p: IP): IP { if |p| > 8 then p[..8] else p }

  /** The number of leading bits two addresses of one family share, counting no more than 64. */
  function CommonPrefix(a: IP, b: IP): (n: nat)
    ensures |Short(a)| != |Short(b)| ==> n == 0
    ensures |Short(a)| == 4 ==> n <= 32
    ensures n <= 64
  {
    var p, q := Short(a), Short(b);
    if |p| != |q| then 0 else Leading(Cut(p), Cut(q), 0)
  }

  function Shr(x: nat, n: nat): nat { if n == 0 then x else Shr(x, n - 1) / 2 }

  lemma {:induction false} ShrBit(x: nat, n: nat, k: nat)
    ensures LowBit(Shr(x, n), k) == LowBit(x, n + k)
  {
    if n > 0 {
      ShrBit(x, n - 1, k + 1);
      assert LowBit(Shr(x, n - 1), k + 1) == LowBit(Shr(x, n - 1) / 2, k);
    }
  }

  lemma {:induction false} ShrBounded(x: nat, n: nat, m: nat)
    requires x < Shl(1, n + m)
    ensures Shr(x, n) < Shl(1, m)
  {
    if n > 0 { ShrBounded(x, n - 1, m + 1); }
  }

  /** One more shift makes them equal: they differ in bit n and agree above it. */
  lemma EqualAbove(x: Byte, y: Byte, n: nat)
    requires n < 8 && Shr(x, n) != Shr(y, n) && Shr(x, n) / 2 == Shr(y, n) / 2
    ensures LowBit(x, n) != LowBit(y, n)
    ensures forall k :: n < k < 8 ==> LowBit(x, k) == LowBit(y, k)
  {
    ShrBit(x, n, 0);
    ShrBit(y, n, 0);
    forall k | n < k < 8 ensures LowBit(x, k) == LowBit(y, k) {
      ShrBit(x, n + 1, k - (n + 1));
      ShrBit(y, n + 1, k - (n + 1));
    }
  }

  lemma ShiftedOut(x: Byte)
    ensures Shr(x, 8) == 0
  {
    ByteRange();
    ShrBounded(x, 8, 0);
  }

  /** Shifting two different bytes until they are equal counts their common leading bits. */
  method CommonBits(x: Byte, y: Byte) returns (bits: nat)
    requires x != y
    ensures bits < 8
    ensures forall k :: 7 - bits < k < 8 ==> LowBit(x, k) == LowBit(y, k)
    ensures LowBit(x, 7 - bits) != LowBit(y, 7 - bits)
  {
    bits := 8;
    var ab: nat, bb: nat := x, y;
    ShiftedOut(x);
    ShiftedOut(y);
    while true
      invariant 0 < bits <= 8 && ab == Shr(x, 8 - bits) && bb == Shr(y, 8 - bits) && ab != bb
      decreases bits
    {
      ab, bb, bits := ab / 2, bb / 2, bits - 1;
      if ab == bb {
        EqualAbove(x, y, 7 - bits);
        return;
      }
    }
  }

  /** commonPrefixLen. */
  method CommonPrefixLen(a: IP, b: IP) returns (cpl: nat)
    ensures cpl == CommonPrefix(a, b)
  {
    cpl := 0;
    var p, q := Short(a), Short(b);
    if |p| != |q| {
      return 0;
    }
    if |p| > 8 {
      p, q := p[..8], q[..8];
    }
    ghost var p0, q0 := p, q;
    ghost var i := 0;
    while |p| > 0
      invariant 0 <= i <= |p0| == |q0| && |p| == |q| == |p0| - i && cpl == 8 * i
      invariant p == p0[i..] && q == q0[i..]
      invariant Agree(p0, q0, 8 * i)
      decreases |p|
    {
      assert p[0] == p0[i] && q[0] == q0[i];
      if p[0] == q[0] {
        NextByte(p0, q0, i);
        cpl, p, q, i := cpl + 8, p[1..], q[1..], i + 1;
      } else {
        var bits := CommonBits(p[0], q[0]);
        FirstDifference(p0, q0, i, bits);
        LeadingIs(p0, q0, 8 * i + bits);
        cpl := cpl + bits;
        return;
      }
    }
    LeadingIs(p0, q0, cpl);
  }

  lemma NextByte(p: IP, q: IP, i: nat)
    requires |p| == |q| && i < |p| && Agree(p, q, 8 * i) && p[i] == q[i]
    ensures Agree(p, q, 8 * i + 8)
  {
    forall k | 8 * i <= k < 8 * i + 8 ensures Bit(p, k) == Bit(q, k) { assert k / 8 == i; }
  }

  lemma FirstDifference(p: IP, q: IP, i: nat, bits: nat)
    requires |p| == |q| && i < |p| && Agree(p, q, 8 * i) && bits < 8
    requires forall k :: 7 - bits < k < 8 ==> LowBit(p[i], k) == LowBit(q[i], k)
    requires LowBit(p[i], 7 - bits) != LowBit(q[i], 7 - bits)
    ensures Agree(p, q, 8 * i + bits) && Bit(p, 8 * i + bits) != Bit(q, 8 * i + bits)
  {
    BitAt(p, i, 7 - bits);
    BitAt(q, i, 7 - bits);
    forall k | 8 * i <= k < 8 * i + bits ensures Bit(p, k) == Bit(q, k) {
      assert k / 8 == i && k % 8 == k - 8 * i;
    }
  }

}
