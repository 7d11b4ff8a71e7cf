/** The visited table of the backtracker: one bit for every (pc, pos), in 32-bit words
    (src/regexp/backtrack.go:103-114). */
module BitTable {
  import opened RegexpProg

  const VISITED_BITS := 32

  /** 1 << k. */
  function Mask(k: nat): bv32
    requires k < VISITED_BITS
  {
    if k == 0 then 1 else Mask(k - 1) << 1
  }

  lemma MaskTop()
    ensures Mask(31) == 0x8000_0000
  {
    assert Mask(2) == 4; assert Mask(4) == 16; assert Mask(6) == 64; assert Mask(8) == 0x100;
    assert Mask(10) == 0x400; assert Mask(12) == 0x1000; assert Mask(14) == 0x4000; assert Mask(16) == 0x10000;
    assert Mask(18) == 0x4_0000; assert Mask(20) == 0x10_0000;
    assert Mask(22) == 0x40_0000; assert Mask(24) == 0x100_0000;
    assert Mask(26) == 0x400_0000; assert Mask(28) == 0x1000_0000; assert Mask(30) == 0x4000_0000;
  }

  lemma {:induction false} MaskNonzero(k: nat)
    requires k < VISITED_BITS
    ensures Mask(k) != 0
  {
    MaskTop();
    if Mask(k) == 0 { MaskStaysZero(k, 31); }
  }

  lemma {:induction false} MaskStaysZero(k: nat, m: nat)
    requires k <= m < VISITED_BITS && Mask(k) == 0
    ensures Mask(m) == 0
  {
    if k < m { MaskStaysZero(k, m - 1); }
  }

  lemma {:induction false} MasksDisjoint(i: nat, j: nat)
    requires i < j < VISITED_BITS
    ensures Mask(i) & Mask(j) == 0
  {
    if i > 0 {
      MasksDisjoint(i - 1, j - 1);
      ShiftBoth(Mask(i - 1), Mask(j - 1));
    } else {
      ShiftedIsEven(Mask(j - 1));
    }
  }

  lemma ShiftBoth(x: bv32, y: bv32)
    ensures (x << 1) & (y << 1) == (x & y) << 1
  {}

  lemma ShiftedIsEven(x: bv32)
    ensures 1 & (x << 1) == 0
  {}

  predicate Meets(w: bv32, mask: bv32) { w & mask != 0 }

  function Join(w: bv32, mask: bv32): bv32 { w | mask }

  predicate Bit(words: seq<bv32>, n: nat) {
    n / VISITED_BITS < |words| && Meets(words[n / VISITED_BITS], Mask(n % VISITED_BITS))
  }

  lemma MasksDistinct(i: nat, j: nat)
    requires i < VISITED_BITS && j < VISITED_BITS
    ensures Mask(i) != 0 && (i != j ==> Mask(i) & Mask(j) == 0)
  {
    MaskNonzero(i);
    if i < j { MasksDisjoint(i, j); }
    if j < i { MasksDisjoint(j, i); }
  }

  lemma JoinMeets(w: bv32, a: bv32)
    requires a != 0
    ensures Meets(Join(w, a), a)
  {
    OrSame(w, a);
  }

  lemma OrSame(w: bv32, a: bv32)
    ensures (w | a) & a == a
  {}

  lemma JoinKeeps(w: bv32, a: bv32, b: bv32)
    requires a & b == 0
    ensures Meets(Join(w, a), b) <==> Meets(w, b)
  {
    OrDisjoint(w, a, b);
  }

  lemma OrDisjoint(w: bv32, a: bv32, b: bv32)
    requires a & b == 0
    ensures (w | a) & b == w & b
  {}

  lemma SetBit(w: bv32, i: nat, j: nat)
    requires i < VISITED_BITS && j < VISITED_BITS
    ensures Meets(Join(w, Mask(i)), Mask(j)) <==> i == j || Meets(w, Mask(j))
  {
    MasksDistinct(i, j);
    if i == j { JoinMeets(w, Mask(i)); } else { JoinKeeps(w, Mask(i), Mask(j)); }
  }

  lemma NoBit(w: bv32, k: nat)
    requires w == 0 && k < VISITED_BITS
    ensures !Meets(w, Mask(k))
  {
    AndZero(Mask(k));
  }

  lemma AndZero(a: bv32)
    ensures 0 & a == 0
  {}

  /** words with bit n set. */
  function WithBit(words: seq<bv32>, n: nat): seq<bv32>
    requires n / VISITED_BITS < |words|
  {
    words[n / VISITED_BITS := Join(words[n / VISITED_BITS], Mask(n % VISITED_BITS))]
  }

  lemma SetBitAt(words: seq<bv32>, n: nat, m: nat)
    requires n / VISITED_BITS < |words|
    ensures Bit(WithBit(words, n), m) <==> m == n || Bit(words, m)
  {
    if m / VISITED_BITS == n / VISITED_BITS { SetBit(words[n / VISITED_BITS], n % VISITED_BITS, m % VISITED_BITS); }
  }

  /** pc rows of width bits each. */
  function Rows(pc: nat, width: nat): nat { if pc == 0 then 0 else Rows(pc - 1, width) + width }

  lemma {:induction false} RowsProduct(pc: nat, width: nat)
    ensures Rows(pc, width) == pc * width
  {
    if pc > 0 { RowsProduct(pc - 1, width); }
  }

  lemma {:induction false} RowsApart(a: nat, b: nat, width: nat)
    requires a < b
    ensures Rows(a, width) + width <= Rows(b, width)
  {
    if a < b - 1 { RowsApart(a, b - 1, width); }
  }

  /** There are as many configurations as bits. */
  lemma {:induction false} TableSize(n: nat, end: nat)
    ensures |Table(n, end)| == Rows(n, end + 1)
  {
    if n > 0 {
      TableSize(n - 1, end);
      TableRange(n - 1, end);
      RowMembers(n - 1, end);
      UnionSize(Row(n - 1, end), Table(n - 1, end));
    }
  }

  lemma UnionSize(a: set<Config>, b: set<Config>)
    requires forall c :: c in a ==> c !in b
    ensures |a + b| == |a| + |b|
  {
    assert a !! b;
  }

  /** The place of (pc, pos) in the bit vector. */
  function BitIndex(end: nat, c: Config): nat { Rows(c.pc, end + 1) + c.pos }

  lemma BitIndexInjective(end: nat, c: Config, d: Config)
    requires c.pos <= end && d.pos <= end && BitIndex(end, c) == BitIndex(end, d)
    ensures c == d
  {
    if c.pc < d.pc { RowsApart(c.pc, d.pc, end + 1); }
    if d.pc < c.pc { RowsApart(d.pc, c.pc, end + 1); }
  }

  lemma BitIndexInRange(n: nat, end: nat, c: Config)
    requires c.pc < n && c.pos <= end
    ensures BitIndex(end, c) < Rows(n, end + 1)
  {
    RowsApart(c.pc, n, end + 1);
  }

  /** How many words hold n rows of end + 1 bits. */
  function VisitedSize(n: nat, end: nat): nat { (n * (end + 1) + VISITED_BITS - 1) / VISITED_BITS }

  predicate BitOf(words: seq<bv32>, end: nat, c: Config) { Bit(words, BitIndex(end, c)) }

  /** Setting the bit of c sets no other configuration's bit. */
  lemma SetBitOf(words: seq<bv32>, n: nat, end: nat, c: Config)
    requires VisitedSize(n, end) <= |words| && c.pc < n && c.pos <= end
    ensures BitIndex(end, c) / VISITED_BITS < |words|
    ensures forall d: Config {:trigger BitOf(WithBit(words, BitIndex(end, c)), end, d)} :: d.pos <= end ==>
      (BitOf(WithBit(words, BitIndex(end, c)), end, d) <==> d == c || BitOf(words, end, d))
  {
    BitIndexInRange(n, end, c);
    RowsProduct(n, end + 1);
    var i := BitIndex(end, c);
    forall d: Config | d.pos <= end ensures BitOf(WithBit(words, i), end, d) <==> d == c || BitOf(words, end, d) {
      SetBitAt(words, i, BitIndex(end, d));
      if BitIndex(end, d) == i { BitIndexInjective(end, d, c); }
    }
  }
}
