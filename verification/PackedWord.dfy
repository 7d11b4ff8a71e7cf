/** The packed 64-bit word of fdMutex (src/net/fd_mutex.go:18-35) and what each operation
    computes from it, bit operation by bit operation. */
module PackedWord {

  // ------------------------------------------------------------- bit operations

  function And(x: nat, y: nat): nat {
    if x == 0 || y == 0 then 0
    else 2 * And(x / 2, y / 2) + if x % 2 == 1 && y % 2 == 1 then 1 else 0
  }

  function Or(x: nat, y: nat): nat {
    if x == 0 then y else if y == 0 then x
    else 2 * Or(x / 2, y / 2) + if x % 2 == 1 || y % 2 == 1 then 1 else 0
  }

  /** x &^ y: the bits of x that y has not. */
  function AndNot(x: nat, y: nat): nat {
    if x == 0 then 0
    else 2 * AndNot(x / 2, y / 2) + if x % 2 == 1 && y % 2 == 0 then 1 else 0
  }

  const WORD := 0x1_0000_0000_0000_0000

  function Plus(x: nat, y: nat): nat { (x + y) % WORD }

  function Minus(x: nat, y: nat): nat { (x - y) % WORD }

  lemma {:induction false} AndAtMost(x: nat, y: nat)
    ensures And(x, y) <= x
  {
    if x != 0 && y != 0 { AndAtMost(x / 2, y / 2); }
  }

  lemma {:induction false} OrDisjoint(x: nat, y: nat)
    requires And(x, y) == 0
    ensures Or(x, y) == x + y
  {
    if x != 0 && y != 0 { OrDisjoint(x / 2, y / 2); }
  }

  lemma {:induction false} OrCovered(x: nat, y: nat)
    requires And(x, y) == y
    ensures Or(x, y) == x
  {
    if x != 0 && y != 0 {
      AndAtMost(x / 2, y / 2);
      OrCovered(x / 2, y / 2);
    }
  }

  lemma {:induction false} AndNotTakes(x: nat, y: nat)
    ensures AndNot(x, y) == x - And(x, y)
  {
    if x != 0 { AndNotTakes(x / 2, y / 2); }
  }

  /** x << n, without losing bits. */
  function Shl(x: nat, n: nat): nat { if n == 0 then x else 2 * Shl(x, n - 1) }

  lemma {:induction false} ShlTwice(x: nat, m: nat, n: nat)
    ensures Shl(x, m + n) == Shl(Shl(x, m), n)
  {
    if n > 0 { ShlTwice(x, m, n - 1); }
  }

  lemma Shl20(x: nat)
    ensures Shl(x, 3) == 8 * x && Shl(x, 20) == 0x10_0000 * x && Shl(x, 40) == 0x100_0000_0000 * x
  {
    Shl5(x);
    ShlTwice(x, 5, 5);
    Shl5(32 * x);
    ShlTwice(x, 10, 10);
    Shl10(Shl(x, 10));
    ShlTwice(x, 20, 20);
    Shl10(Shl(x, 20));
    ShlTwice(Shl(x, 20), 10, 10);
    Shl10(Shl(Shl(x, 20), 10));
  }

  lemma Shl10(x: nat)
    ensures Shl(x, 10) == 1024 * x
  {
    ShlTwice(x, 5, 5);
    Shl5(x);
    Shl5(32 * x);
  }

  lemma Shl5(x: nat)
    ensures Shl(x, 5) == 32 * x && Shl(x, 3) == 8 * x
  {
    assert Shl(x, 1) == 2 * x;
    assert Shl(x, 2) == 4 * x;
    assert Shl(x, 3) == 8 * x;
    assert Shl(x, 4) == 16 * x;
  }

  /** A mask of the n lowest bits selects what is below 2^n. */
  lemma {:induction false} AndLow(lo: nat, hi: nat, n: nat)
    requires lo < Shl(1, n)
    ensures And(lo + Shl(hi, n), Shl(1, n) - 1) == lo
    decreases n
  {
    if n > 0 {
      Halve(lo, Shl(hi, n - 1));
      Halve(1, Shl(1, n - 1) - 1);
      AndLow(lo / 2, hi, n - 1);
    } else {
      assert Shl(1, 0) - 1 == 0;
    }
  }

  /** A mask above the n lowest bits does not see them. */
  lemma {:induction false} AndHigh(lo: nat, hi: nat, mask: nat, n: nat)
    requires lo < Shl(1, n)
    ensures And(lo + Shl(hi, n), Shl(mask, n)) == Shl(And(hi, mask), n)
    decreases n
  {
    if n > 0 {
      AndHigh(lo / 2, hi, mask, n - 1);
      AndEven(lo, Shl(hi, n - 1), Shl(mask, n - 1));
    }
  }

  lemma Halve(lo: nat, half: nat)
    ensures (lo + 2 * half) / 2 == lo / 2 + half && (lo + 2 * half) % 2 == lo % 2
  {}

  lemma AndEven(lo: nat, a: nat, b: nat)
    ensures And(lo + 2 * a, 2 * b) == 2 * And(lo / 2 + a, b)
  {
    Halve(lo, a);
    Halve(0, b);
  }

  // ------------------------------------------------------------------ the fields

  const MUTEX_CLOSED := 1
  const MUTEX_RLOCK := 2
  const MUTEX_WLOCK := 4
  const LIMIT := 0x10_0000
  const MUTEX_REF := 8
  const MUTEX_REF_MASK := (LIMIT - 1) * MUTEX_REF
  const MUTEX_RWAIT := 0x80_0000
  const MUTEX_RMASK := (LIMIT - 1) * MUTEX_RWAIT
  const MUTEX_WWAIT := 0x800_0000_0000
  const MUTEX_WMASK := (LIMIT - 1) * MUTEX_WWAIT

  datatype Fields = Fields(closed: bool, rlock: bool, wlock: bool, refs: nat, rwait: nat, wwait: nat) {
    predicate InRange() { refs < LIMIT && rwait < LIMIT && wwait < LIMIT }

    predicate Locked(read: bool) { if read then rlock else wlock }

    function Waiting(read: bool): nat { if read then rwait else wwait }

    function SetLock(read: bool, on: bool): Fields { if read then this.(rlock := on) else this.(wlock := on) }

    function SetWait(read: bool, n: nat): Fields { if read then this.(rwait := n) else this.(wwait := n) }
  }

  function B(b: bool): nat { if b then 1 else 0 }

  function Pack(f: Fields): nat {
    B(f.closed) + 2 * B(f.rlock) + 4 * B(f.wlock) + MUTEX_REF * f.refs + MUTEX_RWAIT * f.rwait + MUTEX_WWAIT * f.wwait
  }

  lemma MaskLow(f: Fields)
    requires f.InRange()
    ensures And(Pack(f), MUTEX_CLOSED) == B(f.closed)
    ensures And(Pack(f), MUTEX_RLOCK) == 2 * B(f.rlock)
    ensures And(Pack(f), MUTEX_WLOCK) == 4 * B(f.wlock)
  {
    var c, r, w := B(f.closed), B(f.rlock), B(f.wlock);
    var rest := f.refs + LIMIT * f.rwait + LIMIT * LIMIT * f.wwait;
    assert Pack(f) == c + 2 * (r + 2 * (w + 2 * rest));
    AndBit(c, r + 2 * (w + 2 * rest));
    AndEven(c, r + 2 * (w + 2 * rest), 1);
    AndBit(r, w + 2 * rest);
    AndEven(c, r + 2 * (w + 2 * rest), 2);
    AndEven(r, w + 2 * rest, 1);
    AndBit(w, rest);
  }

  lemma AndBit(b: nat, rest: nat)
    requires b < 2
    ensures And(b + 2 * rest, 1) == b
  {
    Halve(b, rest);
    AndZero(rest, 0);
  }

  lemma AndZero(x: nat, y: nat)
    requires x == 0 || y == 0
    ensures And(x, y) == 0
  {}

  /** A field of 20 bits, n bits up. */
  lemma AndField(lo: nat, x: nat, rest: nat, n: nat)
    requires lo < Shl(1, n) && x < LIMIT
    ensures And(lo + Shl(x + LIMIT * rest, n), Shl(LIMIT - 1, n)) == Shl(x, n)
  {
    Shl20(1);
    Shl20(rest);
    AndLow(x, rest, 20);
    AndHigh(lo, x + LIMIT * rest, LIMIT - 1, n);
  }

  lemma Shl23(x: nat)
    ensures Shl(x, 23) == MUTEX_RWAIT * x && Shl(x, 43) == MUTEX_WWAIT * x
  {
    ShlTwice(x, 20, 3);
    ShlTwice(x, 40, 3);
    Shl20(x);
    Shl5(Shl(x, 20));
    Shl5(Shl(x, 40));
  }

  function Low23(f: Fields): nat { B(f.closed) + 2 * B(f.rlock) + 4 * B(f.wlock) + MUTEX_REF * f.refs }

  lemma MaskRef(f: Fields)
    requires f.InRange()
    ensures And(Pack(f), MUTEX_REF_MASK) == MUTEX_REF * f.refs
  {
    var lo, rest := B(f.closed) + 2 * B(f.rlock) + 4 * B(f.wlock), f.rwait + LIMIT * f.wwait;
    Shl5(1);
    Shl5(f.refs + LIMIT * rest);
    Shl5(LIMIT - 1);
    Shl5(f.refs);
    AndField(lo, f.refs, rest, 3);
  }

  lemma MaskReaders(f: Fields)
    requires f.InRange()
    ensures And(Pack(f), MUTEX_RMASK) == MUTEX_RWAIT * f.rwait
  {
    Shl23(1);
    Shl23(f.rwait + LIMIT * f.wwait);
    Shl23(LIMIT - 1);
    Shl23(f.rwait);
    AndField(Low23(f), f.rwait, f.wwait, 23);
  }

  lemma MaskWriters(f: Fields)
    requires f.InRange()
    ensures And(Pack(f), MUTEX_WMASK) == MUTEX_WWAIT * f.wwait
  {
    Shl23(1);
    Shl23(f.wwait);
    Shl23(LIMIT - 1);
    AndField(Low23(f) + MUTEX_RWAIT * f.rwait, f.wwait, 0, 43);
  }

  lemma MaskWaiters(f: Fields)
    requires f.InRange()
    ensures And(Pack(f), Or(MUTEX_RMASK, MUTEX_WMASK)) == MUTEX_RWAIT * f.rwait + MUTEX_WWAIT * f.wwait
  {
    var hi, all := f.rwait + LIMIT * f.wwait, LIMIT * LIMIT - 1;
    MaskWriters(Fields(false, false, false, 0, LIMIT - 1, 0));
    OrDisjoint(MUTEX_RMASK, MUTEX_WMASK);
    assert Or(MUTEX_RMASK, MUTEX_WMASK) == MUTEX_RWAIT * all;
    Shl20(1);
    Shl20(0);
    AndLow(hi, 0, 40);
    Shl23(hi);
    Shl23(1);
    Shl23(all);
    AndHigh(Low23(f), hi, all, 23);
  }
}
