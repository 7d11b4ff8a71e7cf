/** fdMutex (src/net/fd_mutex.go) as a state machine: goroutines that acquire and release an fd
    concurrently, interleaved at every atomic load, compare-and-swap and semaphore operation. */
module FdMutex {
  import opened PackedWord

  // --------------------------------------------- one turn of each retry loop

  /** What a loop body computes from the word it has loaded: give up, panic, or try to swap in a new word. */
  datatype Attempt = Refuse | Inconsistent | Swap(next: nat)

  function TryIncref(was: nat): Attempt {
    if And(was, MUTEX_CLOSED) != 0 then Refuse
    else
      var next := Plus(was, MUTEX_REF);
      if And(next, MUTEX_REF_MASK) == 0 then Inconsistent else Swap(next)
  }

  function TryIncrefAndClose(was: nat): Attempt {
    if And(was, MUTEX_CLOSED) != 0 then Refuse
    else
      var next := Plus(Or(was, MUTEX_CLOSED), MUTEX_REF);
      if And(next, MUTEX_REF_MASK) == 0 then Inconsistent
      else Swap(AndNot(next, Or(MUTEX_RMASK, MUTEX_WMASK)))
  }

  function TryDecref(was: nat): Attempt {
    if And(was, MUTEX_REF_MASK) == 0 then Inconsistent else Swap(Minus(was, MUTEX_REF))
  }

  function LockBit(read: bool): nat { if read then MUTEX_RLOCK else MUTEX_WLOCK }
  function WaitUnit(read: bool): nat { if read then MUTEX_RWAIT else MUTEX_WWAIT }
  function WaitMask(read: bool): nat { if read then MUTEX_RMASK else MUTEX_WMASK }

  function TryLock(read: bool, was: nat): Attempt {
    if And(was, MUTEX_CLOSED) != 0 then Refuse
    else if And(was, LockBit(read)) == 0 then
      var next := Plus(Or(was, LockBit(read)), MUTEX_REF);
      if And(next, MUTEX_REF_MASK) == 0 then Inconsistent else Swap(next)
    else
      var next := Plus(was, WaitUnit(read));
      if And(next, WaitMask(read)) == 0 then Inconsistent else Swap(next)
  }

  function TryUnlock(read: bool, was: nat): Attempt {
    if And(was, LockBit(read)) == 0 || And(was, MUTEX_REF_MASK) == 0 then Inconsistent
    else
      var next := Minus(AndNot(was, LockBit(read)), MUTEX_REF);
      Swap(if And(was, WaitMask(read)) != 0 then Minus(next, WaitUnit(read)) else next)
  }

  /** Whether the word says: closed, and no reference left. */
  predicate IsLast(next: nat) { And(next, Or(MUTEX_CLOSED, MUTEX_REF_MASK)) == MUTEX_CLOSED }

  // ------------------------------------- the fields never carry into each other

  lemma RefOverflow(f: Fields)
    requires f.InRange()
    ensures Plus(Pack(f), MUTEX_REF) == Pack(f) + MUTEX_REF
    ensures And(Pack(f) + MUTEX_REF, MUTEX_REF_MASK) == 0 <==> f.refs == LIMIT - 1
  {
    if f.refs < LIMIT - 1 {
      MaskRef(f.(refs := f.refs + 1));
    } else {
      var lo, rest := B(f.closed) + 2 * B(f.rlock) + 4 * B(f.wlock), f.rwait + LIMIT * f.wwait + 1;
      Shl5(1);
      Shl5(LIMIT * rest);
      Shl5(LIMIT - 1);
      Shl5(0);
      AndField(lo, 0, rest, 3);
    }
  }

  /** On packed fields Incref adds a reference to an open fd, refuses a closed one, and panics
      exactly when the count is full. */
  lemma IncrefFields(f: Fields)
    requires f.InRange()
    ensures TryIncref(Pack(f)) ==
      if f.closed then Refuse else if f.refs == LIMIT - 1 then Inconsistent else Swap(Pack(f.(refs := f.refs + 1)))
  {
    MaskLow(f);
    RefOverflow(f);
  }

  lemma CloseFields(f: Fields)
    requires f.InRange()
    ensures TryIncrefAndClose(Pack(f)) ==
      if f.closed then Refuse else if f.refs == LIMIT - 1 then Inconsistent
      else Swap(Pack(f.(closed := true, refs := f.refs + 1, rwait := 0, wwait := 0)))
  {
    MaskLow(f);
    if !f.closed {
      OrDisjoint(Pack(f), MUTEX_CLOSED);
      var g := f.(closed := true);
      assert Pack(g) == Pack(f) + MUTEX_CLOSED;
      RefOverflow(g);
      if f.refs < LIMIT - 1 {
        MaskWaiters(g.(refs := f.refs + 1));
        AndNotTakes(Pack(g.(refs := f.refs + 1)), Or(MUTEX_RMASK, MUTEX_WMASK));
      }
    }
  }

  lemma DecrefFields(f: Fields)
    requires f.InRange()
    ensures TryDecref(Pack(f)) == if f.refs == 0 then Inconsistent else Swap(Pack(f.(refs := f.refs - 1)))
  {
    MaskRef(f);
  }

  lemma MaskLock(f: Fields, read: bool)
    requires f.InRange()
    ensures And(Pack(f), LockBit(read)) == if f.Locked(read) then LockBit(read) else 0
    ensures And(Pack(f), WaitMask(read)) == WaitUnit(read) * f.Waiting(read)
  {
    MaskLow(f);
    MaskReaders(f);
    MaskWriters(f);
  }

  lemma ReadersOverflow(f: Fields)
    requires f.InRange()
    ensures Pack(f) + MUTEX_RWAIT < WORD
    ensures And(Pack(f) + MUTEX_RWAIT, MUTEX_RMASK) == 0 <==> f.rwait == LIMIT - 1
  {
    if f.rwait < LIMIT - 1 {
      MaskReaders(f.(rwait := f.rwait + 1));
    } else {
      FullReaders(Low23(f), f.wwait + 1, LIMIT - 1);
    }
  }

  lemma WritersOverflow(f: Fields)
    requires f.InRange()
    ensures Pack(f) + MUTEX_WWAIT < WORD
    ensures And(Pack(f) + MUTEX_WWAIT, MUTEX_WMASK) == 0 <==> f.wwait == LIMIT - 1
  {
    if f.wwait < LIMIT - 1 {
      MaskWriters(f.(wwait := f.wwait + 1));
    } else {
      FullWriters(Low23(f) + MUTEX_RWAIT * f.rwait, LIMIT - 1);
    }
  }

  lemma WaitOverflow(f: Fields, read: bool)
    requires f.InRange()
    ensures Plus(Pack(f), WaitUnit(read)) == Pack(f) + WaitUnit(read)
    ensures And(Pack(f) + WaitUnit(read), WaitMask(read)) == 0 <==> f.Waiting(read) == LIMIT - 1
  {
    if read { ReadersOverflow(f); } else { WritersOverflow(f); }
  }

  lemma FullReaders(lo: nat, rest: nat, m: nat)
    requires lo < MUTEX_RWAIT && m == LIMIT - 1
    ensures And(lo + MUTEX_RWAIT * (LIMIT * rest), MUTEX_RWAIT * m) == 0
  {
    Shl23(1);
    Shl23(LIMIT * rest);
    Shl23(m);
    Shl23(0);
    AndField(lo, 0, rest, 23);
  }

  lemma FullWriters(lo: nat, m: nat)
    requires lo < MUTEX_WWAIT && m == LIMIT - 1
    ensures And(lo + MUTEX_WWAIT * LIMIT, MUTEX_WWAIT * m) == 0
  {
    Shl23(1);
    Shl23(LIMIT);
    Shl23(m);
    Shl23(0);
    AndField(lo, 0, 1, 43);
  }

  /** RWLock takes a free lock together with a reference, registers as a waiter when the lock is
      taken, refuses a closed fd, and panics exactly when the count it would raise is full. */
  lemma LockFields(f: Fields, read: bool)
    requires f.InRange()
    ensures TryLock(read, Pack(f)) ==
      if f.closed then Refuse
      else if !f.Locked(read) then
        if f.refs == LIMIT - 1 then Inconsistent else Swap(Pack(f.SetLock(read, true).(refs := f.refs + 1)))
      else if f.Waiting(read) == LIMIT - 1 then Inconsistent
      else Swap(Pack(f.SetWait(read, f.Waiting(read) + 1)))
  {
    MaskLow(f);
    MaskLock(f, read);
    if !f.closed {
      if !f.Locked(read) {
        OrDisjoint(Pack(f), LockBit(read));
        var g := f.SetLock(read, true);
        assert Pack(g) == Pack(f) + LockBit(read);
        RefOverflow(g);
      } else {
        WaitOverflow(f, read);
      }
    }
  }

  /** RWUnlock drops lock and reference and takes one waiter off the count, if there is any. */
  lemma UnlockFields(f: Fields, read: bool)
    requires f.InRange()
    ensures TryUnlock(read, Pack(f)) ==
      if !f.Locked(read) || f.refs == 0 then Inconsistent
      else Swap(Pack(f.SetLock(read, false).(refs := f.refs - 1).SetWait(read, if f.Waiting(read) > 0
        then f.Waiting(read) - 1 else 0)))
  {
    MaskRef(f);
    MaskLock(f, read);
    if f.Locked(read) && f.refs > 0 {
      var g := f.SetLock(read, false).(refs := f.refs - 1);
      PackDropped(f, read);
      if f.Waiting(read) > 0 {
        PackWait(g, read);
      } else {
        assert g.SetWait(read, 0) == g;
      }
      UnlockWord(Pack(f), read, if f.Waiting(read) > 0 then WaitUnit(read) else 0);
    }
  }

  lemma PackDropped(f: Fields, read: bool)
    requires f.InRange() && f.Locked(read) && f.refs > 0
    ensures Pack(f.SetLock(read, false).(refs := f.refs - 1)) + LockBit(read) + MUTEX_REF == Pack(f) < WORD
  {}

  lemma UnlockWord(word: nat, read: bool, unit: nat)
    requires And(word, LockBit(read)) == LockBit(read) && And(word, MUTEX_REF_MASK) != 0
    requires unit == if And(word, WaitMask(read)) != 0 then WaitUnit(read) else 0
    requires LockBit(read) + MUTEX_REF + unit <= word < WORD
    ensures TryUnlock(read, word) == Swap(word - LockBit(read) - MUTEX_REF - unit)
  {
    AndNotTakes(word, LockBit(read));
  }

  lemma PackWait(f: Fields, read: bool)
    requires f.Waiting(read) > 0
    ensures Pack(f.SetWait(read, f.Waiting(read) - 1)) == Pack(f) - WaitUnit(read)
  {}

  lemma LastFields(f: Fields)
    requires f.InRange()
    ensures IsLast(Pack(f)) <==> f.closed && f.refs == 0
  {
    var r, w := B(f.rlock), B(f.wlock);
    var rest := f.refs + LIMIT * f.rwait + LIMIT * LIMIT * f.wwait;
    RefField(f.refs, f.rwait + LIMIT * f.wwait, LIMIT - 1);
    MaskOfLast(LIMIT - 1);
    AndOdd(B(f.closed), r + 2 * (w + 2 * rest), 4 * (LIMIT - 1));
    AboveLocks(r, w, rest, LIMIT - 1);
  }

  lemma RefField(refs: nat, rest: nat, m: nat)
    requires refs <= m == LIMIT - 1
    ensures And(refs + LIMIT * rest, m) == refs
  {
    Shl20(1);
    Shl20(rest);
    AndLow(refs, rest, 20);
  }

  lemma MaskOfLast(m: nat)
    ensures Or(1, 8 * m) == 1 + 2 * (4 * m)
  {
    AndOdd(0, 1, 4 * m);
    OrDisjoint(1, 8 * m);
  }

  lemma AboveLocks(r: nat, w: nat, rest: nat, m: nat)
    requires r < 2 && w < 2
    ensures And(r + 2 * (w + 2 * rest), 4 * m) == 4 * And(rest, m)
  {
    AndEven(r, w + 2 * rest, 2 * m);
    AndEven(w, rest, m);
  }

  lemma AndOdd(b: nat, x: nat, y: nat)
    requires b < 2
    ensures And(b + 2 * x, 1 + 2 * y) == b + 2 * And(x, y)
    ensures And(1, 2 * y) == 0
  {
    Halve(b, x);
    Halve(1, y);
    Halve(0, y);
  }
}
