/** Runs of fdMutex (src/net/fd_mutex.go): any number of goroutines acquire and release one fd,
    interleaved at every atomic load, compare-and-swap and semaphore operation. */
module FdRuns {
  import opened PackedWord
  import opened FdMutex

  /** What a goroutine acquires: a plain reference, a reference with a lock, or the closing one. */
  datatype Call = Ref | Lock(read: bool) | Close

  /** Where a goroutine is. It releases by Decref or RWUnlock what it has acquired, once. */
  datatype Stage =
    | Ready(woken: bool)               // about to load the word; woken after a sleep
    | Seen(was: nat, woken: bool)      // has loaded it
    | Asleep                           // in Semacquire
    | Waking(was: nat)                 // has closed; still has to wake the waiters counted in was
    | Held                             // acquired
    | Letting(was: nat)                // has loaded the word to release
    | Signalling(last: bool)           // has unlocked; still has to wake a waiter
    | Refused                          // the fd was closed
    | Done(last: bool)                 // released; last is what Decref or RWUnlock returned

  datatype Agent = Agent(call: Call, stage: Stage)

  datatype Sys = Sys(word: nat, rsema: nat, wsema: nat, agents: seq<Agent>) {
    function Sema(read: bool): nat { if read then rsema else wsema }

    function SetSema(read: bool, n: nat): Sys { if read then this.(rsema := n) else this.(wsema := n) }

    function Put(i: nat, stage: Stage): Sys
      requires i < |agents|
    {
      this.(agents := agents[i := agents[i].(stage := stage)])
    }
  }

  /** The effect of one atomic action of a goroutine: none (it is blocked or has returned), a panic, or a new state. */
  datatype Outcome = Stuck | Panic | Next(s: Sys)

  function TryAcquire(call: Call, was: nat): Attempt {
    match call
    case Ref => TryIncref(was)
    case Lock(read) => TryLock(read, was)
    case Close => TryIncrefAndClose(was)
  }

  /** Where a successful swap of the acquiring loop leads. */
  function Acquired(call: Call, was: nat): Stage {
    match call
    case Ref => Held
    case Lock(read) => if And(was, LockBit(read)) == 0 then Held else Asleep
    case Close => Waking(was)
  }

  function TryRelease(call: Call, was: nat): Attempt {
    if call.Lock? then TryUnlock(call.read, was) else TryDecref(was)
  }

  function Released(call: Call, was: nat, next: nat): Stage {
    if call.Lock? && And(was, WaitMask(call.read)) != 0 then Signalling(IsLast(next)) else Done(IsLast(next))
  }

  /** One atomic action of goroutine i. */
  function Act(s: Sys, i: nat): Outcome
    requires i < |s.agents|
  {
    var a := s.agents[i];
    match a.stage
    case Ready(woken) => Next(s.Put(i, Seen(s.word, woken)))
    case Seen(was, _) =>
      (match TryAcquire(a.call, was)
       case Refuse => Next(s.Put(i, Refused))
       case Inconsistent => Panic
       case Swap(next) =>
         if s.word == was then Next(s.(word := next).Put(i, Acquired(a.call, was)))
           else Next(s.Put(i, Ready(a.stage.woken))))
    case Asleep =>
      if a.call.Lock? && s.Sema(a.call.read) > 0
      then Next(s.SetSema(a.call.read, s.Sema(a.call.read) - 1).Put(i, Ready(true)))
      else Stuck
    case Waking(was) =>
      if And(was, MUTEX_RMASK) != 0 then Next(s.SetSema(true, s.rsema + 1).Put(i, Waking(Minus(was, MUTEX_RWAIT))))
      else if And(was, MUTEX_WMASK) != 0 then Next(s.SetSema(false, s.wsema + 1).Put(i,
        Waking(Minus(was, MUTEX_WWAIT))))
      else Next(s.Put(i, Held))
    case Held => Next(s.Put(i, Letting(s.word)))
    case Letting(was) =>
      (match TryRelease(a.call, was)
       case Refuse => Stuck
       case Inconsistent => Panic
       case Swap(next) =>
         if s.word == was then Next(s.(word := next).Put(i, Released(a.call, was, next))) else Next(s.Put(i, Held)))
    case Signalling(last) =>
      if a.call.Lock? then Next(s.SetSema(a.call.read, s.Sema(a.call.read) + 1).Put(i, Done(last))) else Stuck
    case Refused => Stuck
    case Done(_) => Stuck
  }

  // ------------------------------------------------------------------ head counts

  /** The goroutines concerned with one of the locks: those that hold it, sleep for it, owe a
      sleeper a wake-up, or have been woken and will try again. */
  datatype Part = Part(holds: nat, sleeps: nat, owes: nat, woken: nat) {
    function Plus(p: Part): Part { Part(holds + p.holds, sleeps + p.sleeps, owes + p.owes, woken + p.woken) }
  }

  /** The goroutines that have not returned, hold a reference, have closed the fd, or were told to destroy it. */
  datatype Counts = Counts(live: nat, refs: nat, closers: nat, lasts: nat, readers: Part, writers: Part) {
    function Plus(c: Counts): Counts {
      Counts(live + c.live, refs + c.refs, closers + c.closers, lasts + c.lasts, readers.Plus(c.readers),
        writers.Plus(c.writers))
    }

    function Of(read: bool): Part { if read then readers else writers }
  }

  /** The wake-ups that a closer with this word still has to give. */
  function Owed(was: nat, read: bool): nat { And(was, WaitMask(read)) / WaitUnit(read) }

  function PartOf(a: Agent, read: bool): Part {
    var mine := B(a.call == Lock(read));
    match a.stage
    case Ready(woken) => Part(0, 0, 0, if woken then mine else 0)
    case Seen(_, woken) => Part(0, 0, 0, if woken then mine else 0)
    case Asleep => Part(0, mine, 0, 0)
    case Waking(was) => Part(mine, 0, Owed(was, read), 0)
    case Held => Part(mine, 0, 0, 0)
    case Letting(_) => Part(mine, 0, 0, 0)
    case Signalling(_) => Part(0, 0, mine, 0)
    case Refused => Part(0, 0, 0, 0)
    case Done(_) => Part(0, 0, 0, 0)
  }

  predicate Holding(stage: Stage) { stage.Waking? || stage.Held? || stage.Letting? }

  function CountsOf(a: Agent): Counts {
    var g := a.stage;
    Counts(B(!g.Refused? && !g.Done?), B(Holding(g)), B(a.call.Close? && (Holding(g) || g.Done?)),
           B((g.Signalling? && g.last) || (g.Done? && g.last)), PartOf(a, true), PartOf(a, false))
  }

  function Zero(): Counts { Counts(0, 0, 0, 0, Part(0, 0, 0, 0), Part(0, 0, 0, 0)) }

  function Sum(cs: seq<Counts>): Counts {
    if cs == [] then Zero() else Sum(cs[..|cs| - 1]).Plus(cs[|cs| - 1])
  }

  /** The head counts of all goroutines together. */
  function Census(agents: seq<Agent>): Counts {
    Sum(seq(|agents|, i requires 0 <= i < |agents| => CountsOf(agents[i])))
  }

  lemma {:induction false} SumPut(cs: seq<Counts>, i: nat, c: Counts)
    requires i < |cs|
    ensures Sum(cs[i := c]).Plus(cs[i]) == Sum(cs).Plus(c)
  {
    var n := |cs| - 1;
    if i < n {
      SumPut(cs[..n], i, c);
      assert cs[i := c][..n] == cs[..n][i := c];
      PlusMoves(Sum(cs[..n][i := c]), cs[i], Sum(cs[..n]), c, cs[n]);
    } else {
      assert cs[i := c][..n] == cs[..n];
    }
  }

  lemma PlusMoves(x: Counts, u: Counts, y: Counts, v: Counts, last: Counts)
    requires x.Plus(u) == y.Plus(v)
    ensures x.Plus(last).Plus(u) == y.Plus(last).Plus(v)
  {}

  lemma CensusPut(s: Sys, i: nat, stage: Stage)
    requires i < |s.agents|
    ensures Census(s.Put(i,
      stage).agents).Plus(CountsOf(s.agents[i])) == Census(s.agents).Plus(CountsOf(s.agents[i].(stage := stage)))
  {
    var agents, b := s.agents, s.agents[i].(stage := stage);
    var cs := seq(|agents|, j requires 0 <= j < |agents| => CountsOf(agents[j]));
    var after := s.Put(i, stage).agents;
    assert seq(|after|, j requires 0 <= j < |after| => CountsOf(after[j])) == cs[i := CountsOf(b)];
    SumPut(cs, i, CountsOf(b));
  }

  // -------------------------------------------------------------------- invariant

  /** What a goroutine knows. A word it has loaded was in order when it was loaded; if it said
      closed then the fd is closed for good. */
  ghost predicate AgentOk(a: Agent, closed: bool) {
    && (a.stage.Asleep? || a.stage.Signalling? ==> a.call.Lock?)
    && (a.stage.Waking? ==> a.call.Close? && exists g: Fields :: Was(a.stage.was, g))
    && (a.stage.Seen? ==> exists g: Fields :: Was(a.stage.was, g) && HasRoom(g) && (g.closed ==> closed))
    && (a.stage.Letting? ==> exists g: Fields ::
      Was(a.stage.was, g) && g.refs > 0 && (a.call.Lock? ==> g.Locked(a.call.read)))
    && (a.stage.Refused? ==> closed)
  }

  predicate Was(word: nat, g: Fields) { g.InRange() && word == Pack(g) }

  predicate HasRoom(g: Fields) { g.refs < LIMIT - 1 && g.rwait < LIMIT - 1 && g.wwait < LIMIT - 1 }

  /** One of the two locks, with the head count p. The sleepers are those registered as waiters
      and those being woken; and when some are registered for a free lock, one that has been
      woken is still going to try for it. */
  predicate LockInv(p: Part, f: Fields, read: bool, sema: nat) {
    && B(f.Locked(read)) == p.holds
    && p.sleeps == f.Waiting(read) + sema + p.owes
    && (f.Waiting(read) > 0 && !f.Locked(read) ==> p.woken + sema + p.owes > 0)
    && (f.closed ==> f.Waiting(read) == 0)
  }

  predicate CountsInv(c: Counts, f: Fields, rsema: nat, wsema: nat) {
    && c.live < LIMIT && f.refs == c.refs && B(f.closed) == c.closers
    && c.lasts == B(f.closed && f.refs == 0)
    && LockInv(c.readers, f, true, rsema) && LockInv(c.writers, f, false, wsema)
  }

  /** The fields f of the word are the head counts of the goroutines. */
  ghost predicate InvAt(s: Sys, f: Fields) {
    && s.word == Pack(f) && f.InRange()
    && CountsInv(Census(s.agents), f, s.rsema, s.wsema)
    && AllOk(s.agents, f.closed)
  }

  ghost predicate AllOk(agents: seq<Agent>, closed: bool) {
    forall i :: 0 <= i < |agents| ==> AgentOk(agents[i], closed)
  }

  ghost predicate Inv(s: Sys) { exists f :: InvAt(s, f) }

  lemma OkPut(s: Sys, closed: bool, i: nat, stage: Stage, closed': bool)
    requires AllOk(s.agents, closed) && i < |s.agents| && (closed ==> closed') &&
      AgentOk(s.agents[i].(stage := stage), closed')
    ensures AllOk(s.Put(i, stage).agents, closed') && AgentOk(s.agents[i], closed)
  {
    forall j | 0 <= j < |s.agents| ensures AgentOk(s.Put(i, stage).agents[j], closed') {
      assert AgentOk(s.agents[j], closed);
    }
  }

  /** While a goroutine has not acquired, it leaves room in every count. */
  lemma RoomFor(s: Sys, f: Fields, i: nat)
    requires InvAt(s, f) && i < |s.agents| && (s.agents[i].stage.Ready? || s.agents[i].stage.Seen?)
    ensures HasRoom(f)
  {
    CensusPut(s, i, Refused);
    LiveBounds(s.Put(i, Refused).agents);
  }

  lemma LiveBounds(agents: seq<Agent>)
    ensures var c := Census(agents); c.refs <= c.live && c.readers.sleeps <= c.live && c.writers.sleeps <= c.live
  {
    SumBounds(seq(|agents|, i requires 0 <= i < |agents| => CountsOf(agents[i])));
  }

  lemma {:induction false} SumBounds(cs: seq<Counts>)
    requires forall i :: 0 <= i < |cs| ==>
      cs[i].refs <= cs[i].live && cs[i].readers.sleeps <= cs[i].live && cs[i].writers.sleeps <= cs[i].live
    ensures var c := Sum(cs); c.refs <= c.live && c.readers.sleeps <= c.live && c.writers.sleeps <= c.live
  {
    if cs != [] { SumBounds(cs[..|cs| - 1]); }
  }

  // ------------------------------------------------------- steps keep the invariant

  /** Loading the word, to acquire. */
  lemma LoadStep(s: Sys, f: Fields, i: nat)
    requires InvAt(s, f) && i < |s.agents| && s.agents[i].stage.Ready?
    ensures InvAt(s.Put(i, Seen(s.word, s.agents[i].stage.woken)), f)
  {
    var stage := Seen(s.word, s.agents[i].stage.woken);
    RoomFor(s, f, i);
    CensusPut(s, i, stage);
    assert Was(s.word, f);
    OkPut(s, f.closed, i, stage, f.closed);
  }

  /** A swap that comes too late, or a refusal. */
  lemma RetryStep(s: Sys, f: Fields, i: nat, stage: Stage)
    requires InvAt(s, f) && i < |s.agents| && s.agents[i].stage.Seen?
    requires stage == Ready(s.agents[i].stage.woken) || (stage == Refused && f.closed)
    ensures InvAt(s.Put(i, stage), f)
  {
    CensusPut(s, i, stage);
    OkPut(s, f.closed, i, stage, f.closed);
  }

  lemma HolderCounted(s: Sys, f: Fields, i: nat)
    requires InvAt(s, f) && i < |s.agents| && Holding(s.agents[i].stage)
    ensures f.refs > 0 && (s.agents[i].call.Lock? ==> f.Locked(s.agents[i].call.read))
  {
    CensusPut(s, i, Refused);
  }

  /** Loading the word, to release. */
  lemma LoadHeldStep(s: Sys, f: Fields, i: nat)
    requires InvAt(s, f) && i < |s.agents| && s.agents[i].stage.Held?
    ensures InvAt(s.Put(i, Letting(s.word)), f)
  {
    HolderCounted(s, f, i);
    CensusPut(s, i, Letting(s.word));
    assert Was(s.word, f);
    OkPut(s, f.closed, i, Letting(s.word), f.closed);
  }

  /** A releasing swap that comes too late, or the end of the closer's wake-ups. */
  lemma HeldStep(s: Sys, f: Fields, i: nat)
    requires InvAt(s, f) && i < |s.agents|
    requires var g := s.agents[i].stage; g.Letting? || (g.Waking? && Owed(g.was, true) == 0 == Owed(g.was, false))
    ensures InvAt(s.Put(i, Held), f)
  {
    CensusPut(s, i, Held);
    OkPut(s, f.closed, i, Held, f.closed);
  }

  lemma RefStep(s: Sys, f: Fields, i: nat)
    requires InvAt(s, f) && i < |s.agents| && s.agents[i].stage.Seen? && s.agents[i].call == Ref && !f.closed &&
      f.refs < LIMIT - 1
    ensures var f' := f.(refs := f.refs + 1); InvAt(s.(word := Pack(f')).Put(i, Held), f')
  {
    CensusPut(s, i, Held);
    OkPut(s, f.closed, i, Held, f.closed);
  }

  lemma LockStep(s: Sys, f: Fields, i: nat, read: bool)
    requires InvAt(s, f) && i < |s.agents| && s.agents[i].stage.Seen? && s.agents[i].call == Lock(read)
    requires !f.closed && f.refs < LIMIT - 1 && !f.Locked(read)
    ensures var f' := f.SetLock(read, true).(refs := f.refs + 1); InvAt(s.(word := Pack(f')).Put(i, Held), f')
  {
    CensusPut(s, i, Held);
    OkPut(s, f.closed, i, Held, f.closed);
  }

  lemma WaitStep(s: Sys, f: Fields, i: nat, read: bool)
    requires InvAt(s, f) && i < |s.agents| && s.agents[i].stage.Seen? && s.agents[i].call == Lock(read)
    requires !f.closed && f.Waiting(read) < LIMIT - 1 && f.Locked(read)
    ensures var f' := f.SetWait(read, f.Waiting(read) + 1); InvAt(s.(word := Pack(f')).Put(i, Asleep), f')
  {
    CensusPut(s, i, Asleep);
    OkPut(s, f.closed, i, Asleep, f.closed);
  }

  lemma OwedIs(f: Fields, read: bool)
    requires f.InRange()
    ensures Owed(Pack(f), read) == f.Waiting(read)
  {
    MaskLock(f, read);
  }

  lemma CloseStep(s: Sys, f: Fields, i: nat)
    requires InvAt(s, f) && i < |s.agents| && s.agents[i].stage.Seen? && s.agents[i].call == Close && !f.closed &&
      f.refs < LIMIT - 1
    ensures var f' := f.(closed := true, refs := f.refs + 1, rwait := 0, wwait := 0);
      InvAt(s.(word := Pack(f')).Put(i, Waking(s.word)), f')
  {
    CensusPut(s, i, Waking(s.word));
    assert Was(s.word, f);
    OkPut(s, f.closed, i, Waking(s.word), true);
    OwedIs(f, true);
    OwedIs(f, false);
  }

  /** A sleeper consumes a wake-up and tries again. */
  lemma WakeStep(s: Sys, f: Fields, i: nat, read: bool)
    requires InvAt(s, f) && i < |s.agents| && s.agents[i].stage.Asleep? && s.agents[i].call == Lock(read) &&
      s.Sema(read) > 0
    ensures InvAt(s.SetSema(read, s.Sema(read) - 1).Put(i, Ready(true)), f)
  {
    CensusPut(s, i, Ready(true));
    OkPut(s, f.closed, i, Ready(true), f.closed);
  }

  /** The closer gives one of the wake-ups it owes. */
  lemma ReleaseStep(s: Sys, f: Fields, i: nat, read: bool, next: nat)
    requires InvAt(s, f) && i < |s.agents| && s.agents[i].stage.Waking? && (exists g: Fields :: Was(next, g))
    requires var was := s.agents[i].stage.was;
      Owed(was, read) == Owed(next, read) + 1 && Owed(was, !read) == Owed(next, !read)
    ensures InvAt(s.SetSema(read, s.Sema(read) + 1).Put(i, Waking(next)), f)
  {
    CensusPut(s, i, Waking(next));
    OkPut(s, f.closed, i, Waking(next), f.closed);
  }

  /** An unlocker gives the wake-up it owes. */
  lemma SignalStep(s: Sys, f: Fields, i: nat, read: bool)
    requires InvAt(s, f) && i < |s.agents| && s.agents[i].stage.Signalling? && s.agents[i].call == Lock(read)
    ensures InvAt(s.SetSema(read, s.Sema(read) + 1).Put(i, Done(s.agents[i].stage.last)), f)
  {
    CensusPut(s, i, Done(s.agents[i].stage.last));
    OkPut(s, f.closed, i, Done(s.agents[i].stage.last), f.closed);
  }

  /** Decref: of a plain or of the closing reference. */
  lemma DropStep(s: Sys, f: Fields, i: nat)
    requires InvAt(s, f) && i < |s.agents| && s.agents[i].stage.Letting? && !s.agents[i].call.Lock?
    ensures f.refs > 0
    ensures var f' := f.(refs := f.refs - 1);
      InvAt(s.(word := Pack(f')).Put(i, Done(f'.closed && f'.refs == 0)), f')
  {
    var last := f.closed && f.refs - 1 == 0;
    CensusPut(s, i, Done(last));
    OkPut(s, f.closed, i, Done(last), f.closed);
  }

  /** RWUnlock, when no waiter is registered. */
  lemma UnlockStep(s: Sys, f: Fields, i: nat, read: bool)
    requires InvAt(s, f) && i < |s.agents| && s.agents[i].stage.Letting? && s.agents[i].call == Lock(read)
    ensures f.refs > 0 && f.Locked(read)
    ensures f.Waiting(read) == 0 ==>
      (var f' := f.SetLock(read, false).(refs := f.refs - 1); InvAt(s.(word := Pack(f')).Put(i,
        Done(f'.closed && f'.refs == 0)), f'))
  {
    var last := f.closed && f.refs - 1 == 0;
    CensusPut(s, i, Done(last));
    OkPut(s, f.closed, i, Done(last), f.closed);
  }

  /** RWUnlock, when it takes a waiter off the count; the fd is then open. */
  lemma HandoverStep(s: Sys, f: Fields, i: nat, read: bool)
    requires InvAt(s, f) && i < |s.agents| && s.agents[i].stage.Letting? && s.agents[i].call == Lock(read) &&
      f.Waiting(read) > 0
    ensures f.refs > 0 && f.Locked(read) && !f.closed
    ensures var f' := f.SetLock(read, false).(refs := f.refs - 1).SetWait(read, f.Waiting(read) - 1);
      InvAt(s.(word := Pack(f')).Put(i, Signalling(false)), f')
  {
    CensusPut(s, i, Signalling(false));
    OkPut(s, f.closed, i, Signalling(false), f.closed);
  }

  /** The acquiring swap succeeds: nobody has changed the word since it was loaded. */
  lemma AcquireStep(s: Sys, f: Fields, i: nat) returns (f': Fields)
    requires InvAt(s, f) && i < |s.agents| && s.agents[i].stage.Seen? && !f.closed
    ensures TryAcquire(s.agents[i].call, s.word) == Swap(Pack(f'))
    ensures InvAt(s.(word := Pack(f')).Put(i, Acquired(s.agents[i].call, s.word)), f')
  {
    RoomFor(s, f, i);
    match s.agents[i].call {
      case Ref =>
        f' := f.(refs := f.refs + 1);
        IncrefFields(f);
        RefStep(s, f, i);
      case Lock(read) =>
        LockFields(f, read);
        MaskLock(f, read);
        if f.Locked(read) {
          f' := f.SetWait(read, f.Waiting(read) + 1);
          WaitStep(s, f, i, read);
        } else {
          f' := f.SetLock(read, true).(refs := f.refs + 1);
          LockStep(s, f, i, read);
        }
      case Close =>
        f' := f.(closed := true, refs := f.refs + 1, rwait := 0, wwait := 0);
        CloseFields(f);
        CloseStep(s, f, i);
    }
  }

  /** What was loaded never makes a loop panic, even when it is out of date. */
  lemma NoAcquirePanic(call: Call, g: Fields)
    requires g.InRange() && HasRoom(g)
    ensures if g.closed then TryAcquire(call, Pack(g)).Refuse? else TryAcquire(call, Pack(g)).Swap?
  {
    match call {
      case Ref => IncrefFields(g);
      case Lock(read) => LockFields(g, read);
      case Close => CloseFields(g);
    }
  }

  lemma NoReleasePanic(call: Call, g: Fields)
    requires g.InRange() && g.refs > 0 && (call.Lock? ==> g.Locked(call.read))
    ensures TryRelease(call, Pack(g)).Swap?
  {
    DecrefFields(g);
    if call.Lock? { UnlockFields(g, call.read); }
  }

  lemma SeenStep(s: Sys, f: Fields, i: nat) returns (f': Fields)
    requires InvAt(s, f) && i < |s.agents| && s.agents[i].stage.Seen?
    ensures Act(s, i).Next? && InvAt(Act(s, i).s, f')
  {
    var a := s.agents[i];
    assert AgentOk(a, f.closed);
    var g: Fields :| Was(a.stage.was, g) && HasRoom(g) && (g.closed ==> f.closed);
    NoAcquirePanic(a.call, g);
    f' := f;
    if g.closed {
      RetryStep(s, f, i, Refused);
    } else if s.word == a.stage.was {
      PackInjective(f, g);
      f' := AcquireStep(s, f, i);
    } else {
      RetryStep(s, f, i, Ready(a.stage.woken));
    }
  }

  lemma PackInjective(f: Fields, g: Fields)
    requires f.InRange() && g.InRange() && Pack(f) == Pack(g)
    ensures f == g
  {
    MaskLow(f);
    MaskLow(g);
    MaskRef(f);
    MaskRef(g);
    MaskReaders(f);
    MaskReaders(g);
  }

  lemma LettingStep(s: Sys, f: Fields, i: nat) returns (f': Fields)
    requires InvAt(s, f) && i < |s.agents| && s.agents[i].stage.Letting?
    ensures Act(s, i).Next? && InvAt(Act(s, i).s, f')
  {
    var a := s.agents[i];
    assert AgentOk(a, f.closed);
    var g: Fields :| Was(a.stage.was, g) && g.refs > 0 && (a.call.Lock? ==> g.Locked(a.call.read));
    NoReleasePanic(a.call, g);
    f' := f;
    if s.word != a.stage.was {
      HeldStep(s, f, i);
    } else {
      f' := LetGoStep(s, f, i);
    }
  }

  lemma LetGoStep(s: Sys, f: Fields, i: nat) returns (f': Fields)
    requires InvAt(s, f) && i < |s.agents| && s.agents[i].stage.Letting?
    ensures var call := s.agents[i].call;
            TryRelease(call, s.word) == Swap(Pack(f')) && InvAt(s.(word := Pack(f')).Put(i,
              Released(call, s.word, Pack(f'))), f')
  {
    if s.agents[i].call.Lock? {
      f' := UnlockedStep(s, f, i, s.agents[i].call.read);
    } else {
      DropStep(s, f, i);
      DecrefFields(f);
      f' := f.(refs := f.refs - 1);
      LastFields(f');
    }
  }

  lemma UnlockedStep(s: Sys, f: Fields, i: nat, read: bool) returns (f': Fields)
    requires InvAt(s, f) && i < |s.agents| && s.agents[i].stage.Letting? && s.agents[i].call == Lock(read)
    ensures TryUnlock(read, s.word) == Swap(Pack(f')) && InvAt(s.(word := Pack(f')).Put(i,
      Released(Lock(read), s.word, Pack(f'))), f')
  {
    UnlockStep(s, f, i, read);
    UnlockFields(f, read);
    MaskLock(f, read);
    f' := f.SetLock(read, false).(refs := f.refs - 1);
    if f.Waiting(read) > 0 {
      HandoverStep(s, f, i, read);
      f' := f'.SetWait(read, f.Waiting(read) - 1);
    } else {
      assert f'.SetWait(read, 0) == f';
    }
    LastFields(f');
  }

  lemma WakingStep(s: Sys, f: Fields, i: nat)
    requires InvAt(s, f) && i < |s.agents| && s.agents[i].stage.Waking?
    ensures Act(s, i).Next? && InvAt(Act(s, i).s, f)
  {
    var a := s.agents[i];
    assert AgentOk(a, f.closed);
    var g: Fields :| Was(a.stage.was, g);
    MaskLock(g, true);
    MaskLock(g, false);
    OwedIs(g, true);
    OwedIs(g, false);
    if g.rwait > 0 || g.wwait > 0 {
      var read := g.rwait > 0;
      OneFewer(g, read);
      ReleaseStep(s, f, i, read, Minus(a.stage.was, WaitUnit(read)));
    } else {
      HeldStep(s, f, i);
    }
  }

  lemma OneFewer(g: Fields, read: bool)
    requires g.InRange() && g.Waiting(read) > 0
    ensures exists h: Fields :: Was(Minus(Pack(g), WaitUnit(read)), h)
    ensures Owed(Minus(Pack(g), WaitUnit(read)), read) == g.Waiting(read) - 1
    ensures Owed(Minus(Pack(g), WaitUnit(read)), !read) == g.Waiting(!read)
  {
    var h := g.SetWait(read, g.Waiting(read) - 1);
    MinusUnit(g, read);
    assert Was(Pack(h), h);
    OwedIs(h, read);
    OwedIs(h, !read);
  }

  lemma MinusUnit(g: Fields, read: bool)
    requires g.InRange() && g.Waiting(read) > 0
    ensures Minus(Pack(g), WaitUnit(read)) == Pack(g.SetWait(read, g.Waiting(read) - 1))
  {
    PackWait(g, read);
  }

  /** No action of any goroutine panics, and every action keeps the invariant. */
  lemma StepKeepsInv(s: Sys, i: nat)
    requires Inv(s) && i < |s.agents|
    ensures !Act(s, i).Panic? && (Act(s, i).Next? ==> Inv(Act(s, i).s))
  {
    var f :| InvAt(s, f);
    var a := s.agents[i];
    assert AgentOk(a, f.closed);
    match a.stage {
      case Ready(_) => LoadStep(s, f, i);
      case Seen(_, _) => var _ := SeenStep(s, f, i);
      case Asleep => if s.Sema(a.call.read) > 0 { WakeStep(s, f, i, a.call.read); }
      case Waking(_) => WakingStep(s, f, i);
      case Held => LoadHeldStep(s, f, i);
      case Letting(_) => var _ := LettingStep(s, f, i);
      case Signalling(_) => SignalStep(s, f, i, a.call.read);
      case Refused =>
      case Done(_) =>
    }
  }
}
