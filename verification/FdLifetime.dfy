/** What fdMutex promises over whole runs (src/net/fd_mutex.go, src/net/fd_unix.go:131-201). */
module FdLifetime {
  import opened PackedWord
  import opened FdMutex
  import opened FdRuns

  // ------------------------------------------------------------------------- runs

  function Initial(): Sys { Sys(0, 0, 0, []) }

  /** One more goroutine sets out to use the fd. */
  function Arrive(s: Sys, call: Call): Sys { s.(agents := s.agents + [Agent(call, Ready(false))]) }

  ghost predicate Step(s: Sys, s': Sys) {
    || (exists i :: 0 <= i < |s.agents| && Act(s, i) == Next(s'))
    || (exists call :: s' == Arrive(s, call) && Census(s'.agents).live < LIMIT)
  }

  /** A run from the initial state in which fewer than 2^20 goroutines overlap. */
  ghost predicate Run(trace: seq<Sys>) {
    trace != [] && trace[0] == Initial() && forall k :: 0 <= k < |trace| - 1 ==> Step(trace[k], trace[k + 1])
  }

  function All(agents: seq<Agent>): seq<Counts> { seq(|agents|, i requires 0 <= i < |agents| => CountsOf(agents[i])) }

  lemma CensusArrive(s: Sys, call: Call)
    ensures Census(Arrive(s, call).agents) == Census(s.agents).Plus(CountsOf(Agent(call, Ready(false))))
  {
    var after, new_ := Arrive(s, call).agents, CountsOf(Agent(call, Ready(false)));
    assert All(after) == All(s.agents) + [new_];
    assert (All(s.agents) + [new_])[..|s.agents|] == All(s.agents);
  }

  lemma ArriveKeepsInv(s: Sys, call: Call)
    requires Inv(s) && Census(Arrive(s, call).agents).live < LIMIT
    ensures Inv(Arrive(s, call))
  {
    var f :| InvAt(s, f);
    CensusArrive(s, call);
    forall i | 0 <= i < |s.agents| ensures AgentOk(Arrive(s, call).agents[i], f.closed) {
      assert AgentOk(s.agents[i], f.closed);
    }
    assert InvAt(Arrive(s, call), f);
  }

  /** The invariant holds throughout every run. */
  lemma {:induction false} RunKeepsInv(trace: seq<Sys>, k: nat)
    requires Run(trace) && k < |trace|
    ensures Inv(trace[k])
  {
    if k == 0 {
      assert InvAt(Initial(), Fields(false, false, false, 0, 0, 0));
    } else {
      RunKeepsInv(trace, k - 1);
      var s, s' := trace[k - 1], trace[k];
      assert Step(s, s');
      if i :| 0 <= i < |s.agents| && Act(s, i) == Next(s') {
        StepKeepsInv(s, i);
      } else {
        var call :| s' == Arrive(s, call) && Census(s'.agents).live < LIMIT;
        ArriveKeepsInv(s, call);
      }
    }
  }

  // -------------------------------------------------------- reading the head counts

  predicate AtMost(p: Part, q: Part) { p.holds <= q.holds && p.sleeps <= q.sleeps && p.owes <= q.owes &&
      p.woken <= q.woken }

  predicate Within(c: Counts, d: Counts) {
    c.live <= d.live && c.refs <= d.refs && c.closers <= d.closers && c.lasts <= d.lasts &&
      AtMost(c.readers, d.readers) && AtMost(c.writers, d.writers)
  }

  lemma {:induction false} SumHas(cs: seq<Counts>, i: nat)
    requires i < |cs|
    ensures Within(cs[i], Sum(cs))
  {
    if i < |cs| - 1 { SumHas(cs[..|cs| - 1], i); }
  }

  lemma {:induction false} SumHasBoth(cs: seq<Counts>, i: nat, j: nat)
    requires i < j < |cs|
    ensures Within(cs[i].Plus(cs[j]), Sum(cs))
  {
    var n := |cs| - 1;
    if j < n { SumHasBoth(cs[..n], i, j); } else { SumHas(cs[..n], i); }
  }

  /** Two goroutines are counted at least once each. */
  lemma CountedBoth(agents: seq<Agent>, i: nat, j: nat)
    requires i < j < |agents|
    ensures Within(CountsOf(agents[i]).Plus(CountsOf(agents[j])), Census(agents))
  {
    SumHasBoth(All(agents), i, j);
  }

  lemma Counted(agents: seq<Agent>, i: nat)
    requires i < |agents|
    ensures Within(CountsOf(agents[i]), Census(agents))
  {
    SumHas(All(agents), i);
  }

  /** A part of the count that is not empty is somebody's: pick says which part. */
  datatype Pick = Live | Last | Closers | Holds(read: bool) | Acting(read: bool)

  function Picked(pick: Pick, c: Counts): nat {
    match pick
    case Live => c.live
    case Last => c.lasts
    case Closers => c.closers
    case Holds(read) => c.Of(read).holds
    case Acting(read) => c.Of(read).owes + c.Of(read).woken
  }

  lemma {:induction false} SumSome(pick: Pick, cs: seq<Counts>) returns (i: nat)
    requires Picked(pick, Sum(cs)) > 0
    ensures i < |cs| && Picked(pick, cs[i]) > 0
  {
    var n := |cs| - 1;
    if Picked(pick, Sum(cs[..n])) > 0 { i := SumSome(pick, cs[..n]); } else { i := n; }
  }

  lemma Someone(pick: Pick, agents: seq<Agent>) returns (i: nat)
    requires Picked(pick, Census(agents)) > 0
    ensures i < |agents| && Picked(pick, CountsOf(agents[i])) > 0
  {
    i := SumSome(pick, All(agents));
  }

  // ---------------------------------------------------------------------- promises

  predicate HoldsLock(a: Agent, read: bool) { a.call == Lock(read) && Holding(a.stage) }

  /** At most one goroutine holds each lock. */
  lemma MutualExclusion(s: Sys, read: bool, i: nat, j: nat)
    requires Inv(s) && i < j < |s.agents|
    ensures !(HoldsLock(s.agents[i], read) && HoldsLock(s.agents[j], read))
  {
    OneHolder(s, read);
    HoldersWeigh(s.agents, read, i, j);
  }

  lemma HoldersWeigh(agents: seq<Agent>, read: bool, i: nat, j: nat)
    requires i < j < |agents|
    ensures B(HoldsLock(agents[i], read)) + B(HoldsLock(agents[j], read)) <= Census(agents).Of(read).holds
  {
    CountedBoth(agents, i, j);
    HolderWeighs(agents[i], read);
    HolderWeighs(agents[j], read);
    BothHold(CountsOf(agents[i]), CountsOf(agents[j]), Census(agents), read);
  }

  lemma HolderWeighs(a: Agent, read: bool)
    ensures B(HoldsLock(a, read)) == CountsOf(a).Of(read).holds
  {}

  lemma BothHold(c: Counts, d: Counts, sum: Counts, read: bool)
    requires Within(c.Plus(d), sum)
    ensures c.Of(read).holds + d.Of(read).holds <= sum.Of(read).holds
  {}

  lemma OneHolder(s: Sys, read: bool)
    requires Inv(s)
    ensures Census(s.agents).Of(read).holds <= 1
  {
    var f :| InvAt(s, f);
  }

  /** destroy runs at most once, and with no reference outstanding. */
  lemma DestroyedOnce(s: Sys, i: nat)
    requires Inv(s) && i < |s.agents| && s.agents[i].stage == Done(true)
    ensures forall j :: 0 <= j < |s.agents| && j != i ==> s.agents[j].stage != Done(true)
    ensures forall j :: 0 <= j < |s.agents| ==> !Holding(s.agents[j].stage)
  {
    var f :| InvAt(s, f);
    Counted(s.agents, i);
    forall j | 0 <= j < |s.agents| ensures !Holding(s.agents[j].stage) && (j != i ==> s.agents[j].stage != Done(true)) {
      Counted(s.agents, j);
      if j < i { CountedBoth(s.agents, j, i); } else if i < j { CountedBoth(s.agents, i, j); }
    }
  }

  /** Once everybody has returned from a closed fd, exactly one goroutine was told to destroy it. */
  lemma DestroyedAtLast(s: Sys, closer: nat) returns (i: nat)
    requires Inv(s) && closer < |s.agents| && s.agents[closer].call == Close && s.agents[closer].stage.Done?
    requires forall j :: 0 <= j < |s.agents| ==> s.agents[j].stage.Refused? || s.agents[j].stage.Done?
    ensures i < |s.agents| && s.agents[i].stage == Done(true)
  {
    var f :| InvAt(s, f);
    Counted(s.agents, closer);
    if Census(s.agents).live > 0 {
      i := Someone(Live, s.agents);
    } else {
      LiveBounds(s.agents);
      i := Someone(Last, s.agents);
    }
  }

  /** No lost wake-up: when a lock of an open fd is free and some goroutine sleeps for it, a
      wake-up is on its way, or a goroutine that was woken is about to try for the lock. */
  lemma NoLostWakeup(s: Sys, read: bool, i: nat) returns (j: nat)
    requires Inv(s) && i < |s.agents| && s.agents[i] == Agent(Lock(read), Asleep)
    requires forall k :: 0 <= k < |s.agents| ==> !HoldsLock(s.agents[k], read)
    ensures s.Sema(read) > 0 || (j < |s.agents| && Picked(Acting(read), CountsOf(s.agents[j])) > 0)
  {
    var f :| InvAt(s, f);
    Counted(s.agents, i);
    j := 0;
    if Census(s.agents).Of(read).holds > 0 {
      j := Someone(Holds(read), s.agents);
    } else if s.Sema(read) == 0 {
      j := Someone(Acting(read), s.agents);
    }
  }

  /** Closing releases every waiter: each sleeper's wake-up is in a semaphore or is owed by a
      goroutine that is about to give it. */
  lemma CloseWakesAll(s: Sys, closer: nat, read: bool)
    requires Inv(s) && closer < |s.agents| && s.agents[closer].call == Close &&
      (Holding(s.agents[closer].stage) || s.agents[closer].stage.Done?)
    ensures var p := Census(s.agents).Of(read); p.sleeps == s.Sema(read) + p.owes
  {
    var f :| InvAt(s, f);
    Counted(s.agents, closer);
    assert LockInv(Census(s.agents).Of(read), f, read, s.Sema(read));
  }

  predicate CanMove(s: Sys, i: nat)
    requires i < |s.agents|
  {
    Act(s, i).Next?
  }

  /** Only a sleeper without a wake-up cannot move. */
  lemma Moves(s: Sys, i: nat)
    requires Inv(s) && i < |s.agents| && !s.agents[i].stage.Refused? && !s.agents[i].stage.Done?
    requires s.agents[i].stage.Asleep? ==> s.agents[i].call.Lock? && s.Sema(s.agents[i].call.read) > 0
    ensures CanMove(s, i)
  {
    StepKeepsInv(s, i);
    var f :| InvAt(s, f);
    assert AgentOk(s.agents[i], f.closed);
  }

  /** A goroutine sleeps and no wake-up is in its semaphore: then somebody holds the lock or is about to act on it. */
  lemma SleepersHaveHope(s: Sys, i: nat, read: bool)
    requires Inv(s) && i < |s.agents| && s.agents[i] == Agent(Lock(read), Asleep) && s.Sema(read) == 0
    ensures var p := Census(s.agents).Of(read); p.holds > 0 || p.owes + p.woken > 0
  {
    var f :| InvAt(s, f);
    Counted(s.agents, i);
    assert LockInv(Census(s.agents).Of(read), f, read, s.Sema(read));
  }

  /** No deadlock: while some goroutine has not returned, some goroutine can move. */
  lemma Progress(s: Sys, i: nat) returns (j: nat)
    requires Inv(s) && i < |s.agents| && !s.agents[i].stage.Refused? && !s.agents[i].stage.Done?
    ensures j < |s.agents| && CanMove(s, j)
  {
    var a := s.agents[i];
    j := i;
    if a.stage.Asleep? { SleepersLock(s, i); }
    if a.stage.Asleep? && s.Sema(a.call.read) == 0 {
      SleepersHaveHope(s, i, a.call.read);
      j := Someone(if Census(s.agents).Of(a.call.read).holds > 0 then Holds(a.call.read)
        else Acting(a.call.read), s.agents);
    }
    Moves(s, j);
  }

  lemma SleepersLock(s: Sys, i: nat)
    requires Inv(s) && i < |s.agents| && s.agents[i].stage.Asleep?
    ensures s.agents[i].call.Lock?
  {
    var f :| InvAt(s, f);
    assert AgentOk(s.agents[i], f.closed);
  }

  // -------------------------------------------------------------- what a call returns

  predicate Closed(word: nat) { And(word, MUTEX_CLOSED) != 0 }

  /** Incref, IncrefAndClose and RWLock only return false when the fd is closed. */
  lemma RefusedOnlyWhenClosed(s: Sys, i: nat)
    requires Inv(s) && i < |s.agents| && s.agents[i].stage.Refused?
    ensures Closed(s.word)
  {
    var f :| InvAt(s, f);
    assert AgentOk(s.agents[i], f.closed);
    MaskLow(f);
  }

  /** They only return true when it was open, and then it is held; nobody acquires a closed fd. */
  lemma AcquiredWhenOpen(s: Sys, i: nat)
    requires Inv(s) && i < |s.agents| && Act(s, i).Next?
    requires !Holding(s.agents[i].stage) && Holding(Act(s, i).s.agents[i].stage)
    ensures !Closed(s.word) && s.agents[i].stage == Seen(s.word, s.agents[i].stage.woken)
  {
    var f :| InvAt(s, f);
    assert AgentOk(s.agents[i], f.closed);
    var g: Fields :| Was(s.agents[i].stage.was, g) && HasRoom(g) && (g.closed ==> f.closed);
    NoAcquirePanic(s.agents[i].call, g);
    PackInjective(f, g);
    MaskLow(f);
  }

  /** It has acquired and let go. */
  predicate PastHolding(stage: Stage) { stage.Signalling? || stage.Done? }

  lemma ReleasesWhatItHolds(s: Sys, i: nat, j: nat)
    requires i < |s.agents| && j < |s.agents| && Act(s, i).Next?
    ensures |Act(s, i).s.agents| == |s.agents| && Act(s, i).s.agents[j].call == s.agents[j].call
    ensures PastHolding(Act(s, i).s.agents[j].stage) ==> PastHolding(s.agents[j].stage) || s.agents[j].stage.Letting?
  {}

  /** Whoever has returned otherwise than refused did acquire before: it held what it asked for. */
  lemma {:induction false} ReturnedHasHeld(trace: seq<Sys>, k: nat, i: nat) returns (h: nat)
    requires Run(trace) && k < |trace| && i < |trace[k].agents| && PastHolding(trace[k].agents[i].stage)
    ensures h < k && i < |trace[h].agents| && trace[h].agents[i].stage.Letting?
    ensures trace[h].agents[i].call == trace[k].agents[i].call
  {
    assert k > 0;
    var s, s' := trace[k - 1], trace[k];
    assert Step(s, s');
    if a :| 0 <= a < |s.agents| && Act(s, a) == Next(s') {
      ReleasesWhatItHolds(s, a, i);
    } else {
      assert i < |s.agents|;
    }
    if s.agents[i].stage.Letting? { h := k - 1; } else { h := ReturnedHasHeld(trace, k - 1, i); }
  }

  /** While nobody closes the fd nobody is refused. */
  lemma OpenRefusesNobody(trace: seq<Sys>, k: nat, i: nat)
    requires Run(trace) && k < |trace| && i < |trace[k].agents|
    requires forall j :: 0 <= j < |trace[k].agents| ==> !trace[k].agents[j].call.Close?
    ensures !trace[k].agents[i].stage.Refused?
  {
    RunKeepsInv(trace, k);
    var s := trace[k];
    var f :| InvAt(s, f);
    if s.agents[i].stage.Refused? {
      assert AgentOk(s.agents[i], f.closed);
      var j := Someone(Closers, s.agents);
    }
  }
}
