/** The racing dial (src/net/dial.go:64-113, 247-360) as a state machine: the caller and two racers
    that share an unbuffered channel, a cancel channel and a timer, interleaved step by step. */
module Dial {
  import opened Search

  // -------------------------------------------------------------------- deadlines

  /** Times and durations are nanoseconds; the zero time stands for no deadline. */
  const NO_DEADLINE := 0
  const SANE_MINIMUM := 2_000_000_000

  /** The deadline for one address when remaining ones are pending; None when time has run out. */
  function PartialDeadline(now: int, deadline: int, remaining: int): Option<int>
    requires remaining > 0
  {
    if deadline == NO_DEADLINE then Some(NO_DEADLINE)
    else if deadline - now <= 0 then None
    else
      var left := deadline - now;
      var share := left / remaining;
      Some(now + if share < SANE_MINIMUM then (if left < SANE_MINIMUM then left else SANE_MINIMUM) else share)
  }

  /** Every address gets an equal share of the time left, to the nanosecond, but at least a sane minimum of two seconds
      if there is that much left, and never more than what is left. */
  lemma PartialDeadlineFair(now: int, deadline: int, remaining: int)
    requires remaining > 0 && deadline != NO_DEADLINE && deadline > now
    ensures var r, left := PartialDeadline(now, deadline, remaining), deadline - now;
      && r.Some? && now < r.value <= deadline && (remaining == 1 ==> r.value == deadline)
      && (left >= remaining * 2_000_000_000 ==> remaining * (r.value - now) <= left < remaining * (r.value - now + 1))
      && (left < remaining * 2_000_000_000 ==>
        r.value == if left < 2_000_000_000 then deadline else now + 2_000_000_000)
  {
    Share(deadline - now, remaining, (deadline - now) / remaining);
  }

  lemma Share(left: int, n: int, share: int)
    requires left > 0 && n > 0 && share == left / n
    ensures n * share <= left < n * (share + 1) && 0 <= share <= left
    ensures share >= 2_000_000_000 <==> left >= n * 2_000_000_000
  {
    assert n * share + left % n == left && 0 <= left % n < n;
    Grows(n, share + 1, 2_000_000_000);
    Grows(n, 2_000_000_000, share);
    Grows(share, 1, n);
  }

  lemma Grows(n: int, a: int, b: int)
    ensures n >= 0 && a <= b ==> n * a <= n * b
  {}

  // ------------------------------------------------------------------------ states

  /** Errors of a racer, with the index of the address they are about. */
  datatype Err = Failed(addr: nat, code: int) | OutOfTime(addr: nat) | Cancelled(addr: nat) | Missing

  /** What dialSerial returns: a connection or an error. */
  datatype Result = Result(conn: Option<nat>, err: Option<Err>)

  datatype Racer =
    | Waiting                                  // the fallback racer, before its delay is over
    | Dialing(i: nat, first: Option<Err>)      // about to try address i
    | Trying(i: nat, first: Option<Err>)       // inside the dial of address i
    | Offering(res: Result)                    // in the select: send the result, or notice cancel
    | Losing(res: Result)                      // has noticed cancel; about to close its connection
    | Finished(res: Result, sent: bool)
    | Skipped                                  // cancelled before its delay was over

  /** Fired: the expiry is in the timer's channel. Off: stopped, or the expiry has been consumed. */
  datatype Timer = Running | Fired | Off

  datatype Caller =
    | Receiving(n: nat, primaryErr: Option<Err>)
    | Got(res: Result, primary: bool, n: nat, primaryErr: Option<Err>)
    | Leaving(res: Result)                     // about to close cancel
    | Left(res: Result)

  datatype Sys = Sys(primary: Racer, fallback: Racer, timer: Timer, cancelled: bool, caller: Caller, open: set<nat>,
      next: nat) {
    function Of(p: bool): Racer { if p then primary else fallback }

    function Set(p: bool, r: Racer): Sys { if p then this.(primary := r) else this.(fallback := r) }
  }

  /** How many addresses each racer has, and the deadline of the whole dial. */
  datatype Race = Race(primaries: nat, fallbacks: nat, deadline: int) {
    function Addresses(p: bool): nat { if p then primaries else fallbacks }
  }

  function Initial(): Sys { Sys(Dialing(0, None), Waiting, Running, false, Receiving(2, None), {}, 0) }

  /** What can happen next; p says which racer. */
  datatype Event =
    | TimerFires | DelayOver | Skip
    | Attempt(p: bool, now: int) | Connects(p: bool) | Fails(p: bool, code: int)
    | Offer(p: bool) | Notice(p: bool) | CloseLost(p: bool)
    | Handle | CloseCancel

  /** The loop head of dialSerial for address i. */
  function AttemptAt(n: nat, deadline: int, cancelled: bool, now: int, i: nat, first: Option<Err>): Racer {
    if i >= n then Offering(Result(None, Some(if first.Some? then first.value else Missing)))
    else if cancelled then Offering(Result(None, Some(Cancelled(i))))
    else if PartialDeadline(now, deadline, n - i).None? then
      Offering(Result(None, Some(if first.Some? then first.value else OutOfTime(i))))
    else Trying(i, first)
  }

  /** The caller, after it has received a result. */
  function Handled(s: Sys): Sys
    requires s.caller.Got?
  {
    var Got(res, primary, n, primaryErr) := s.caller;
    var stopped := s.timer.Running?;
    var timer := if !stopped then s.timer else if res.err.Some? then Running else Off;
    var err := if primary then res.err else primaryErr;
    s.(timer := timer, caller :=
      if res.err.None? then Leaving(Result(res.conn, None))
      else if n <= 1 then Leaving(Result(None, err))
      else Receiving(n - 1, err))
  }

  /** One step; None when the event cannot happen in s. */
  function Do(race: Race, s: Sys, e: Event): Option<Sys> {
    match e
    case TimerFires => if s.timer.Running? then Some(s.(timer := Fired)) else None
    case DelayOver =>
      if s.fallback.Waiting? && s.timer.Fired? then Some(s.(timer := Off, fallback := Dialing(0, None))) else None
    case Skip => if s.fallback.Waiting? && s.cancelled then Some(s.(fallback := Skipped)) else None
    case Attempt(p, now) =>
      if s.Of(p).Dialing?
      then Some(s.Set(p, AttemptAt(race.Addresses(p), race.deadline, s.cancelled, now, s.Of(p).i, s.Of(p).first)))
        else None
    case Connects(p) =>
      if s.Of(p).Trying?
      then Some(s.(open := s.open + {s.next}, next := s.next + 1).Set(p, Offering(Result(Some(s.next), None))))
        else None
    case Fails(p, code) =>
      if s.Of(p).Trying?
      then Some(s.Set(p, Dialing(s.Of(p).i + 1, Some(if s.Of(p).first.Some? then s.Of(p).first.value
        else Failed(s.Of(p).i, code))))) else None
    case Offer(p) =>
      if s.Of(p).Offering? && s.caller.Receiving?
      then Some(s.(caller := Got(s.Of(p).res, p, s.caller.n, s.caller.primaryErr)).Set(p, Finished(s.Of(p).res, true)))
        else None
    case Notice(p) => if s.Of(p).Offering? && s.cancelled then Some(s.Set(p, Losing(s.Of(p).res))) else None
    case CloseLost(p) =>
      if s.Of(p).Losing? then Some(s.(open := s.open - Conns(s.Of(p).res)).Set(p, Finished(s.Of(p).res, false)))
        else None
    case Handle => if s.caller.Got? then Some(Handled(s)) else None
    case CloseCancel => if s.caller.Leaving? then Some(s.(cancelled := true, caller := Left(s.caller.res))) else None
  }

  function Conns(res: Result): set<nat> { if res.conn.Some? then {res.conn.value} else {} }

  // --------------------------------------------------------------------- invariant

  /** The connections a racer still has to hand over or close. */
  function Holds(r: Racer): set<nat> { if r.Offering? || r.Losing? then Conns(r.res) else {} }

  function HeldByCaller(c: Caller): set<nat> { if c.Receiving? then {} else Conns(c.res) }

  predicate OneOf(res: Result) { res.conn.Some? <==> res.err.None? }

  /** The error of a racer that has not been cancelled is about its first address. */
  predicate AboutFirst(err: Err, n: nat) {
    match err
    case Failed(addr, _) => addr == 0 && n > 0
    case OutOfTime(addr) => addr == 0 && n > 0
    case Cancelled(_) => false
    case Missing => n == 0
  }

  predicate RacerOk(r: Racer, n: nat, cancelled: bool) {
    match r
    case Waiting => true
    case Dialing(i, first) => i <= n && (first.Some? <==> i > 0) && (first.Some? ==> AboutFirst(first.value, n))
    case Trying(i, first) => i < n && (first.Some? <==> i > 0) && (first.Some? ==> AboutFirst(first.value, n))
    case Offering(res) => OneOf(res) && (res.err.Some? && !cancelled ==> AboutFirst(res.err.value, n))
    case Losing(res) => OneOf(res) && cancelled
    case Finished(res, sent) => OneOf(res) && (!sent ==> cancelled) &&
      (sent && res.err.Some? ==> AboutFirst(res.err.value, n))
    case Skipped => cancelled
  }

  predicate Sent(r: Racer) { r.Finished? && r.sent }

  predicate SentError(r: Racer, err: Option<Err>) { Sent(r) && r.res.err.Some? && r.res.err == err }

  function Count(s: Sys): nat { (if Sent(s.primary) then 1 else 0) + (if Sent(s.fallback) then 1 else 0) }

  /** The caller has received from as many racers as it has counted down, and knows the primary's error. */
  predicate CallerOk(s: Sys) {
    match s.caller
    case Receiving(n, err) =>
      && n == 2 - Count(s) && n >= 1
      && (if Sent(s.primary) then SentError(s.primary, err) else err.None?)
      && (Sent(s.fallback) ==> s.fallback.res.err.Some?)
    case Got(res, p, n, err) =>
      && n == 3 - Count(s) && Sent(s.Of(p)) && s.Of(p).res == res
      && (if Sent(s.primary) && !p then SentError(s.primary, err) else err.None?)
      && (p && Sent(s.fallback) ==> s.fallback.res.err.Some?)
    case Leaving(res) => Outcome(s, res)
    case Left(res) => Outcome(s, res)
  }

  /** The caller's result: a connection that a racer sent, or, both having failed, the primary's error. */
  predicate Outcome(s: Sys, res: Result) {
    if res.conn.Some? then
      res.err.None? && ((Sent(s.primary) && s.primary.res == res) || (Sent(s.fallback) && s.fallback.res == res))
    else SentError(s.primary, res.err) && Sent(s.fallback) && s.fallback.res.err.Some?
  }

  predicate Inv(race: Race, s: Sys) {
    && RacerOk(s.primary, race.primaries, s.cancelled) && RacerOk(s.fallback, race.fallbacks, s.cancelled)
    && !s.primary.Waiting? && !s.primary.Skipped?
    && CallerOk(s)
    && (s.cancelled <==> s.caller.Left?)
    && (s.fallback.Waiting? ==> s.timer != Off || s.caller.Leaving? || s.caller.Left?)
    && ((s.caller.Leaving? || s.caller.Left?) && s.caller.res.conn.Some? ==> !s.timer.Running?)
    && s.open == Holds(s.primary) + Holds(s.fallback) + HeldByCaller(s.caller)
    && Holds(s.primary) !! Holds(s.fallback) && Holds(s.primary) !! HeldByCaller(s.caller) &&
      Holds(s.fallback) !! HeldByCaller(s.caller)
    && forall c :: c in s.open ==> c < s.next
  }

  lemma AttemptKeeps(race: Race, s: Sys, p: bool, now: int)
    requires Inv(race, s) && Do(race, s, Attempt(p, now)).Some?
    ensures Inv(race, Do(race, s, Attempt(p, now)).value)
  {}

  lemma ConnectsKeeps(race: Race, s: Sys, p: bool)
    requires Inv(race, s) && Do(race, s, Connects(p)).Some?
    ensures Inv(race, Do(race, s, Connects(p)).value)
  {}

  lemma FailsKeeps(race: Race, s: Sys, p: bool, code: int)
    requires Inv(race, s) && Do(race, s, Fails(p, code)).Some?
    ensures Inv(race, Do(race, s, Fails(p, code)).value)
  {}

  lemma OfferKeeps(race: Race, s: Sys, p: bool)
    requires Inv(race, s) && Do(race, s, Offer(p)).Some?
    ensures Inv(race, Do(race, s, Offer(p)).value)
  {}

  lemma LoseKeeps(race: Race, s: Sys, p: bool)
    requires Inv(race, s) && Do(race, s, Notice(p)).Some?
    ensures Inv(race, Do(race, s, Notice(p)).value)
  {}

  lemma CloseLostKeeps(race: Race, s: Sys, p: bool)
    requires Inv(race, s) && Do(race, s, CloseLost(p)).Some?
    ensures Inv(race, Do(race, s, CloseLost(p)).value)
  {}

  lemma HandleKeeps(race: Race, s: Sys)
    requires Inv(race, s) && Do(race, s, Handle).Some?
    ensures Inv(race, Do(race, s, Handle).value)
  {}

  /** Every step of every interleaving keeps the invariant. */
  lemma StepKeepsInv(race: Race, s: Sys, e: Event)
    requires Inv(race, s) && Do(race, s, e).Some?
    ensures Inv(race, Do(race, s, e).value)
  {
    match e {
      case Attempt(p, now) => AttemptKeeps(race, s, p, now);
      case Connects(p) => ConnectsKeeps(race, s, p);
      case Fails(p, code) => FailsKeeps(race, s, p, code);
      case Offer(p) => OfferKeeps(race, s, p);
      case Notice(p) => LoseKeeps(race, s, p);
      case CloseLost(p) => CloseLostKeeps(race, s, p);
      case Handle => HandleKeeps(race, s);
      case _ =>
    }
  }

  // ---------------------------------------------------------------------- promises

  /** The state after a sequence of events; None if one of them could not happen. */
  function Play(race: Race, events: seq<Event>): Option<Sys> {
    if events == [] then Some(Initial())
    else match Play(race, events[..|events| - 1]) {
      case None => None
      case Some(s) => Do(race, s, events[|events| - 1])
    }
  }

  lemma {:induction false} PlayKeepsInv(race: Race, events: seq<Event>)
    requires Play(race, events).Some?
    ensures Inv(race, Play(race, events).value)
  {
    if events != [] {
      var before := events[..|events| - 1];
      PlayKeepsInv(race, before);
      StepKeepsInv(race, Play(race, before).value, events[|events| - 1]);
    }
  }

  predicate Over(r: Racer) { r.Finished? || r.Skipped? }

  /** In every interleaving: once the caller has returned and the racers are done, the one
      connection left open is the one returned, and none is when the dial failed. */
  lemma NothingLeaks(race: Race, events: seq<Event>)
    requires Play(race, events).Some?
    ensures var s := Play(race, events).value; s.caller.Left? && Over(s.primary) && Over(s.fallback) ==>
      s.open == Conns(s.caller.res)
  {
    PlayKeepsInv(race, events);
  }

  /** Whatever is open at any time is held by exactly one of the three, who will close it or return it. */
  lemma OpenIsHeld(race: Race, events: seq<Event>, c: nat)
    requires Play(race, events).Some? && c in Play(race, events).value.open
    ensures var s := Play(race, events).value;
      var holders := [Holds(s.primary), Holds(s.fallback), HeldByCaller(s.caller)];
      exists k :: 0 <= k < 3 && c in holders[k] && forall m :: 0 <= m < 3 && m != k ==> c !in holders[m]
  {
    PlayKeepsInv(race, events);
    var s := Play(race, events).value;
    var holders := [Holds(s.primary), Holds(s.fallback), HeldByCaller(s.caller)];
    var k := if c in Holds(s.primary) then 0 else if c in Holds(s.fallback) then 1 else 2;
    assert c in holders[k] && forall m :: 0 <= m < 3 && m != k ==> c !in holders[m];
  }

  // ------------------------------------------------------ what a racer has done for its result

  /** The events that are the dials of racer p, in order: an attempt for one address after the
      other, and how each came out. */
  function Dials(events: seq<Event>, p: bool): seq<Event> {
    if events == [] then []
    else
      var e := events[|events| - 1];
      Dials(events[..|events| - 1], p) + if IsDial(e, p) then [e] else []
  }

  /** The first k addresses have been attempted, before the deadline, and all have failed. */
  predicate AllFailed(h: seq<Event>, deadline: int, k: nat) {
    2 * k <= |h| && forall j :: 0 <= j < k ==> InTime(h, deadline, j) && h[2 * j + 1].Fails?
  }

  /** Address j has been attempted, and before the deadline, if there is one. */
  predicate InTime(h: seq<Event>, deadline: int, j: nat) {
    2 * j < |h| && h[2 * j].Attempt? && (deadline == 0 || h[2 * j].now < deadline)
  }

  /** The deadline had passed when address j was to be attempted. */
  predicate TooLate(h: seq<Event>, deadline: int, j: nat) {
    2 * j < |h| && h[2 * j].Attempt? && deadline != 0 && h[2 * j].now >= deadline
  }

  /** The error of the first address, if k have failed. */
  function FirstOf(h: seq<Event>, k: nat): Option<Err> {
    if k > 0 && |h| > 1 && h[1].Fails? then Some(Failed(0, h[1].code)) else None
  }

  /** A connection is the first that could be made; an error that every address of n has failed, or
      that the deadline had passed at the first one not tried, or that the race was over. */
  ghost predicate Earned(n: nat, deadline: int, res: Result, h: seq<Event>) {
    exists k: nat :: k <= n && EarnedAt(n, deadline, res, h, k)
  }

  predicate EarnedAt(n: nat, deadline: int, res: Result, h: seq<Event>, k: nat) {
    && AllFailed(h, deadline, k)
    && (res.conn.Some? ==> k < n && InTime(h, deadline, k) && |h| == 2 * k + 2 && h[2 * k + 1].Connects?)
    && (res.conn.None? ==> |h| == 2 * k + 1 && h[2 * k].Attempt? && EarnedError(n, deadline, res.err, h, k))
  }

  predicate EarnedError(n: nat, deadline: int, err: Option<Err>, h: seq<Event>, k: nat) {
    match err
    case None => false
    case Some(Failed(_, _)) => k > 0 && err == FirstOf(h, k) && (k == n || TooLate(h, deadline, k))
    case Some(OutOfTime(addr)) => k == 0 < n && addr == 0 && TooLate(h, deadline, 0)
    case Some(Missing) => k == n == 0
    case Some(Cancelled(addr)) => addr == k < n
  }

  /** How far a racer is, by its dials. */
  ghost predicate OnCourse(n: nat, deadline: int, r: Racer, h: seq<Event>) {
    match r
    case Waiting => h == []
    case Skipped => h == []
    case Dialing(i, first) => |h| == 2 * i && i <= n && AllFailed(h, deadline, i) && first == FirstOf(h, i)
    case Trying(i, first) =>
      |h| == 2 * i + 1 && i < n && AllFailed(h, deadline, i) && InTime(h, deadline, i) && first == FirstOf(h, i)
    case Offering(res) => Earned(n, deadline, res, h)
    case Losing(res) => Earned(n, deadline, res, h)
    case Finished(res, _) => Earned(n, deadline, res, h)
  }

  lemma FirstKept(h: seq<Event>, deadline: int, k: nat, e: Event)
    requires AllFailed(h, deadline, k)
    ensures FirstOf(h + [e], k) == FirstOf(h, k) && (k > 0 ==> FirstOf(h, k).Some?)
  {
    if k > 0 { assert InTime(h, deadline, 0) && (h + [e])[1] == h[1]; }
  }

  lemma AttemptOnCourse(race: Race, s: Sys, p: bool, now: int, h: seq<Event>)
    requires s.Of(p).Dialing? && OnCourse(race.Addresses(p), race.deadline, s.Of(p), h)
    ensures OnCourse(race.Addresses(p), race.deadline, Do(race, s, Attempt(p, now)).value.Of(p), h + [Attempt(p, now)])
  {
    var n, i, h' := race.Addresses(p), s.Of(p).i, h + [Attempt(p, now)];
    assert AllFailed(h', race.deadline, i) && h'[2 * i] == Attempt(p, now);
    FirstKept(h, race.deadline, i, Attempt(p, now));
    var r := Do(race, s, Attempt(p, now)).value.Of(p);
    if r.Offering? { assert EarnedAt(n, race.deadline, r.res, h', i); }
  }

  lemma OutcomeOnCourse(race: Race, s: Sys, e: Event, h: seq<Event>)
    requires (e.Connects? || e.Fails?) && s.Of(e.p).Trying?
    requires OnCourse(race.Addresses(e.p), race.deadline, s.Of(e.p), h)
    ensures OnCourse(race.Addresses(e.p), race.deadline, Do(race, s, e).value.Of(e.p), h + [e])
  {
    var n, i, h' := race.Addresses(e.p), s.Of(e.p).i, h + [e];
    assert h'[2 * i + 1] == e && AllFailed(h', race.deadline, i) && InTime(h', race.deadline, i);
    FirstKept(h, race.deadline, i, e);
    if e.Connects? { assert EarnedAt(n, race.deadline, Result(Some(s.next), None), h', i); }
  }

  predicate IsDial(e: Event, p: bool) { (e.Attempt? || e.Connects? || e.Fails?) && e.p == p }

  /** Any other event leaves the racer where it is, or moves it on with the same result. */
  lemma OtherOnCourse(race: Race, s: Sys, e: Event, p: bool, h: seq<Event>)
    requires Do(race, s, e).Some? && !IsDial(e, p) && OnCourse(race.Addresses(p), race.deadline, s.Of(p), h)
    ensures OnCourse(race.Addresses(p), race.deadline, Do(race, s, e).value.Of(p), h)
  {
    var r, r' := s.Of(p), Do(race, s, e).value.Of(p);
    assert r' == r || (h == [] && (r' == Skipped || r' == Dialing(0, None))) ||
      ((r.Offering? || r.Losing?) && (r'.Losing? || r'.Finished?) && r'.res == r.res);
  }

  /** Every event keeps both racers on their courses. */
  lemma StepOnCourse(race: Race, s: Sys, e: Event, p: bool, h: seq<Event>)
    requires Do(race, s, e).Some? && OnCourse(race.Addresses(p), race.deadline, s.Of(p), h)
    ensures OnCourse(race.Addresses(p), race.deadline, Do(race, s, e).value.Of(p), if IsDial(e, p) then h + [e] else h)
  {
    if !IsDial(e, p) {
      OtherOnCourse(race, s, e, p, h);
    } else if e.Attempt? {
      AttemptOnCourse(race, s, p, e.now, h);
    } else {
      OutcomeOnCourse(race, s, e, h);
    }
  }

  lemma DialsStep(events: seq<Event>, p: bool)
    requires events != []
    ensures var before, e := events[..|events| - 1], events[|events| - 1];
      Dials(events, p) == if IsDial(e, p) then Dials(before, p) + [e] else Dials(before, p)
  {}

  lemma {:induction false} PlayOnCourse(race: Race, events: seq<Event>, p: bool)
    requires Play(race, events).Some?
    ensures OnCourse(race.Addresses(p), race.deadline, Play(race, events).value.Of(p), Dials(events, p))
  {
    if events != [] {
      var before, e := events[..|events| - 1], events[|events| - 1];
      PlayOnCourse(race, before, p);
      StepOnCourse(race, Play(race, before).value, e, p, Dials(before, p));
      DialsStep(events, p);
      SameCourse(race.Addresses(p), race.deadline, Do(race, Play(race, before).value, e).value.Of(p),
        Play(race, events).value.Of(p), if IsDial(e, p) then Dials(before, p) + [e] else Dials(before, p),
        Dials(events, p));
    }
  }

  lemma SameCourse(n: nat, deadline: int, r: Racer, r': Racer, h: seq<Event>, h': seq<Event>)
    requires OnCourse(n, deadline, r, h) && r == r' && h == h'
    ensures OnCourse(n, deadline, r', h')
  {}

  /** In every interleaving a racer that has sent its result has tried its addresses in order, each
      once: up to the first that could be connected to, or else all of them, unless the deadline
      had passed at the first one that it has not tried. Its error is that of the first. */
  lemma ResultIsEarned(race: Race, events: seq<Event>, p: bool) returns (k: nat)
    requires Play(race, events).Some? && Sent(Play(race, events).value.Of(p))
    ensures var res, h, n := Play(race, events).value.Of(p).res, Dials(events, p), race.Addresses(p);
      && k <= n && AllFailed(h, race.deadline, k)
      && (res.conn.Some? ==> k < n && InTime(h, race.deadline, k) && h[2 * k + 1..] == [Connects(p)])
      && (res.conn.None? ==> |h| == 2 * k + 1 && (k == n || TooLate(h, race.deadline, k)))
      && (res.conn.None? ==>
        res.err == if n == 0 then Some(Missing) else if k == 0 then Some(OutOfTime(0)) else FirstOf(h, k))
  {
    PlayKeepsInv(race, events);
    PlayOnCourse(race, events, p);
    DialsAreOwn(events, p);
    var res, h := Play(race, events).value.Of(p).res, Dials(events, p);
    k :| k <= race.Addresses(p) && EarnedAt(race.Addresses(p), race.deadline, res, h, k);
  }

  lemma {:induction false} DialsAreOwn(events: seq<Event>, p: bool)
    ensures forall i :: 0 <= i < |Dials(events, p)| && Dials(events, p)[i].Connects? ==>
      Dials(events, p)[i] == Connects(p)
  {
    if events != [] { DialsAreOwn(events[..|events| - 1], p); }
  }

  /** All addresses of racer p have been tried and have failed, or as many as there was time for. */
  ghost predicate Exhausted(race: Race, events: seq<Event>, p: bool) {
    exists k: nat :: k <= race.Addresses(p) && AllFailed(Dials(events, p), race.deadline, k) &&
      (k == race.Addresses(p) || TooLate(Dials(events, p), race.deadline, k))
  }

  /** The caller returns a connection or an error, not both. A connection is one that a racer
      established and sent. An error means that both racers have tried all their addresses and
      failed, and it is the primary's, about the first primary address (or says that there was none). */
  lemma ResultIsRight(race: Race, events: seq<Event>)
    requires Play(race, events).Some? && Play(race, events).value.caller.Left?
    ensures var s := Play(race, events).value; var res := s.caller.res;
      match res.conn {
        case Some(c) => res.err.None? && c in s.open && (s.primary == Finished(res, true) ||
          s.fallback == Finished(res, true))
        case None => res.err.Some? && AboutFirst(res.err.value, race.primaries)
                     && s.primary == Finished(res, true) && s.fallback.Finished? && s.fallback.res.conn.None?
                     && Exhausted(race, events, true) && Exhausted(race, events, false)
      }
  {
    PlayKeepsInv(race, events);
    if Play(race, events).value.caller.res.conn.None? {
      var j := ResultIsEarned(race, events, true);
      var k := ResultIsEarned(race, events, false);
    }
  }

  /** The primary has a head start: before the fallback racer dials anything its delay is over, and that is when the
      timer has fired. */
  lemma {:induction false} HeadStart(race: Race, events: seq<Event>, i: nat) returns (j: nat, k: nat)
    requires Play(race, events).Some? && i < |events| && IsDial(events[i], false)
    ensures j < k < i && events[j] == TimerFires && events[k] == DelayOver
  {
    StepAt(race, events, i);
    k := Started(race, events[..i]);
    StepAt(race, events, k);
    j := HasFired(race, events[..k]);
  }

  /** Each event of a run could happen when it did. */
  lemma StepAt(race: Race, events: seq<Event>, i: nat)
    requires Play(race, events).Some? && i < |events|
    ensures Play(race, events[..i]).Some? && Do(race, Play(race, events[..i]).value, events[i]).Some?
  {
    PlayPrefix(race, events, i + 1);
    assert events[..i + 1][..i] == events[..i];
  }

  lemma {:induction false} PlayPrefix(race: Race, events: seq<Event>, k: nat)
    requires Play(race, events).Some? && k <= |events|
    ensures Play(race, events[..k]).Some?
    decreases |events|
  {
    if k == |events| {
      assert events[..k] == events;
    } else {
      PlayPrefix(race, events[..|events| - 1], k);
      assert events[..|events| - 1][..k] == events[..k];
    }
  }

  lemma {:induction false} Started(race: Race, events: seq<Event>) returns (k: nat)
    requires Play(race, events).Some?
    requires var r := Play(race, events).value.fallback; !r.Waiting? && !r.Skipped?
    ensures k < |events| && events[k] == DelayOver
  {
    assert events != [];
    k := |events| - 1;
    if events[k] != DelayOver { k := Started(race, events[..k]); }
  }

  lemma {:induction false} HasFired(race: Race, events: seq<Event>) returns (j: nat)
    requires Play(race, events).Some? && Play(race, events).value.timer.Fired?
    ensures j < |events| && events[j] == TimerFires
  {
    assert events != [];
    j := |events| - 1;
    if events[j] != TimerFires { j := HasFired(race, events[..j]); }
  }

  /** How many dials of racer p come out in these events. */
  function Outcomes(events: seq<Event>, p: bool): nat {
    if events == [] then 0
    else
      var e := events[|events| - 1];
      Outcomes(events[..|events| - 1], p) + if (e.Connects? || e.Fails?) && e.p == p then 1 else 0
  }

  /** Once the caller has returned no racer begins another dial: only one that it was in the middle of comes out. */
  lemma {:induction false} NoDialAfterReturn(race: Race, events: seq<Event>, more: seq<Event>, p: bool)
    requires Play(race, events).Some? && Play(race, events).value.caller.Left? && Play(race, events + more).Some?
    ensures Play(race, events + more).value.caller.Left?
    ensures Outcomes(more, p) + Trials(Play(race, events + more).value, p) <= Trials(Play(race, events).value, p)
    decreases |more|
  {
    if more == [] {
      assert events + more == events;
    } else {
      var before, e := more[..|more| - 1], more[|more| - 1];
      assert (events + more)[..|events + more| - 1] == events + before;
      NoDialAfterReturn(race, events, before, p);
      PlayKeepsInv(race, events + before);
      StepAfterReturn(race, Play(race, events + before).value, e, p);
    }
  }

  /** 1 if racer p is in the middle of a dial. */
  function Trials(s: Sys, p: bool): nat { if s.Of(p).Trying? then 1 else 0 }

  lemma StepAfterReturn(race: Race, s: Sys, e: Event, p: bool)
    requires Inv(race, s) && s.caller.Left? && Do(race, s, e).Some?
    ensures var s' := Do(race, s, e).value;
      s'.caller.Left? && Outcomes([e], p) + Trials(s', p) <= Trials(s, p)
  {
    assert [e][..0] == [];
  }

  predicate StillWaits(s: Sys) { (s.fallback.Waiting? || s.fallback.Skipped?) && s.timer == Off }

  /** Once a connection has been taken the timer does not fire any more: a fallback racer that was
      still waiting for its delay never dials. */
  lemma NoLateStart(race: Race, events: seq<Event>)
    requires Play(race, events).Some?
    ensures var s := Play(race, events).value;
      (s.caller.Leaving? || s.caller.Left?) && s.caller.res.conn.Some? && s.fallback.Waiting? && s.timer == Off ==>
        forall e: Event :: Do(race, s, e).Some? ==> StillWaits(Do(race, s, e).value)
    ensures var s := Play(race, events).value;
      (s.caller.Leaving? || s.caller.Left?) && s.caller.res.conn.Some? ==> !s.timer.Running?
  {
    PlayKeepsInv(race, events);
  }

  /** Whether something can happen to the caller or a racer; a dial that has been started comes to an end. */
  predicate CanGoOn(race: Race, s: Sys, e: Event) { Do(race, s, e).Some? }

  /** No deadlock: until the caller has returned and both racers are done, something can happen. */
  lemma Progress(race: Race, s: Sys, now: int) returns (e: Event)
    requires Inv(race, s) && !(s.caller.Left? && Over(s.primary) && Over(s.fallback))
    ensures CanGoOn(race, s, e)
  {
    if s.caller.Got? { return Handle; }
    if s.caller.Leaving? { return CloseCancel; }
    var p := !Over(s.primary);
    match s.Of(p) {
      case Waiting => e := if s.cancelled then Skip else if s.timer.Fired? then DelayOver else TimerFires;
      case Dialing(_, _) => e := Attempt(p, now);
      case Trying(_, _) => e := Connects(p);
      case Offering(_) => e := if s.cancelled then Notice(p) else Offer(p);
      case Losing(_) => e := CloseLost(p);
      case Finished(_, _) => e := Handle;
      case Skipped => e := Handle;
    }
  }

  function RacerRank(r: Racer, n: nat): nat {
    match r
    case Waiting => 2 * n + 5
    case Dialing(i, _) => if i <= n then 2 * (n - i) + 4 else 0
    case Trying(i, _) => if i <= n then 2 * (n - i) + 3 else 0
    case Offering(_) => 2
    case Losing(_) => 1
    case Finished(_, _) => 0
    case Skipped => 0
  }

  function CallerRank(c: Caller): nat {
    match c
    case Receiving(n, _) => 3 * n + 2
    case Got(_, _, n, _) => 3 * n + 1
    case Leaving(_) => 1
    case Left(_) => 0
  }

  function Rank(race: Race, s: Sys): nat {
    2 * (CallerRank(s.caller) + RacerRank(s.primary, race.primaries) + RacerRank(s.fallback, race.fallbacks)) +
      if s.timer.Running? then 1 else 0
  }

  lemma StepDescends(race: Race, s: Sys, e: Event)
    requires Inv(race, s) && Do(race, s, e).Some?
    ensures Rank(race, Do(race, s, e).value) < Rank(race, s)
  {
    if e.Attempt? { assert AttemptAt(race.Addresses(e.p), race.deadline, s.cancelled, e.now, s.Of(e.p).i,
      s.Of(e.p).first) != s.Of(e.p); }
  }

  /** Every run is finite: the whole race takes a number of steps linear in the number of addresses. */
  lemma {:induction false} RaceEnds(race: Race, events: seq<Event>)
    requires Play(race, events).Some?
    ensures |events| + Rank(race, Play(race, events).value) <= 4 * (race.primaries + race.fallbacks) + 35
  {
    if events != [] {
      var before := events[..|events| - 1];
      RaceEnds(race, before);
      PlayKeepsInv(race, before);
      StepDescends(race, Play(race, before).value, events[|events| - 1]);
    }
  }
}
