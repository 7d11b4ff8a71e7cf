/** The account of Simulation, carried over the steps of the NFA machine: what happens to it
    when one thread of the run queue is skipped, dropped, moved or found at InstMatch. */
module StepBooks {
  import opened Search
  import opened RegexpProg
  import opened MatchSpec
  import opened Levels
  import opened Simulation

  /** The fixed terms of one search: from position lo in text, for ncap registers. */
  datatype Terms = Terms(prog: Prog, text: Text, longest: bool, ncap: nat, lo: nat, T: set<Config>,
      wanted: Option<seq<Config>>)

  ghost predicate Fair(g: Terms) {
    && WellFormed(g.prog) && g.lo <= |g.text| && g.ncap != 1
    && Identifies(g.prog, g.text, g.longest, g.lo, g.T, g.wanted)
  }

  /** The books in the middle of a step. With no registers to report the machine stops at any match. */
  ghost predicate Books(g: Terms, pos: nat, R: seq<Trail<Config>>, N: seq<Trail<Config>>, matched: bool,
      best: seq<Config>) {
    if g.ncap == 0 && matched then g.wanted.Some?
    else StepAccount(g.prog, g.text, g.longest, g.lo, g.T, g.wanted, pos, R, N, matched, best)
  }

  /** The threads that wait in the next queue; at the end of the text they are never run. */
  ghost predicate NextOk(g: Terms, pos: nat, N: seq<Trail<Config>>) {
    pos < |g.text| ==> Visits(g.prog, g.text, g.lo, pos, pos + 1, N)
  }

  /** Whether a rune instruction lets c pass; at the end of the text c is -1, and what passes then does not matter. */
  predicate Passes(inst: Inst, c: int) {
    match inst
    case Rune(_, accepts) => c in accepts
    case Rune1(_, rune) => c == rune
    case RuneAny(_) => true
    case RuneAnyNotNL(_) => c != NEWLINE
    case _ => false
  }

  /** Nothing is found from a waiting instruction whose rune is not there. */
  lemma Stuck(g: Terms, c: Config)
    requires Fair(g) && InRange(g.prog, g.text, c) && !IsMatch(g.prog, c) && Successors(g.prog, g.text, c) == []
    ensures Naive(Runs(g.prog, g.text), g.T, {}, c).None?
  {
    RunsDomain(g.prog, g.text);
  }

  lemma SkipPlace(g: Terms, pos: nat, R: seq<Trail<Config>>, N: seq<Trail<Config>>, matched: bool, best: seq<Config>)
    requires Fair(g) && Books(g, pos, R, N, matched, best) && R != []
    requires R[0].node.pc < |g.prog.insts| && !Waits(g.prog.insts[R[0].node.pc])
    ensures Books(g, pos, R[1..], N, matched, best)
  {
    LiveMembers(g.prog, g.text, g.T, pos);
    if !(g.ncap == 0 && matched) {
      Dead(g.prog, g.text, g.longest, g.lo, g.T, g.wanted, pos, R, N, matched, best);
    }
  }

  lemma DropLate(g: Terms, pos: nat, R: seq<Trail<Config>>, N: seq<Trail<Config>>, best: seq<Config>)
    requires Fair(g) && Books(g, pos, R, N, true, best) && R != [] && g.longest && g.ncap > 0
    requires best != [] && best[0].pos < R[0].Path()[0].pos
    ensures Books(g, pos, R[1..], N, true, best)
  {
    Drop(g.prog, g.text, g.lo, g.T, g.wanted, pos, R, N, best);
  }

  /** The queue after a thread t at a rune instruction has run, as the machine computes it. */
  ghost function AfterRune(g: Terms, pos: nat, t: Trail<Config>, N: seq<Trail<Config>>,
      nextCond: EmptyOp): seq<Trail<Config>>
    requires t.node.pc < |g.prog.insts| && Waits(g.prog.insts[t.node.pc]) && !g.prog.insts[t.node.pc].Match?
  {
    var i, nextPos := g.prog.insts[t.node.pc], pos + StepWidth(g.text, pos);
    if Passes(i, StepRune(g.text, pos)) then Explore(Level(g.prog, nextPos, nextCond),
      [Trail(t.Path(), Config(i.out, nextPos))], N) else N
  }

  lemma RuneMoved(g: Terms, pos: nat, t: Trail<Config>, N: seq<Trail<Config>>, nextCond: EmptyOp,
      N': seq<Trail<Config>>)
    requires t.node.pc < |g.prog.insts| && Waits(g.prog.insts[t.node.pc]) && !g.prog.insts[t.node.pc].Match?
    requires var i, nextPos := g.prog.insts[t.node.pc], pos + StepWidth(g.text, pos);
      N' == if Passes(i, StepRune(g.text, pos))
        then Explore(Level(g.prog, nextPos, nextCond), [Trail(t.Path(), Config(i.out, nextPos))], N) else N
    ensures N' == AfterRune(g, pos, t, N, nextCond)
  {}

  lemma AfterRuneMeans(g: Terms, pos: nat, t: Trail<Config>, N: seq<Trail<Config>>, nextCond: EmptyOp)
    requires t.node.pc < |g.prog.insts| && Waits(g.prog.insts[t.node.pc]) && !g.prog.insts[t.node.pc].Match?
    requires t.node.pos == pos < |g.text| && nextCond == Context(g.text, pos + 1)
    ensures AfterRune(g, pos, t, N, nextCond) ==
      if Consumes(g.prog.insts[t.node.pc], g.text[pos]) then Explore(Level(g.prog, pos + 1, Context(g.text, pos + 1)),
        [Moved(g.prog, t)], N) else N
  {
    assert Moved(g.prog, t) == Trail(t.Path(), Config(g.prog.insts[t.node.pc].out, pos + 1));
  }

  /** A thread at a rune instruction: on to the next queue, or gone. */
  lemma RuneStep(g: Terms, pos: nat, R: seq<Trail<Config>>, N: seq<Trail<Config>>, nextCond: EmptyOp, matched: bool,
      best: seq<Config>)
    requires Fair(g) && Books(g, pos, R, N, matched, best) && R != [] && NextOk(g, pos, N)
    requires pos <= |g.text| && RunTrail(g.prog, g.text, g.lo, pos, pos, R[0]) && R[0].node.pc > 0
    requires var i := g.prog.insts[R[0].node.pc]; Waits(i) && !i.Match?
    requires pos < |g.text| ==> nextCond == Context(g.text, pos + 1)
    ensures var N' := AfterRune(g, pos, R[0], N, nextCond);
      Books(g, pos, R[1..], N', matched, best) && NextOk(g, pos, N')
  {
    var N' := AfterRune(g, pos, R[0], N, nextCond);
    if pos < |g.text| { AfterRuneMeans(g, pos, R[0], N, nextCond); }
    if pos < |g.text| && Consumes(g.prog.insts[R[0].node.pc], g.text[pos]) {
      RuneConsumed(g, pos, R, N, N', nextCond, matched, best);
    } else {
      RuneMissed(g, pos, R, N, N', matched, best);
    }
  }

  lemma RuneMissed(g: Terms, pos: nat, R: seq<Trail<Config>>, N: seq<Trail<Config>>, N': seq<Trail<Config>>,
      matched: bool, best: seq<Config>)
    requires Fair(g) && Books(g, pos, R, N, matched, best) && R != []
    requires R[0].node.pos == pos <= |g.text| && 0 < R[0].node.pc < |g.prog.insts|
    requires var i := g.prog.insts[R[0].node.pc]; Waits(i) && !i.Match? && !(pos < |g.text| && Consumes(i, g.text[pos]))
    requires pos < |g.text| ==> N' == N
    ensures Books(g, pos, R[1..], N', matched, best)
  {
    Stuck(g, R[0].node);
    LiveMembers(g.prog, g.text, g.T, pos);
    if !(g.ncap == 0 && matched) {
      Dead(g.prog, g.text, g.longest, g.lo, g.T, g.wanted, pos, R, N, matched, best);
    }
  }

  lemma RuneConsumed(g: Terms, pos: nat, R: seq<Trail<Config>>, N: seq<Trail<Config>>, N': seq<Trail<Config>>,
      nextCond: EmptyOp, matched: bool, best: seq<Config>)
    requires Fair(g) && Books(g, pos, R, N, matched, best) && R != [] && NextOk(g, pos, N)
    requires pos < |g.text| && RunTrail(g.prog, g.text, g.lo, pos, pos, R[0]) && R[0].node.pc > 0
    requires Waits(g.prog.insts[R[0].node.pc]) && Consumes(g.prog.insts[R[0].node.pc], g.text[pos])
    requires N' == Explore(Level(g.prog, pos + 1, Context(g.text, pos + 1)), [Moved(g.prog, R[0])], N)
    ensures Books(g, pos, R[1..], N', matched, best) && NextOk(g, pos, N')
  {
    var M := AdvanceRest(g.prog, g.text, g.T, g.lo, pos, R, N);
    if !(g.ncap == 0 && matched) {
      SameAhead(g.prog, g.text, g.longest, g.lo, g.T, g.wanted, pos, R, N, R[1..], N', matched, best);
    }
  }

  /** Any match at all means that something is wanted. */
  lemma SomeMatch(g: Terms, pos: nat, t: Trail<Config>)
    requires Fair(g) && pos <= |g.text| && RunTrail(g.prog, g.text, g.lo, pos, pos, t) && IsMatch(g.prog, t.node)
    ensures g.wanted.Some? && Recorded(g.prog, g.text, g.lo, pos, true, t.Path())
  {
    RecordedAccepts(g.prog, g.text, g.lo, pos, t.Path());
  }

  lemma FirstMatchStep(g: Terms, pos: nat, R: seq<Trail<Config>>, N: seq<Trail<Config>>, matched: bool,
      best: seq<Config>)
    requires Fair(g) && Books(g, pos, R, N, matched, best) && R != [] && !g.longest
    requires pos <= |g.text| && RunTrail(g.prog, g.text, g.lo, pos, pos, R[0]) && R[0].node.pc > 0 &&
      IsMatch(g.prog, R[0].node)
    ensures Books(g, pos, [], N, true, R[0].Path())
  {
    SomeMatch(g, pos, R[0]);
    if g.ncap > 0 {
      MatchFirst(g.prog, g.text, g.lo, g.T, g.wanted, pos, R, N, matched, best);
    }
  }

  /** What the lists say at a match, with the wanted match ending where g says. */
  lemma AtMatch(g: Terms, pos: nat, R: seq<Trail<Config>>, N: seq<Trail<Config>>)
    requires Fair(g) && g.longest && g.wanted.Some? && pos <= |g.text| && R != []
    requires IsMatch(g.prog, R[0].node) && R[0].node.pos == pos && R[0].node.pc > 0
    ensures g.wanted.value != []
    ensures var e := g.wanted.value[|g.wanted.value| - 1].pos;
      Rest(g.prog, g.text, g.T, pos, R) == (if pos == e then Some(R[0].Path())
        else Rest(g.prog, g.text, g.T, pos, R[1..])) &&
      (pos == e ==> NextRest(g.prog, g.text, g.T, pos, N).None?)
    ensures var later := Later(g.prog, g.text, g.T, pos + 1); later.Some? ==>
      later.value != [] && later.value[0].pos >= pos + 1
  {
    MatchAhead(g.prog, g.text, g.T, pos, R, N, g.wanted.value[|g.wanted.value| - 1].pos);
  }

  /** The match to have on record after a match along P has been found at pos. */
  function Longer(matched: bool, best: seq<Config>, P: seq<Config>, pos: nat): seq<Config> {
    if !matched || best == [] || best[|best| - 1].pos < pos then P else best
  }

  lemma LongestRecord(g: Terms, pos: nat, R: seq<Trail<Config>>, N: seq<Trail<Config>>, matched: bool,
      best: seq<Config>)
    requires Fair(g) && g.longest && g.wanted.Some? && g.lo <= pos <= |g.text| && R != []
    requires StepAccount(g.prog, g.text, true, g.lo, g.T, g.wanted, pos, R, N, matched, best)
    requires IsMatch(g.prog, R[0].node) && R[0].node.pos == pos && R[0].node.pc > 0
    requires Recorded(g.prog, g.text, g.lo, pos, true, R[0].Path()) && R[0].Path()[0].pos <= pos
    requires matched ==> best != [] && R[0].Path()[0].pos <= best[0].pos
    ensures StepAccount(g.prog, g.text, true, g.lo, g.T, g.wanted, pos, R[1..], N, true,
      Longer(matched, best, R[0].Path(), pos))
  {
    AtMatch(g, pos, R, N);
    var next, later := NextRest(g.prog, g.text, g.T, pos, N), Later(g.prog, g.text, g.T, pos + 1);
    var here, rest := Rest(g.prog, g.text, g.T, pos, R), Rest(g.prog, g.text, g.T, pos, R[1..]);
    MatchLongest(g.prog, g.text, g.lo, g.T, g.wanted, pos, matched, best, R[0].Path(), next, here, rest, later);
  }

  lemma LongestMatchStep(g: Terms, pos: nat, R: seq<Trail<Config>>, N: seq<Trail<Config>>, matched: bool,
      best: seq<Config>)
    requires Fair(g) && Books(g, pos, R, N, matched, best) && R != [] && g.longest
    requires pos <= |g.text| && RunTrail(g.prog, g.text, g.lo, pos, pos, R[0]) && R[0].node.pc > 0 &&
      IsMatch(g.prog, R[0].node)
    requires matched && g.ncap > 0 ==> best != [] && R[0].Path()[0].pos <= best[0].pos
    ensures Books(g, pos, R[1..], N, true, Longer(matched, best, R[0].Path(), pos))
  {
    SomeMatch(g, pos, R[0]);
    if g.ncap > 0 { LongestRecord(g, pos, R, N, matched, best); }
  }

  /** The books between two steps. */
  ghost predicate TopBooks(g: Terms, pos: nat, L: seq<Trail<Config>>, matched: bool, best: seq<Config>) {
    && g.lo <= pos <= |g.text| && Visits(g.prog, g.text, g.lo, pos, pos, L)
    && if g.ncap == 0 && matched then g.wanted.Some?
       else Account(g.prog, g.text, g.longest, g.lo, g.T, g.wanted, pos, L, matched, best)
  }

  lemma OpenBooks(g: Terms)
    requires Fair(g)
    ensures TopBooks(g, g.lo, [], false, [])
  {
    NoThreads(g.prog, g.text, g.T, g.lo);
  }

  /** What the run queue lists once the step begins: a start thread joins until a match is on record. */
  ghost function WithStart(g: Terms, pos: nat, L: seq<Trail<Config>>, matched: bool): seq<Trail<Config>>
    requires pos <= |g.text|
  {
    if matched then L else Explore(Level(g.prog, pos, Context(g.text, pos)), [StartTrail(g.prog, pos)], L)
  }

  lemma BeginBooks(g: Terms, pos: nat, L: seq<Trail<Config>>, matched: bool, best: seq<Config>)
    requires Fair(g) && TopBooks(g, pos, L, matched, best)
    ensures var L' := WithStart(g, pos, L, matched);
      AllRuns(g.prog, g.text, g.lo, pos, pos, L') && NextOk(g, pos, []) && Books(g, pos, L', [], matched, best)
  {
    if matched {
      if g.ncap > 0 { BeginMatched(g.prog, g.text, g.longest, g.lo, g.T, g.wanted, pos, L, best); }
    } else {
      BeginUnmatched(g.prog, g.text, g.longest, g.lo, g.T, g.wanted, pos, L, best);
    }
  }

  lemma EndBooks(g: Terms, pos: nat, nextPos: nat, N: seq<Trail<Config>>, matched: bool, best: seq<Config>)
    requires Fair(g) && g.lo <= pos < |g.text| && Books(g, pos, [], N, matched, best) && NextOk(g, pos, N)
    requires nextPos == pos + 1
    ensures TopBooks(g, nextPos, N, matched, best)
  {
    WiderRuns(g, pos, N);
    if !(g.ncap == 0 && matched) { EndStep(g.prog, g.text, g.longest, g.lo, g.T, g.wanted, pos, N, matched, best); }
  }

  lemma WiderRuns(g: Terms, pos: nat, N: seq<Trail<Config>>)
    requires Visits(g.prog, g.text, g.lo, pos, pos + 1, N)
    ensures Visits(g.prog, g.text, g.lo, pos + 1, pos + 1, N)
  {
    forall i | 0 <= i < |N| ensures RunTrail(g.prog, g.text, g.lo, pos + 1, pos + 1, N[i]) {
      assert RunTrail(g.prog, g.text, g.lo, pos, pos + 1, N[i]);
    }
  }

  /** What the machine answers. */
  ghost predicate Answers(g: Terms, matched: bool, best: seq<Config>) {
    matched == g.wanted.Some? && (matched && g.ncap > 0 ==> g.wanted == Some(best))
  }

  lemma CloseAtEnd(g: Terms, N: seq<Trail<Config>>, matched: bool, best: seq<Config>)
    requires Fair(g) && Books(g, |g.text|, [], N, matched, best)
    ensures Answers(g, matched, best)
  {
    if !(g.ncap == 0 && matched) {
      NoThreads(g.prog, g.text, g.T, |g.text|);
      Balanced(g.prog, g.text, g.longest, g.lo, g.T, g.wanted, |g.text|, matched, best, None);
    }
  }

  /** The run queue is empty and a match is on record. */
  lemma CloseMatched(g: Terms, pos: nat, best: seq<Config>)
    requires Fair(g) && TopBooks(g, pos, [], true, best)
    ensures Answers(g, true, best)
  {
    if g.ncap > 0 {
      NoThreads(g.prog, g.text, g.T, pos);
      Balanced(g.prog, g.text, g.longest, g.lo, g.T, g.wanted, pos, true, best, Later(g.prog, g.text, g.T, pos));
    }
  }

  /** The run queue is empty past the beginning of the text, where every match would have to begin. */
  lemma CloseAnchored(g: Terms, pos: nat, matched: bool, best: seq<Config>, cond: EmptyOp)
    requires Fair(g) && TopBooks(g, pos, [], matched, best)
    requires StartCond(g.prog) == Some(Some(cond)) && BeginText in cond && pos > 0
    ensures Answers(g, matched, best)
  {
    if matched {
      CloseMatched(g, pos, best);
    } else {
      NoThreads(g.prog, g.text, g.T, pos);
      NothingLater(g, pos, cond);
      Balanced(g.prog, g.text, g.longest, g.lo, g.T, g.wanted, pos, false, best, None);
    }
  }

  lemma NothingLater(g: Terms, pos: nat, cond: EmptyOp)
    requires Fair(g) && pos <= |g.text| && StartCond(g.prog) == Some(Some(cond)) && BeginText in cond && pos > 0
    ensures Later(g.prog, g.text, g.T, pos).None?
  {
    if Later(g.prog, g.text, g.T, pos).Some? {
      var s := FirstNaiveAt(g.prog, g.text, g.T, pos, |g.text| + 1);
      CondHolds(g, s, Some(cond));
    }
  }

  /** The leading condition holds where a target can be reached. */
  lemma CondHolds(g: Terms, s: nat, cond: Option<EmptyOp>)
    requires Fair(g) && s <= |g.text| && StartCond(g.prog) == Some(cond)
    requires Naive(Runs(g.prog, g.text), g.T, {}, Start(g.prog, s)).Some?
    ensures cond.Some? && cond.value <= Context(g.text, s)
  {
    NaiveSound(Runs(g.prog, g.text), g.T, {}, Start(g.prog, s));
    var q := Naive(Runs(g.prog, g.text), g.T, {}, Start(g.prog, s)).value;
    StartCondSound(g.prog, g.text, g.prog.start, s, {}, |g.prog.insts| + 1, q);
  }

  lemma CloseImpossible(g: Terms)
    requires Fair(g) && StartCond(g.prog) == Some(None)
    ensures Answers(g, false, [])
  {
    if g.wanted.Some? {
      var s := FirstNaiveAt(g.prog, g.text, g.T, g.lo, |g.text| + 1);
      CondHolds(g, s, None);
    }
  }

  /** Registers 0 and 1 are the machine's own: no instruction sets them. */
  lemma {:induction false} OwnRegisters(p: Prog, ncap: nat, s: nat, path: seq<Config>)
    requires WellFormed(p) && ncap > 0
    ensures Registers(p, ncap, s, path)[0] == s
  {
    if path != [] {
      OwnRegisters(p, ncap, s, path[..|path| - 1]);
      var c := path[|path| - 1];
      if c.pc < |p.insts| { assert InstOk(p.insts[c.pc], |p.insts|); }
    }
  }

  lemma OwnReport(p: Prog, ncap: nat, path: seq<Config>)
    requires WellFormed(p) && ncap > 1 && path != []
    ensures Report(p, ncap, path)[0] == path[0].pos && Report(p, ncap, path)[1] == path[|path| - 1].pos
  {
    OwnRegisters(p, ncap, path[0].pos, path);
  }
}
