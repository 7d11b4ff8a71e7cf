/** The choice of engine (src/regexp/exec.go:425-477): the backtracker for short texts, the
    simulation otherwise. Whichever runs, the answer is the same. */
module Exec {
  import opened Search
  import opened RegexpProg
  import opened BitTable
  import opened MatchSpec
  import opened Backtrack
  import opened Nfa

  predicate ShouldBacktrack(p: Prog) { |p.insts| <= MAX_BACKTRACK_PROG }

  /** Texts shorter than this go to the backtracker. */
  function MaxBitStateLen(p: Prog): nat
    requires p.insts != []
  {
    if !ShouldBacktrack(p) then 0 else MAX_BACKTRACK_VECTOR / |p.insts|
  }

  /** The size test is exact enough: the visited table of every search it lets through fits. */
  lemma VectorFits(p: Prog, size: nat)
    requires p.insts != [] && size < MaxBitStateLen(p)
    ensures VisitedSize(|p.insts|, size) <= MAX_BACKTRACK_VECTOR / VISITED_BITS
  {
    var n, q := |p.insts|, MAX_BACKTRACK_VECTOR / |p.insts|;
    Grows(n, size + 1, q);
    assert q * n <= MAX_BACKTRACK_VECTOR;
  }

  lemma Grows(n: nat, a: nat, b: nat)
    requires a <= b
    ensures n * a <= n * b
  {}

  /** What a search from pos has to return: nothing, or the submatches of the wanted run. */
  ghost function Answer(p: Prog, text: Text, longest: bool, ncap: nat, pos: nat): Option<seq<int>>
    requires pos <= |text|
  {
    var w := Wanted(p, text, longest, pos);
    if w.None? || w.value == [] then None else Some(Report(p, ncap, w.value))
  }

  lemma AnswerWanted(p: Prog, text: Text, longest: bool, ncap: nat, pos: nat)
    requires WellFormed(p) && pos <= |text|
    ensures Answer(p, text, longest, ncap, pos).Some? <==> exists s, q :: pos <= s <= |text| && Accepting(p, text, s, q)
    ensures Answer(p, text, longest, ncap, pos).Some? <==> Wanted(p, text, longest, pos).Some?
  {
    WantedExists(p, text, longest, pos);
    if Wanted(p, text, longest, pos).Some? { WantedMeaning(p, text, longest, pos); }
  }

  // ------------------------------------------------------------ when the engines agree

  /** No instruction leads to an InstFail. */
  predicate NoFailTargets(p: Prog) { forall i :: 0 <= i < |p.insts| ==> AvoidsFail(p, p.insts[i]) }

  predicate AvoidsFail(p: Prog, inst: Inst) {
    match inst
    case Alt(out, arg) => NotFail(p, out) && NotFail(p, arg)
    case Match => true
    case Fail => true
    case _ => NotFail(p, inst.out)
  }

  predicate NotFail(p: Prog, pc: nat) { pc < |p.insts| ==> !p.insts[pc].Fail? }

  lemma {:induction false} NoFailReached(p: Prog, text: Text, q: seq<Config>)
    requires NoFailTargets(p) && IsPath(Runs(p, text), q) && |q| > 1
    ensures !IsFail(p, q[|q| - 1])
    decreases |q|
  {
    RunsDomain(p, text);
    if |q| == 2 {
      assert q[1] in Runs(p, text)[q[0]];
      assert AvoidsFail(p, p.insts[q[0].pc]);
    } else {
      NoFailReached(p, text, q[1..]);
    }
  }

  /** Then no search can come to an InstFail, so the backtracker does not panic. */
  lemma NeverCrashes(p: Prog, text: Text, longest: bool, ncap: nat, pos: nat, last: nat)
    requires WellFormed(p) && NoFailTargets(p)
    ensures !Crashes(p, text, longest, ncap, pos, last)
  {
    forall s: nat ensures !CrashAt(p, text, longest, ncap, s) {
      var halts, start := Halts(p, text, longest, ncap), Config(p.start, s);
      NaiveSound(Runs(p, text), halts, {}, start);
      var h := Naive(Runs(p, text), halts, {}, start);
      if h.Some? && |h.value| > 1 { NoFailReached(p, text, h.value); }
    }
  }

  /** A program whose first alternative leads to InstFail. */
  const CRASHING := Prog([Fail, Alt(0, 2), Match], 1)

  /** On it the backtracker panics, although the empty text matches. */
  lemma MayCrash()
    ensures WellFormed(CRASHING) && !NoFailTargets(CRASHING)
    ensures Crashes(CRASHING, [], false, 2, 0, 0) && Answer(CRASHING, [], false, 2, 0).Some?
  {
    var p, text: Text := CRASHING, [];
    var g, h := Runs(p, text), Halts(p, text, false, 2);
    var c0, c1, c2 := Config(0, 0), Config(1, 0), Config(2, 0);
    RunsDomain(p, text);
    assert !AvoidsFail(p, p.insts[1]);
    assert g[c1] == [c0, c2] && IsFail(p, c0) && IsMatch(p, c2);
    assert Naive(g, h, {c1}, c0) == Some([c0]);
    assert NaiveFirst(g, h, {c1}, [c0, c2]) == Some([c0]);
    assert {} + {c1} == {c1};
    assert Naive(g, h, {}, c1) == Some([c1] + [c0]);
    assert CrashAt(p, text, false, 2, 0);
    var q := [c1, c2];
    assert q[1..] == [c2];
    assert Leads(g, Matches(p, text), c1, q);
    assert Accepting(p, text, 0, q);
    AnswerWanted(p, text, false, 2, 0);
  }

  /** Runs the engine that fits; reader says that the text is read from a rune reader. */
  method DoExecute(m: Machine, b: BitState, text: Text, reader: bool, pos: nat, cond: Option<EmptyOp>)
      returns (result: Option<seq<int>>, panicked: bool)
    requires WellFormed(m.prog) && StartCond(m.prog) == Some(cond) && pos <= |text| && m.ncap != 1
    requires m.Set() && b.prog == m.prog && b.longest == m.longest && m.ncap <= b.matchcap.Length
    requires b.cap != b.matchcap && b.visited as object != b.cap && b.visited as object != b.matchcap
    modifies m`pool, m`arena, m`matched, m.q0`dense, m.q0.sparse, m.q1`dense, m.q1.sparse, m.matchcap, m.arena
    modifies b`end, b`ncap, b`jobs, b`visited, b`cap, b`log, b`matched, b.visited, b.cap, b.matchcap
    ensures NoFailTargets(m.prog) ==> !panicked && result == Answer(m.prog, text, m.longest, m.ncap, pos)
    ensures !panicked ==> result == Answer(m.prog, text, m.longest, m.ncap, pos)
    ensures panicked <==> (!reader && |text| < MaxBitStateLen(m.prog) && Attempted(cond, pos) &&
                           Crashes(m.prog, text, m.longest, m.ncap, pos, LastStart(cond.value, pos, |text|)))
  {
    AnswerWanted(m.prog, text, m.longest, m.ncap, pos);
    if NoFailTargets(m.prog) && cond.Some? {
      NeverCrashes(m.prog, text, m.longest, m.ncap, pos, LastStart(cond.value, pos, |text|));
    }
    var found;
    panicked := false;
    if |text| < MaxBitStateLen(m.prog) && !reader {
      VectorFits(m.prog, |text|);
      ghost var steps;
      found, panicked, steps := b.Backtrack(text, pos, m.ncap, cond);
      result := if found then Some(b.matchcap[..m.ncap]) else None;
    } else {
      found := m.Match(text, pos, cond);
      result := if found then Some(m.matchcap.cap) else None;
    }
    if found && m.ncap == 0 {
      result := Some([]);
    }
  }
}
