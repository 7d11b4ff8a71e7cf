/** The bit-state backtracker (src/regexp/backtrack.go): an explicit job stack, a
    visited bit for every (pc, pos), one capture array updated in place. */
module Backtrack {
  import opened Search
  import opened RegexpProg
  import opened BitTable

  const MAX_BACKTRACK_PROG := 500
  const MAX_BACKTRACK_VECTOR := 256 * 1024

  // -------------------------------------------------------- the job stack's meaning

  /** arg == 1 marks a job that comes back to an instruction; for InstCapture pos
      then holds the register value to restore. */
  datatype Job = Job(pc: nat, arg: int, pos: int)

  /** Equal registers, register 1 aside: the machine itself writes that one on a match. */
  ghost predicate Agree(a: seq<int>, b: seq<int>) {
    |a| == |b| && forall i :: 0 <= i < |a| && i != 1 ==> a[i] == b[i]
  }

  /** jobs stands for the pending trails todo, and undoing its register restorations one
      by one turns cap into the registers of each pending trail in turn. */
  ghost predicate Stands(p: Prog, s: nat, jobs: seq<Job>, todo: seq<Trail<Config>>, cap: seq<int>)
    decreases |jobs|
  {
    if jobs == [] then todo == [] && Agree(cap, Registers(p, |cap|, s, []))
    else
      var j := jobs[|jobs| - 1];
      var below := jobs[..|jobs| - 1];
      j.arg == 1 && j.pc < |p.insts| &&
      match p.insts[j.pc] {
        case Alt(_, arg) =>
          && j.pos >= 0 && todo != [] && todo[0].node == Config(arg, j.pos)
          && Agree(cap, Registers(p, |cap|, s, todo[0].prefix))
          && Stands(p, s, below, todo[1..], cap)
        case Capture(_, reg) =>
          reg < |cap| && Stands(p, s, below, todo, cap[reg := j.pos])
        case _ => false
      }
  }

  lemma {:induction false} StandsIgnoresOne(p: Prog, s: nat, jobs: seq<Job>, todo: seq<Trail<Config>>, cap: seq<int>,
      cap': seq<int>)
    requires Stands(p, s, jobs, todo, cap) && Agree(cap, cap')
    ensures Stands(p, s, jobs, todo, cap')
    decreases |jobs|
  {
    if jobs != [] {
      var j := jobs[|jobs| - 1];
      match p.insts[j.pc] {
        case Alt(_, arg) => StandsIgnoresOne(p, s, jobs[..|jobs| - 1], todo[1..], cap, cap');
        case Capture(_, reg) => StandsIgnoresOne(p, s, jobs[..|jobs| - 1], todo, cap[reg := j.pos], cap'[reg := j.pos]);
        case _ =>
      }
    }
  }

  lemma StandsPush(p: Prog, s: nat, jobs: seq<Job>, todo: seq<Trail<Config>>, cap: seq<int>, c: Config, reg: nat,
      pos: nat)
    requires Stands(p, s, jobs, todo, cap)
    requires c.pc < |p.insts| && p.insts[c.pc].Capture? && p.insts[c.pc].reg == reg < |cap|
    ensures Stands(p, s, jobs + [Job(c.pc, 1, cap[reg])], todo, cap[reg := pos])
  {
    var jobs' := jobs + [Job(c.pc, 1, cap[reg])];
    assert jobs'[..|jobs'| - 1] == jobs;
    assert cap[reg := pos][reg := cap[reg]] == cap;
  }

  // The three places of the search loop, as relations between what the machine holds and
  // the final exploration F: about to pop a job, about to check (pc, pos), and about to
  // execute the instruction of a trail t that has just been marked.

  ghost predicate Pops(p: Prog, text: Text, s: nat, F: seq<Trail<Config>>, jobs: seq<Job>, todo: seq<Trail<Config>>,
      cap: seq<int>, L: seq<Trail<Config>>) {
    F == Explore(Runs(p, text), todo, L) && Stands(p, s, jobs, todo, cap) && Inside(text, todo)
  }

  ghost predicate Checks(p: Prog, text: Text, s: nat, F: seq<Trail<Config>>, jobs: seq<Job>, todo: seq<Trail<Config>>,
      cap: seq<int>, L: seq<Trail<Config>>, c: Config) {
    && F == Explore(Runs(p, text), todo, L)
    && todo != [] && todo[0].node == c && InRange(p, text, c)
    && Agree(cap, Registers(p, |cap|, s, todo[0].prefix))
    && Stands(p, s, jobs, todo[1..], cap)
    && Inside(text, todo)
  }

  ghost predicate Executes(p: Prog, text: Text, s: nat, F: seq<Trail<Config>>, jobs: seq<Job>, t: Trail<Config>,
      rest: seq<Trail<Config>>, cap: seq<int>, L: seq<Trail<Config>>) {
    && InRange(p, text, t.node) && t.node in Runs(p, text)
    && F == Explore(Runs(p, text), Children(Runs(p, text), t) + rest, L)
    && Agree(cap, Registers(p, |cap|, s, t.prefix))
    && Stands(p, s, jobs, rest, cap)
    && Inside(text, rest)
  }

  ghost predicate Inside(text: Text, todo: seq<Trail<Config>>) {
    forall i :: 0 <= i < |todo| ==> todo[i].node.pos <= |text|
  }

  lemma CheckVisited(p: Prog, text: Text, s: nat, F: seq<Trail<Config>>, jobs: seq<Job>, todo: seq<Trail<Config>>,
      cap: seq<int>, L: seq<Trail<Config>>, c: Config)
    requires Checks(p, text, s, F, jobs, todo, cap, L, c) && c in Visited(L)
    ensures Pops(p, text, s, F, jobs, todo[1..], cap, L)
  {}

  lemma CheckNew(p: Prog, text: Text, s: nat, F: seq<Trail<Config>>, jobs: seq<Job>, todo: seq<Trail<Config>>,
      cap: seq<int>, L: seq<Trail<Config>>, c: Config)
    requires Checks(p, text, s, F, jobs, todo, cap, L, c) && c !in Visited(L)
    ensures Executes(p, text, s, F, jobs, todo[0], todo[1..], cap, L + [todo[0]])
  {
    RunsDomain(p, text);
  }

  lemma PopAlt(p: Prog, text: Text, s: nat, F: seq<Trail<Config>>, jobs: seq<Job>, todo: seq<Trail<Config>>,
      cap: seq<int>, L: seq<Trail<Config>>)
    requires WellFormed(p) && jobs != []
    requires Pops(p, text, s, F, jobs, todo, cap, L)
    requires var j := jobs[|jobs| - 1]; j.pc < |p.insts| && p.insts[j.pc].Alt?
    ensures jobs[|jobs| - 1].pos >= 0
    ensures var j := jobs[|jobs| - 1];
      Checks(p, text, s, F, jobs[..|jobs| - 1], todo, cap, L, Config(p.insts[j.pc].arg, j.pos))
  {
    assert InstOk(p.insts[jobs[|jobs| - 1].pc], |p.insts|);
  }

  lemma ExecutesExtends(p: Prog, text: Text, s: nat, F: seq<Trail<Config>>, jobs: seq<Job>, t: Trail<Config>,
      rest: seq<Trail<Config>>, cap: seq<int>, L: seq<Trail<Config>>)
    requires Executes(p, text, s, F, jobs, t, rest, cap, L)
    ensures L <= F
  {
    ExploreExtends(Runs(p, text), Children(Runs(p, text), t) + rest, L);
  }

  lemma NoSuccessor(p: Prog, text: Text, s: nat, F: seq<Trail<Config>>, jobs: seq<Job>, t: Trail<Config>,
      rest: seq<Trail<Config>>, cap: seq<int>, L: seq<Trail<Config>>)
    requires Executes(p, text, s, F, jobs, t, rest, cap, L) && Successors(p, text, t.node) == []
    ensures Pops(p, text, s, F, jobs, rest, cap, L)
  {
    RunsDomain(p, text);
    assert Children(Runs(p, text), t) + rest == rest;
  }

  lemma OneSuccessor(p: Prog, text: Text, s: nat, F: seq<Trail<Config>>, jobs: seq<Job>, t: Trail<Config>,
      rest: seq<Trail<Config>>, cap: seq<int>, L: seq<Trail<Config>>, c: Config)
      returns (todo: seq<Trail<Config>>)
    requires WellFormed(p) && Executes(p, text, s, F, jobs, t, rest, cap, L)
    requires Successors(p, text, t.node) == [c] && InRange(p, text, c)
    requires p.insts[t.node.pc].Capture? ==> p.insts[t.node.pc].reg >= |cap|
    ensures Checks(p, text, s, F, jobs, todo, cap, L, c)
  {
    RunsDomain(p, text);
    RegistersStep(p, |cap|, s, t);
    todo := Children(Runs(p, text), t) + rest;
    assert todo[1..] == rest && todo[0] == Trail(t.Path(), c);
  }

  lemma CaptureSuccessor(p: Prog, text: Text, s: nat, F: seq<Trail<Config>>, jobs: seq<Job>, t: Trail<Config>,
      rest: seq<Trail<Config>>, cap: seq<int>, L: seq<Trail<Config>>)
      returns (todo: seq<Trail<Config>>)
    requires WellFormed(p) && Executes(p, text, s, F, jobs, t, rest, cap, L)
    requires p.insts[t.node.pc].Capture? && p.insts[t.node.pc].reg < |cap|
    ensures var i := p.insts[t.node.pc];
      Checks(p, text, s, F, jobs + [Job(t.node.pc, 1, cap[i.reg])], todo, cap[i.reg := t.node.pos], L,
        Config(i.out, t.node.pos))
  {
    var i := p.insts[t.node.pc];
    assert InstOk(i, |p.insts|);
    RunsDomain(p, text);
    RegistersStep(p, |cap|, s, t);
    StandsPush(p, s, jobs, rest, cap, t.node, i.reg, t.node.pos);
    todo := Children(Runs(p, text), t) + rest;
    OnlyChild(p, text, t, Config(i.out, t.node.pos), rest);
  }

  lemma OnlyChild(p: Prog, text: Text, t: Trail<Config>, c: Config, rest: seq<Trail<Config>>)
    requires t.node in Runs(p, text) && InRange(p, text, t.node) && Successors(p, text, t.node) == [c]
    ensures var todo := Children(Runs(p, text), t) + rest;
      todo != [] && todo[0] == Trail(t.Path(), c) && todo[1..] == rest
  {
    RunsDomain(p, text);
  }

  lemma TwoChildren(p: Prog, text: Text, t: Trail<Config>, c: Config, d: Config, rest: seq<Trail<Config>>)
    requires t.node in Runs(p, text) && InRange(p, text, t.node) && Successors(p, text, t.node) == [c, d]
    ensures var todo := Children(Runs(p, text), t) + rest;
      todo != [] && todo[0] == Trail(t.Path(), c) && todo[1..] == [Trail(t.Path(), d)] + rest
  {
    RunsDomain(p, text);
  }

  /** A job to come back to stands for the second leg of an alternative. */
  lemma StandsRetry(p: Prog, s: nat, jobs: seq<Job>, todo: seq<Trail<Config>>, cap: seq<int>, c: Config,
      d: Trail<Config>)
    requires Stands(p, s, jobs, todo, cap) && Agree(cap, Registers(p, |cap|, s, d.prefix))
    requires c.pc < |p.insts| && p.insts[c.pc].Alt? && d.node == Config(p.insts[c.pc].arg, c.pos)
    ensures Stands(p, s, jobs + [Job(c.pc, 1, c.pos)], [d] + todo, cap)
  {
    var jobs' := jobs + [Job(c.pc, 1, c.pos)];
    assert jobs'[..|jobs'| - 1] == jobs && ([d] + todo)[1..] == todo;
  }

  lemma AltSuccessor(p: Prog, text: Text, s: nat, F: seq<Trail<Config>>, jobs: seq<Job>, t: Trail<Config>,
      rest: seq<Trail<Config>>, cap: seq<int>, L: seq<Trail<Config>>)
      returns (todo: seq<Trail<Config>>)
    requires WellFormed(p) && Executes(p, text, s, F, jobs, t, rest, cap, L)
    requires p.insts[t.node.pc].Alt?
    ensures Checks(p, text, s, F, jobs + [Job(t.node.pc, 1, t.node.pos)], todo, cap, L,
      Config(p.insts[t.node.pc].out, t.node.pos))
  {
    var i := p.insts[t.node.pc];
    assert InstOk(i, |p.insts|);
    RegistersStep(p, |cap|, s, t);
    StandsRetry(p, s, jobs, rest, cap, t.node, Trail(t.Path(), Config(i.arg, t.node.pos)));
    todo := Children(Runs(p, text), t) + rest;
    TwoChildren(p, text, t, Config(i.out, t.node.pos), Config(i.arg, t.node.pos), rest);
  }

  // ------------------------------------------------------------- choosing a match

  /** The match on record after the trails of L have been processed in order. */
  ghost function Best(p: Prog, longest: bool, L: seq<Trail<Config>>): Option<Trail<Config>> {
    if L == [] then None
    else
      var b := Best(p, longest, L[..|L| - 1]);
      var t := L[|L| - 1];
      if IsMatch(p, t.node) then Some(Better(longest, b, t)) else b
  }

  function Better(longest: bool, b: Option<Trail<Config>>, t: Trail<Config>): Trail<Config> {
    if b.None? || (longest && t.node.pos > b.value.node.pos) then t else b.value
  }

  lemma BestNext(p: Prog, longest: bool, done: seq<Trail<Config>>, t: Trail<Config>)
    requires IsMatch(p, t.node)
    ensures Best(p, longest, done + [t]) == Some(Better(longest, Best(p, longest, done), t))
  {
    assert (done + [t])[..|done + [t]| - 1] == done;
  }

  lemma ReportedFor(p: Prog, ncap: nat, s: nat, t: Trail<Config>, cap: seq<int>)
    requires IsMatch(p, t.node) && t.Path()[0].pos == s && ncap > 1
    requires Agree(cap, Registers(p, ncap, s, t.prefix))
    ensures Report(p, ncap, t.Path()) == cap[1 := t.node.pos]
  {
    RegistersStep(p, ncap, s, t);
  }

  lemma ReportEnds(p: Prog, ncap: nat, t: Trail<Config>, report: seq<int>)
    requires ncap > 1 && report == Report(p, ncap, t.Path())
    ensures |report| == ncap && report[1] == t.node.pos
  {}

  /** The report of the better of a match on record, with the report best, and another. */
  lemma BetterReport(p: Prog, ncap: nat, longest: bool, b: Option<Trail<Config>>, t: Trail<Config>, best: seq<int>)
      returns (report: seq<int>, want: seq<int>)
    requires ncap > 1 && (b.Some? ==> longest && best == Report(p, ncap, b.value.Path()))
    ensures report == Report(p, ncap, t.Path()) && want == Report(p, ncap, Better(longest, b, t).Path())
    ensures b.Some? ==> |best| == ncap && best[1] >= 0
    ensures want == if b.None? || t.node.pos > best[1] then report else best
  {
    report, want := Report(p, ncap, t.Path()), Report(p, ncap, Better(longest, b, t).Path());
    if b.Some? { ReportEnds(p, ncap, b.value, best); }
  }

  lemma {:induction false} BestIsMatch(p: Prog, longest: bool, L: seq<Trail<Config>>)
    ensures var b := Best(p, longest, L);
      && (b.Some? <==> exists i :: 0 <= i < |L| && IsMatch(p, L[i].node))
      && (b.Some? ==> IsMatch(p, b.value.node))
      && (b.Some? && longest ==> forall i :: 0 <= i < |L| && IsMatch(p, L[i].node) ==>
        L[i].node.pos <= b.value.node.pos)
  {
    if L != [] {
      var L' := L[..|L| - 1];
      BestIsMatch(p, longest, L');
      assert L == L' + [L[|L| - 1]];
      if Best(p, longest, L').Some? {
        var i :| 0 <= i < |L'| && IsMatch(p, L'[i].node);
        assert IsMatch(p, L[i].node);
      } else if IsMatch(p, L[|L| - 1].node) {
        assert Best(p, longest, L) == Some(L[|L| - 1]);
      }
      forall i | 0 <= i < |L| && IsMatch(p, L[i].node) && longest && Best(p, longest, L).Some?
        ensures L[i].node.pos <= Best(p, longest, L).value.node.pos
      {
        if i < |L'| { assert L'[i] == L[i]; }
      }
    }
  }

  /** A first match, or a match of the whole rest of the input, is never replaced. */
  lemma {:induction false} BestStays(p: Prog, text: Text, longest: bool, A: seq<Trail<Config>>, B: seq<Trail<Config>>)
    requires Best(p, longest, A).Some? && (longest ==> Best(p, longest, A).value.node.pos == |text|)
    requires forall i :: 0 <= i < |B| ==> B[i].node.pos <= |text|
    ensures Best(p, longest, A + B) == Best(p, longest, A)
    decreases |B|
  {
    if B == [] {
      assert A + B == A;
    } else {
      assert (A + B)[..|A + B| - 1] == A + B[..|B| - 1];
      BestStays(p, text, longest, A, B[..|B| - 1]);
    }
  }

  /** The targets whose first visit settles the search. */
  ghost function Targets(p: Prog, text: Text, longest: bool, e: nat): set<Config> {
    if longest then MatchesAt(p, text, e) else Matches(p, text)
  }

  lemma {:induction false} BestIsFirst(p: Prog, text: Text, longest: bool, L: seq<Trail<Config>>)
    requires Best(p, longest, L).Some?
    requires forall i :: 0 <= i < |L| ==> InRange(p, text, L[i].node)
    ensures var b := Best(p, longest, L).value;
      FirstIn(Targets(p, text, longest, b.node.pos), L) == Some(b.Path())
  {
    var L' := L[..|L| - 1];
    var t := L[|L| - 1];
    assert L == L' + [t];
    var b := Best(p, longest, L).value;
    var T := Targets(p, text, longest, b.node.pos);
    FirstInConcat(T, L', [t]);
    FirstInNone(T, L');
    BestIsMatch(p, longest, L');
    RunsDomain(p, text);
    if Best(p, longest, L') == Some(b) {
      BestIsFirst(p, text, longest, L');
    } else {
      forall i | 0 <= i < |L'| ensures L'[i].node !in T { assert L'[i] == L[i]; }
    }
  }

  /** The bits set in words are those of the nodes in L; InstFail is never marked before it panics. */
  ghost predicate Marks(p: Prog, end: nat, words: seq<bv32>, L: seq<Trail<Config>>) {
    && VisitedSize(|p.insts|, end) <= |words|
    && forall c: Config {:trigger BitOf(words, end, c)} :: c.pc < |p.insts| && c.pos <= end ==>
         (BitOf(words, end, c) <==> !p.insts[c.pc].Fail? && c in Visited(L))
  }

  lemma MarksAfter(p: Prog, end: nat, words: seq<bv32>, words': seq<bv32>, L: seq<Trail<Config>>, t: Trail<Config>)
    requires Marks(p, end, words, L) && |words'| == |words|
    requires t.node.pc < |p.insts| && t.node.pos <= end && !p.insts[t.node.pc].Fail?
    requires forall c: Config {:trigger BitOf(words', end, c)} :: c.pos <= end ==>
      (BitOf(words', end, c) <==> c == t.node || BitOf(words, end, c))
    ensures Marks(p, end, words', L + [t])
  {
    VisitedGrows(L, t);
  }

  lemma MarksSame(p: Prog, end: nat, words: seq<bv32>, words': seq<bv32>, L: seq<Trail<Config>>, d: Config)
    requires Marks(p, end, words, L) && |words'| == |words| && BitOf(words, end, d)
    requires forall c: Config {:trigger BitOf(words', end, c)} :: c.pos <= end ==>
      (BitOf(words', end, c) <==> c == d || BitOf(words, end, c))
    ensures Marks(p, end, words', L)
  {}

  ghost predicate LogOk(p: Prog, text: Text, L: seq<Trail<Config>>)
    requires WellFormed(p)
  {
    forall i :: 0 <= i < |L| ==>
      InRange(p, text, L[i].node) && (IsFail(p, L[i].node) ==> p.insts[p.start].Fail?)
  }

  lemma LogExtends(p: Prog, text: Text, L: seq<Trail<Config>>, todo: seq<Trail<Config>>)
    requires forall i :: 0 <= i < |L| ==> InRange(p, text, L[i].node)
    ensures var F := Explore(Runs(p, text), todo, L);
      L <= F && forall i :: 0 <= i < |F| ==> InRange(p, text, F[i].node)
  {
    RunsDomain(p, text);
    var g := Runs(p, text);
    ExploreExtends(g, todo, L);
    ExploreStaysIn(g, todo, L);
    var F := Explore(g, todo, L);
    forall i | 0 <= i < |F| ensures InRange(p, text, F[i].node) { assert F[i].node in Visited(F); }
  }

  /** The configurations that make a search stop: InstFail by panicking. */
  ghost function Halts(p: Prog, text: Text, longest: bool, ncap: nat): set<Config> {
    (if longest && ncap > 0 then MatchesAt(p, text, |text|) else Matches(p, text)) + Fails(p, text)
  }

  /** Whether a rune instruction goes on when the next rune is r, -1 at the end of the input. */
  predicate Steps(inst: Inst, r: int) {
    match inst
    case Rune(_, accepts) => r in accepts
    case Rune1(_, rune) => r == rune
    case RuneAnyNotNL(_) => r != NEWLINE && r != END_OF_TEXT
    case RuneAny(_) => r != END_OF_TEXT
    case _ => false
  }

  lemma RuneSuccessor(p: Prog, text: Text, s: nat, F: seq<Trail<Config>>, jobs: seq<Job>, t: Trail<Config>,
      rest: seq<Trail<Config>>, cap: seq<int>, L: seq<Trail<Config>>)
      returns (todo: seq<Trail<Config>>)
    requires WellFormed(p) && Executes(p, text, s, F, jobs, t, rest, cap, L)
    requires var i := p.insts[t.node.pc]; i.Rune? || i.Rune1? || i.RuneAny? || i.RuneAnyNotNL?
    ensures var i := p.insts[t.node.pc]; var pos := t.node.pos;
      if Steps(i, StepRune(text, pos)) then Checks(p, text, s, F, jobs, todo, cap, L,
        Config(i.out, pos + StepWidth(text, pos)))
      else Pops(p, text, s, F, jobs, todo, cap, L)
  {
    var i := p.insts[t.node.pc];
    assert InstOk(i, |p.insts|);
    if Steps(i, StepRune(text, t.node.pos)) {
      todo := OneSuccessor(p, text, s, F, jobs, t, rest, cap, L, Config(i.out, t.node.pos + 1));
    } else {
      NoSuccessor(p, text, s, F, jobs, t, rest, cap, L);
      todo := rest;
    }
  }

  /** Exploring L runs into InstFail before anything that ends the search. */
  ghost predicate Panics(p: Prog, text: Text, longest: bool, ncap: nat, L: seq<Trail<Config>>)
    requires WellFormed(p)
  {
    var h := FirstIn(Halts(p, text, longest, ncap), L);
    h.Some? && h.value != [] && IsFail(p, h.value[|h.value| - 1]) && !p.insts[p.start].Fail?
  }

  lemma HaltsHere(H: set<Config>, F: seq<Trail<Config>>, L0: seq<Trail<Config>>, done: seq<Trail<Config>>,
      t: Trail<Config>)
    requires L0 + done + [t] <= F && FirstIn(H, done).None?
    ensures |L0| <= |F| && FirstIn(H, F[|L0|..]) == if t.node in H then Some(t.Path())
      else FirstIn(H, F[|L0| + |done| + 1..])
    ensures t.node !in H ==> FirstIn(H, done + [t]).None?
  {
    var rest := F[|L0| + |done| + 1..];
    assert F[|L0|..] == done + ([t] + rest);
    FirstInConcat(H, done, [t] + rest);
    FirstInConcat(H, done, [t]);
    assert ([t] + rest)[1..] == rest;
  }

  /** The match on record when the search stops is the one a full exploration would leave. */
  lemma BestAtStop(p: Prog, text: Text, longest: bool, F: seq<Trail<Config>>, L0: seq<Trail<Config>>,
      done: seq<Trail<Config>>)
    requires L0 + done <= F && Best(p, longest, done).Some?
    requires longest ==> Best(p, longest, done).value.node.pos == |text|
    requires forall i :: 0 <= i < |F| ==> InRange(p, text, F[i].node)
    ensures Best(p, longest, F[|L0|..]) == Best(p, longest, done)
  {
    var rest := F[|L0| + |done|..];
    assert F[|L0|..] == done + rest;
    forall i | 0 <= i < |rest| ensures rest[i].node.pos <= |text| { assert rest[i] == F[|L0| + |done| + i]; }
    BestStays(p, text, longest, done, rest);
  }

  lemma HaltsAt(p: Prog, text: Text, longest: bool, ncap: nat, c: Config)
    requires InRange(p, text, c)
    ensures c in Halts(p, text, longest, ncap) <==>
      IsFail(p, c) || (IsMatch(p, c) && (longest && ncap > 0 ==> c.pos == |text|))
  {
    RunsDomain(p, text);
  }

  lemma PanicsHere(p: Prog, text: Text, longest: bool, ncap: nat, F: seq<Trail<Config>>, L0: seq<Trail<Config>>,
      done: seq<Trail<Config>>, t: Trail<Config>)
    requires WellFormed(p) && InRange(p, text, t.node) && IsFail(p, t.node) && !p.insts[p.start].Fail?
    requires L0 + done + [t] <= F && FirstIn(Halts(p, text, longest, ncap), done).None?
    ensures |L0| <= |F| && Panics(p, text, longest, ncap, F[|L0|..])
  {
    HaltsHere(Halts(p, text, longest, ncap), F, L0, done, t);
    HaltsAt(p, text, longest, ncap, t.node);
  }

  lemma GoesOn(p: Prog, text: Text, longest: bool, ncap: nat, F: seq<Trail<Config>>, L0: seq<Trail<Config>>,
      done: seq<Trail<Config>>, t: Trail<Config>)
    requires InRange(p, text, t.node) && !IsFail(p, t.node) && !IsMatch(p, t.node)
    requires L0 + done + [t] <= F && FirstIn(Halts(p, text, longest, ncap), done).None?
    ensures FirstIn(Halts(p, text, longest, ncap), done + [t]).None?
    ensures Best(p, longest, done + [t]) == Best(p, longest, done)
  {
    HaltsHere(Halts(p, text, longest, ncap), F, L0, done, t);
    HaltsAt(p, text, longest, ncap, t.node);
    assert (done + [t])[..|done + [t]| - 1] == done;
  }

  lemma StopsHere(p: Prog, text: Text, longest: bool, ncap: nat, F: seq<Trail<Config>>, L0: seq<Trail<Config>>,
      done: seq<Trail<Config>>, t: Trail<Config>)
    requires WellFormed(p) && InRange(p, text, t.node) && IsMatch(p, t.node) &&
      (longest && ncap > 0 ==> t.node.pos == |text|)
    requires L0 + done + [t] <= F && FirstIn(Halts(p, text, longest, ncap), done).None?
    requires forall i :: 0 <= i < |F| ==> InRange(p, text, F[i].node)
    ensures |L0| <= |F| && !Panics(p, text, longest, ncap, F[|L0|..])
    ensures Best(p, longest, F[|L0|..]).Some?
    ensures ncap > 0 ==> Best(p, longest, F[|L0|..]) == Best(p, longest, done + [t])
  {
    var all := F[|L0|..];
    HaltsHere(Halts(p, text, longest, ncap), F, L0, done, t);
    HaltsAt(p, text, longest, ncap, t.node);
    BestIsMatch(p, longest, all);
    assert all[|done|] == t;
    BestNext(p, longest, done, t);
    if ncap > 0 || !longest {
      if longest { LastIsEnd(p, text, longest, F, L0, done, t); }
      BestAtStop(p, text, longest, F, L0, done + [t]);
    }
  }

  lemma LastIsEnd(p: Prog, text: Text, longest: bool, F: seq<Trail<Config>>, L0: seq<Trail<Config>>,
      done: seq<Trail<Config>>, t: Trail<Config>)
    requires longest && IsMatch(p, t.node) && t.node.pos == |text|
    requires L0 + done + [t] <= F && forall i :: 0 <= i < |F| ==> InRange(p, text, F[i].node)
    ensures Better(longest, Best(p, longest, done), t).node.pos == |text|
  {
    BestIsMatch(p, longest, done);
    BestIsIn(p, longest, done);
    forall i | 0 <= i < |done| ensures done[i].node.pos <= |text| { assert done[i] == F[|L0| + i]; }
  }

  lemma {:induction false} BestIsIn(p: Prog, longest: bool, L: seq<Trail<Config>>)
    ensures Best(p, longest, L).Some? ==> Best(p, longest, L).value in L
  {
    if L != [] { BestIsIn(p, longest, L[..|L| - 1]); }
  }

  /** F is a full exploration from s, beyond L0. */
  ghost predicate Explored(p: Prog, text: Text, s: nat, F: seq<Trail<Config>>, L0: seq<Trail<Config>>) {
    L0 <= F && Rooted(Config(p.start, s), F[|L0|..]) && forall i :: 0 <= i < |F| ==> InRange(p, text, F[i].node)
  }

  /** The next trail of the exploration starts where all of them do. */
  lemma NextFound(p: Prog, s: nat, F: seq<Trail<Config>>, L0: seq<Trail<Config>>, done: seq<Trail<Config>>,
      t: Trail<Config>)
    requires L0 <= F && L0 + done + [t] <= F && Rooted(Config(p.start, s), F[|L0|..])
    ensures t.Path()[0].pos == s
  {
    assert F[|L0|..][|done|] == t;
  }

  lemma NoMarks(p: Prog, end: nat, words: seq<bv32>)
    requires VisitedSize(|p.insts|, end) <= |words|
    requires forall i :: 0 <= i < VisitedSize(|p.insts|, end) ==> words[i] == 0
    ensures Marks(p, end, words, [])
  {
    forall c: Config | c.pc < |p.insts| && c.pos <= end ensures !BitOf(words, end, c) {
      BitIndexInRange(|p.insts|, end, c);
      RowsProduct(|p.insts|, end + 1);
      NoBit(words[BitIndex(end, c) / VISITED_BITS], BitIndex(end, c) % VISITED_BITS);
    }
  }

  lemma FoundExplored(p: Prog, text: Text, s: nat, L: seq<Trail<Config>>)
    requires WellFormed(p) && LogOk(p, text, L) && s <= |text|
    ensures Explored(p, text, s, Explore(Runs(p, text), [StartTrail(p, s)], L), L)
  {
    LogExtends(p, text, L, [StartTrail(p, s)]);
    ExploreRooted(Runs(p, text), [StartTrail(p, s)], L, Config(p.start, s));
  }

  /** A start that is marked already, or is InstFail, finds nothing. */
  lemma NothingNew(p: Prog, text: Text, longest: bool, ncap: nat, s: nat, L: seq<Trail<Config>>)
    requires WellFormed(p) && s <= |text| && (p.insts[p.start].Fail? || Config(p.start, s) in Visited(L))
    ensures var F := Explore(Runs(p, text), [StartTrail(p, s)], L);
      L <= F && !Panics(p, text, longest, ncap, F[|L|..]) && Best(p, longest, F[|L|..]).None?
  {
    var g, t := Runs(p, text), StartTrail(p, s);
    RunsDomain(p, text);
    if t.node !in Visited(L) {
      assert Children(g, t) + [t][1..] == [];
      assert Explore(g, [t], L) == L + [t];
      assert (L + [t])[|L|..] == [t];
    }
  }

  lemma LogFound(p: Prog, text: Text, L: seq<Trail<Config>>, s: nat)
    requires WellFormed(p) && LogOk(p, text, L) && s <= |text| &&
      (p.insts[p.start].Fail? || Config(p.start, s) in Visited(L))
    ensures var F := Explore(Runs(p, text), [StartTrail(p, s)], L);
      LogOk(p, text, F) && forall c :: c in Visited(F) <==> c in Visited(L) || (c == Config(p.start, s))
  {
    var g, t := Runs(p, text), StartTrail(p, s);
    RunsDomain(p, text);
    VisitedGrows(L, t);
    if t.node !in Visited(L) {
      assert Children(g, t) + [t][1..] == [];
      assert Explore(g, [t], L) == L + [t];
    }
  }

  lemma StartsExecution(p: Prog, text: Text, s: nat, L: seq<Trail<Config>>, cap: seq<int>)
    requires WellFormed(p) && s <= |text| && Config(p.start, s) !in Visited(L)
    requires Agree(cap, Registers(p, |cap|, s, []))
    ensures Executes(p, text, s, Explore(Runs(p, text), [StartTrail(p, s)], L), [], StartTrail(p, s), [], cap,
      L + [StartTrail(p, s)])
  {
    RunsDomain(p, text);
    var t := StartTrail(p, s);
    assert [t][1..] == [];
  }

  // ------------------------------------------------- one start position after another

  lemma StartTrailsSplit(p: Prog, lo: nat, i: nat, hi: nat)
    requires lo <= i < hi
    ensures StartTrails(p, lo, hi) == StartTrails(p, lo, i) + ([StartTrail(p, i)] + StartTrails(p, i + 1, hi))
    ensures StartTrails(p, lo, i + 1) == StartTrails(p, lo, i) + [StartTrail(p, i)]
  {}

  /** L is what exploring from the start positions lo..i has visited. */
  ghost predicate Swept(p: Prog, text: Text, lo: nat, i: nat, L: seq<Trail<Config>>) {
    lo <= i && L == Explore(Runs(p, text), StartTrails(p, lo, i), [])
  }

  lemma StartsNested(g: Graph<Config>, p: Prog, lo: nat, i: nat)
    requires lo <= i
    ensures Nested(g, StartTrails(p, lo, i), [])
  {
    forall k | 0 <= k < i - lo ensures StartTrails(p, lo, i)[k].prefix == [] {
      assert StartTrails(p, lo, i)[k] == StartTrail(p, lo + k);
    }
    assert Nodes<Config>([]) == {};
  }

  /** Sharing the table across start positions loses nothing: past positions that found
      nothing of T, the next one finds what backtracking with an empty table would. */
  lemma FoundIsNaive(p: Prog, text: Text, lo: nat, i: nat, L: seq<Trail<Config>>, T: set<Config>)
    requires Swept(p, text, lo, i, L) && Visited(L) !! T
    ensures L <= Explore(Runs(p, text), [StartTrail(p, i)], L)
    ensures FirstIn(T, Explore(Runs(p, text), [StartTrail(p, i)], L)[|L|..]) == Naive(Runs(p, text), T, {},
      Config(p.start, i))
    ensures FirstNaive(Runs(p, text), T, StartTrails(p, lo, i)).None?
  {
    var g, before, t := Runs(p, text), StartTrails(p, lo, i), StartTrail(p, i);
    StartsNested(g, p, lo, i);
    ExploreTracks(g, before, []);
    ExploreFindsNaive(g, T, [t], L);
    ExploreFindsNaive(g, T, before, []);
    assert L[0..] == L;
    FirstInNone(T, L);
    assert Nodes<Config>([]) == {};
    var r := Naive(g, T, {}, t.node);
    if r.Some? { assert [] + r.value == r.value; }
    assert FirstNaive(g, T, [t][1..]).None?;
  }

  lemma SweepOn(p: Prog, text: Text, lo: nat, i: nat, L: seq<Trail<Config>>)
    requires Swept(p, text, lo, i, L)
    ensures Swept(p, text, lo, i + 1, Explore(Runs(p, text), [StartTrail(p, i)], L))
  {
    ExploreConcat(Runs(p, text), StartTrails(p, lo, i), [StartTrail(p, i)], []);
    StartTrailsSplit(p, lo, i, i + 1);
  }

  lemma {:induction false} LongestEndIs(p: Prog, text: Text, s: nat, e: nat, b: nat)
    requires b <= e && Naive(Runs(p, text), MatchesAt(p, text, b), {}, Config(p.start, s)).Some?
    requires forall x :: b < x <= e ==> Naive(Runs(p, text), MatchesAt(p, text, x), {}, Config(p.start, s)).None?
    ensures LongestEnd(p, text, s, e) == b
  {
    if e > b { LongestEndIs(p, text, s, e - 1, b); }
  }

  lemma NoMatchVisited(p: Prog, text: Text, longest: bool, L: seq<Trail<Config>>)
    requires Best(p, longest, L).None?
    ensures Visited(L) !! Matches(p, text)
  {
    BestIsMatch(p, longest, L);
  }

  /** The match the machine has on record at the first start position that has one is the wanted match. */
  lemma RecordIsWanted(p: Prog, text: Text, longest: bool, pos: nat, i: nat, L: seq<Trail<Config>>)
    requires WellFormed(p) && pos <= i <= |text|
    requires Swept(p, text, pos, i, L) && Visited(L) !! Matches(p, text) && LogOk(p, text, L)
    requires L <= Explore(Runs(p, text), [StartTrail(p, i)], L)
    requires Best(p, longest, Explore(Runs(p, text), [StartTrail(p, i)], L)[|L|..]).Some?
    ensures Wanted(p, text, longest, pos) == Some(Best(p, longest,
      Explore(Runs(p, text), [StartTrail(p, i)], L)[|L|..]).value.Path())
  {
    var g, M := Runs(p, text), Matches(p, text);
    var F := Explore(g, [StartTrail(p, i)], L);
    var all := F[|L|..];
    var b := Best(p, longest, all).value;
    LogExtends(p, text, L, [StartTrail(p, i)]);
    forall k | 0 <= k < |all| ensures InRange(p, text, all[k].node) { assert all[k] == F[|L| + k]; }
    RunsDomain(p, text);
    BestIsMatch(p, longest, all);
    BestIsIn(p, longest, all);
    BestIsFirst(p, text, longest, all);
    FoundIsNaive(p, text, pos, i, L, M);
    var r := Naive(g, M, {}, Config(p.start, i));
    FirstInNone(M, all);
    assert b.node in M && b.node in Visited(all);
    assert r.Some?;
    LeftmostAt(p, text, M, pos, i);
    if longest {
      NaiveSound(g, M, {}, Config(p.start, i));
      forall x | b.node.pos <= x <= |text|
        ensures Naive(g, MatchesAt(p, text, x), {}, Config(p.start, i)) == FirstIn(MatchesAt(p, text, x), all)
      {
        FoundIsNaive(p, text, pos, i, L, MatchesAt(p, text, x));
      }
      forall x | b.node.pos < x <= |text| ensures Naive(g, MatchesAt(p, text, x), {}, Config(p.start, i)).None? {
        FirstInNone(MatchesAt(p, text, x), all);
      }
      LongestEndIs(p, text, i, |text|, b.node.pos);
      var T := MatchesAt(p, text, b.node.pos);
      assert Nodes<Config>([]) == {} && [] + b.Path() == b.Path();
      assert FirstNaive(g, T, [StartTrail(p, i)]) == Some(b.Path());
    }
  }

  lemma LeftmostAt(p: Prog, text: Text, T: set<Config>, pos: nat, i: nat)
    requires pos <= i <= |text|
    requires FirstNaive(Runs(p, text), T, StartTrails(p, pos, i)).None?
    requires Naive(Runs(p, text), T, {}, Config(p.start, i)).Some?
    ensures Leftmost(p, text, T, pos) == Naive(Runs(p, text), T, {}, Config(p.start, i))
  {
    var g := Runs(p, text);
    StartTrailsSplit(p, pos, i, |text| + 1);
    var rest := [StartTrail(p, i)] + StartTrails(p, i + 1, |text| + 1);
    FirstNaiveConcat(g, T, StartTrails(p, pos, i), rest);
    assert Nodes<Config>([]) == {};
    var r := Naive(g, T, {}, Config(p.start, i));
    assert [] + r.value == r.value;
    assert rest[0] == StartTrail(p, i);
  }

  /** Backtracking from s runs into InstFail before a match that ends the search. */
  ghost predicate CrashAt(p: Prog, text: Text, longest: bool, ncap: nat, s: nat)
    requires WellFormed(p)
  {
    var h := Naive(Runs(p, text), Halts(p, text, longest, ncap), {}, Config(p.start, s));
    h.Some? && h.value != [] && IsFail(p, h.value[|h.value| - 1]) && !p.insts[p.start].Fail?
  }

  ghost predicate MatchesFrom(p: Prog, text: Text, s: nat) {
    Naive(Runs(p, text), Matches(p, text), {}, Config(p.start, s)).Some?
  }

  lemma PanicIsCrash(p: Prog, text: Text, longest: bool, ncap: nat, lo: nat, i: nat, L: seq<Trail<Config>>)
    requires WellFormed(p) && Swept(p, text, lo, i, L) && Visited(L) !! Matches(p, text) && LogOk(p, text, L)
    ensures L <= Explore(Runs(p, text), [StartTrail(p, i)], L)
    ensures Panics(p, text, longest, ncap, Explore(Runs(p, text), [StartTrail(p, i)], L)[|L|..]) <==>
      CrashAt(p, text, longest, ncap, i)
  {
    ExploreExtends(Runs(p, text), [StartTrail(p, i)], L);
    if !p.insts[p.start].Fail? {
      NoHaltSeen(p, text, longest, ncap, L);
      FoundIsNaive(p, text, lo, i, L, Halts(p, text, longest, ncap));
    }
  }

  lemma NoHaltSeen(p: Prog, text: Text, longest: bool, ncap: nat, L: seq<Trail<Config>>)
    requires WellFormed(p) && Visited(L) !! Matches(p, text) && LogOk(p, text, L) && !p.insts[p.start].Fail?
    ensures Visited(L) !! Halts(p, text, longest, ncap)
  {
    forall c | c in Visited(L) ensures c !in Halts(p, text, longest, ncap) { RunsDomain(p, text); }
  }

  lemma MatchedIsNaive(p: Prog, text: Text, longest: bool, lo: nat, i: nat, L: seq<Trail<Config>>)
    requires WellFormed(p) && i <= |text| && Swept(p, text, lo, i, L) && Visited(L) !! Matches(p, text) &&
      LogOk(p, text, L)
    ensures L <= Explore(Runs(p, text), [StartTrail(p, i)], L)
    ensures Best(p, longest, Explore(Runs(p, text), [StartTrail(p, i)], L)[|L|..]).Some? <==> MatchesFrom(p, text, i)
  {
    var F := Explore(Runs(p, text), [StartTrail(p, i)], L);
    LogExtends(p, text, L, [StartTrail(p, i)]);
    var all := F[|L|..];
    FoundIsNaive(p, text, lo, i, L, Matches(p, text));
    FirstInNone(Matches(p, text), all);
    BestIsMatch(p, longest, all);
    RunsDomain(p, text);
    forall k | 0 <= k < |all| ensures InRange(p, text, all[k].node) { assert all[k] == F[|L| + k]; }
    if k :| 0 <= k < |all| && IsMatch(p, all[k].node) {
      assert all[k].node in Visited(all) && all[k].node in Matches(p, text);
    }
  }

  lemma StillNoMatch(p: Prog, text: Text, longest: bool, L: seq<Trail<Config>>, new_: seq<Trail<Config>>)
    requires Visited(L) !! Matches(p, text) && Best(p, longest, new_).None?
    ensures Visited(L + new_) !! Matches(p, text)
  {
    NoMatchVisited(p, text, longest, new_);
    forall c | c in Visited(L + new_) ensures c in Visited(L) || c in Visited(new_) {
      var k :| 0 <= k < |L + new_| && (L + new_)[k].node == c;
      if k < |L| { assert L[k].node == c; } else { assert new_[k - |L|].node == c; }
    }
  }

  /** Linear work: no more trails than configurations, over all start positions. */
  lemma SweepIsLinear(p: Prog, text: Text, lo: nat, i: nat, L: seq<Trail<Config>>)
    requires WellFormed(p) && Swept(p, text, lo, i, L)
    ensures |L| <= |p.insts| * (|text| + 1)
  {
    var g := Runs(p, text);
    ExploreDistinct(g, StartTrails(p, lo, i), []);
    DistinctSize(L);
    ExploreStaysIn(g, StartTrails(p, lo, i), []);
    TableSize(|p.insts|, |text|);
    RowsProduct(|p.insts|, |text| + 1);
    SubsetSize(Visited(L), Table(|p.insts|, |text|));
  }

  lemma {:induction false} SubsetSize<T>(a: set<T>, b: set<T>)
    requires a <= b
    ensures |a| <= |b|
  {
    if a != {} {
      var x :| x in a;
      SubsetSize(a - {x}, b - {x});
    }
  }

  /** Whether a backtracking search is tried at all, and from which last position. */
  ghost predicate Attempted(cond: Option<EmptyOp>, pos: nat) { cond.Some? && (BeginText in cond.value ==> pos == 0) }

  ghost function LastStart(cond: EmptyOp, pos: nat, end: nat): nat { if BeginText in cond then pos else end }

  /** The search from pos panics: it tries a position that crashes, and no earlier one matches. */
  ghost predicate Crashes(p: Prog, text: Text, longest: bool, ncap: nat, pos: nat, last: nat)
    requires WellFormed(p)
  {
    exists s :: pos <= s <= last && CrashAt(p, text, longest, ncap, s) && forall s' :: pos <= s' < s ==>
      !MatchesFrom(p, text, s')
  }

  lemma {:induction false} FirstNaiveNone(p: Prog, text: Text, T: set<Config>, lo: nat, hi: nat)
    requires lo <= hi && forall s :: lo <= s < hi ==> Naive(Runs(p, text), T, {}, Config(p.start, s)).None?
    ensures FirstNaive(Runs(p, text), T, StartTrails(p, lo, hi)).None?
    decreases hi - lo
  {
    if lo < hi {
      FirstNaiveNone(p, text, T, lo + 1, hi);
      assert StartTrails(p, lo, hi)[0] == StartTrail(p, lo);
      assert StartTrails(p, lo, hi)[1..] == StartTrails(p, lo + 1, hi);
      assert Nodes<Config>([]) == {};
    }
  }

  lemma NothingWanted(p: Prog, text: Text, longest: bool, pos: nat)
    requires pos <= |text| && forall s :: pos <= s <= |text| ==> !MatchesFrom(p, text, s)
    ensures Wanted(p, text, longest, pos).None?
  {
    forall s | pos <= s < |text| + 1 ensures Naive(Runs(p, text), Matches(p, text), {}, Config(p.start, s)).None? {
      assert !MatchesFrom(p, text, s);
    }
    FirstNaiveNone(p, text, Matches(p, text), pos, |text| + 1);
  }

  /** No start position from pos up to next, exclusive, matches or crashes. */
  ghost predicate NothingYet(p: Prog, text: Text, longest: bool, ncap: nat, pos: nat, next: nat)
    requires WellFormed(p)
  {
    forall s :: pos <= s < next ==> !CrashAt(p, text, longest, ncap, s) && !MatchesFrom(p, text, s)
  }

  lemma CrashVerdict(p: Prog, text: Text, longest: bool, ncap: nat, pos: nat, i: nat, last: nat)
    requires WellFormed(p) && NothingYet(p, text, longest, ncap, pos, i) && pos <= i <= last
    ensures CrashAt(p, text, longest, ncap, i) ==> Crashes(p, text, longest, ncap, pos, last)
    ensures !CrashAt(p, text, longest, ncap, i) && MatchesFrom(p, text, i) ==>
      !Crashes(p, text, longest, ncap, pos, last)
    ensures !CrashAt(p, text, longest, ncap, i) && !MatchesFrom(p, text, i) ==>
      NothingYet(p, text, longest, ncap, pos, i + 1)
  {
  }

  lemma QuietVerdict(p: Prog, text: Text, longest: bool, ncap: nat, pos: nat)
    requires WellFormed(p) && pos <= |text| && NothingYet(p, text, longest, ncap, pos, |text| + 1)
    ensures !Crashes(p, text, longest, ncap, pos, |text|) && Wanted(p, text, longest, pos).None?
  {
    NothingWanted(p, text, longest, pos);
  }

  /** A start position that violates a leading condition has no match. */
  lemma NoMatchOutside(p: Prog, text: Text, s: nat)
    requires WellFormed(p) && StartCond(p).Some? && MatchesFrom(p, text, s)
    ensures StartCond(p).value.Some? && (BeginText in StartCond(p).value.value ==> s == 0)
  {
    NaiveSound(Runs(p, text), Matches(p, text), {}, Config(p.start, s));
    var q := Naive(Runs(p, text), Matches(p, text), {}, Config(p.start, s)).value;
    RunsDomain(p, text);
    StartCondSound(p, text, p.start, s, {}, |p.insts| + 1, q);
    assert BeginText in Context(text, s) ==> s == 0;
  }

  datatype Status = Running | Stopped | Panicked

  class BitState {
    const prog: Prog
    const longest: bool
    var end: nat
    var ncap: nat
    var cap: array<int>
    var jobs: seq<Job>
    var visited: array<bv32>
    var matched: bool
    var matchcap: array<int>
    /** The nodes marked since the last reset, in order, each with the path that led to it. */
    ghost var log: seq<Trail<Config>>

    constructor (prog: Prog, longest: bool, matchcap: array<int>)
      ensures this.prog == prog && this.longest == longest && this.matchcap == matchcap
      ensures fresh(cap) && fresh(visited) && visited as object != cap
    {
      this.prog, this.longest, this.matchcap := prog, longest, matchcap;
      end, ncap, jobs, matched, log := 0, 0, [], false, [];
      cap := new int[0];
      visited := new bv32[0];
    }

    ghost predicate Valid(text: Text)
      reads this, visited
    {
      && WellFormed(prog)
      && end == |text|
      && ncap != 1
      && ncap == cap.Length && ncap <= matchcap.Length
      && cap != matchcap && visited as object != cap && visited as object != matchcap
      && Marked(text)
    }

    /** The bits set are those of the configurations in the log. */
    ghost predicate Marked(text: Text)
      requires WellFormed(prog)
      reads this`end, this`visited, this`log, visited
    {
      Marks(prog, end, visited[..], log) && LogOk(prog, text, log)
    }

    /** matched and matchcap are what processing the trails of done has left, and none of
        them ended the search. */
    ghost predicate Tallied(text: Text, done: seq<Trail<Config>>)
      reads this`matched, this`ncap, this`matchcap, matchcap
    {
      && ncap <= matchcap.Length
      && (matched <==> Best(prog, longest, done).Some?)
      && (matched ==> longest && ncap > 0 && matchcap[..ncap] == Report(prog, ncap,
        Best(prog, longest, done).value.Path()))
      && FirstIn(Halts(prog, text, longest, ncap), done).None?
    }

    /** The verdict on an exploration that found the trails of all. */
    ghost predicate Settled(text: Text, all: seq<Trail<Config>>)
      requires WellFormed(prog)
      reads this`matched, this`ncap, this`matchcap, matchcap
    {
      && ncap <= matchcap.Length
      && !Panics(prog, text, longest, ncap, all)
      && (matched <==> Best(prog, longest, all).Some?)
      && (matched && ncap > 0 ==> matchcap[..ncap] == Report(prog, ncap, Best(prog, longest, all).value.Path()))
    }

    /** Reports whether (pc, pos) has not been visited, and marks it. */
    method ShouldVisit(pc: nat, pos: nat) returns (ok: bool)
      requires pc < |prog.insts| && pos <= end && VisitedSize(|prog.insts|, end) <= visited.Length
      modifies visited
      ensures ok <==> !old(BitOf(visited[..], end, Config(pc, pos)))
      ensures forall c: Config {:trigger BitOf(visited[..], end, c)} :: c.pos <= end ==>
        (BitOf(visited[..], end, c) <==> c == Config(pc, pos) || old(BitOf(visited[..], end, c)))
    {
      RowsProduct(pc, end + 1);
      var n := pc * (end + 1) + pos;
      SetBitOf(visited[..], |prog.insts|, end, Config(pc, pos));
      if Meets(visited[n / VISITED_BITS], Mask(n % VISITED_BITS)) {
        return false;
      }
      visited[n / VISITED_BITS] := Join(visited[n / VISITED_BITS], Mask(n % VISITED_BITS));
      assert visited[..] == WithBit(old(visited[..]), n);
      return true;
    }

    /** Pushes a job for a first visit, unless it is InstFail or visited already. */
    method Push(pc: nat, pos: nat)
      requires pc < |prog.insts| && pos <= end && VisitedSize(|prog.insts|, end) <= visited.Length
      modifies this`jobs, visited
      ensures prog.insts[pc].Fail? ==> jobs == old(jobs) && visited[..] == old(visited[..])
      ensures !prog.insts[pc].Fail? ==>
        && jobs == old(jobs) + (if old(BitOf(visited[..], end, Config(pc, pos))) then [] else [Job(pc, 0, pos)])
        && forall c: Config {:trigger BitOf(visited[..], end, c)} :: c.pos <= end ==>
             (BitOf(visited[..], end, c) <==> c == Config(pc, pos) || old(BitOf(visited[..], end, c)))
    {
      if prog.insts[pc].Fail? {
        return;
      }
      var visit := ShouldVisit(pc, pos);
      if !visit {
        return;
      }
      jobs := jobs + [Job(pc, 0, pos)];
    }

    /** Pushes a reminder to come back to a visited instruction. */
    method PushBack(pc: nat, pos: int)
      requires pc < |prog.insts|
      modifies this`jobs
      ensures jobs == old(jobs) + if prog.insts[pc].Fail? then [] else [Job(pc, 1, pos)]
    {
      if prog.insts[pc].Fail? {
        return;
      }
      jobs := jobs + [Job(pc, 1, pos)];
    }

    /** The configurations first reached by exploring from s. */
    ghost function Found(text: Text, s: nat): seq<Trail<Config>>
      reads this
    {
      ExploreExtends(Runs(prog, text), [StartTrail(prog, s)], log);
      Explore(Runs(prog, text), [StartTrail(prog, s)], log)[|log|..]
    }

    /** Captures pos in a register, leaving a job that restores the old value. */
    method ExecuteCapture(text: Text, pc: nat, pos: nat, ghost s: nat, ghost F: seq<Trail<Config>>,
        ghost t: Trail<Config>, ghost rest: seq<Trail<Config>>)
      returns (ghost todo: seq<Trail<Config>>)
      requires WellFormed(prog) && ncap == cap.Length
      requires t.node == Config(pc, pos)
      requires Executes(prog, text, s, F, jobs, t, rest, cap[..], log)
      requires prog.insts[pc].Capture?
      modifies this`jobs, cap
      ensures |jobs| <= |old(jobs)| + 1
      ensures Checks(prog, text, s, F, jobs, todo, cap[..], log, Config(prog.insts[pc].out, pos))
    {
      var inst := prog.insts[pc];
      assert InstOk(inst, |prog.insts|);
      if inst.reg < ncap {
        todo := CaptureSuccessor(prog, text, s, F, jobs, t, rest, cap[..], log);
        PushBack(pc, cap[inst.reg]);
        cap[inst.reg] := pos;
        assert cap[..] == old(cap[..])[inst.reg := pos];
      } else {
        todo := OneSuccessor(prog, text, s, F, jobs, t, rest, cap[..], log, Config(inst.out, pos));
      }
    }

    /** Executes the instruction at (pc, pos) on first arrival; tells whether to go on to
        check (pc', pos') or to pop the next job. */
    method Execute(text: Text, pc: nat, pos: nat, ghost s: nat, ghost F: seq<Trail<Config>>, ghost t: Trail<Config>,
        ghost rest: seq<Trail<Config>>)
      returns (check: bool, pc': nat, pos': nat, ghost todo: seq<Trail<Config>>)
      requires WellFormed(prog) && ncap == cap.Length
      requires t.node == Config(pc, pos)
      requires Executes(prog, text, s, F, jobs, t, rest, cap[..], log)
      requires !prog.insts[pc].Match? && !prog.insts[pc].Fail?
      modifies this`jobs, cap
      ensures |jobs| <= |old(jobs)| + if check then 1 else 0
      ensures check ==> Checks(prog, text, s, F, jobs, todo, cap[..], log, Config(pc', pos'))
      ensures !check ==> Pops(prog, text, s, F, jobs, todo, cap[..], log)
    {
      var inst := prog.insts[pc];
      assert InstOk(inst, |prog.insts|);
      check, pc', pos', todo := true, pc, pos, rest;
      if inst.Alt? {
        todo := AltSuccessor(prog, text, s, F, jobs, t, rest, cap[..], log);
        PushBack(pc, pos);
        pc' := inst.out;
      } else if inst.Capture? {
        todo := ExecuteCapture(text, pc, pos, s, F, t, rest);
        pc' := inst.out;
      } else if inst.EmptyWidth? {
        if Satisfied(inst.cond, ContextAt(text, pos)) {
          todo := OneSuccessor(prog, text, s, F, jobs, t, rest, cap[..], log, Config(inst.out, pos));
          pc' := inst.out;
        } else {
          NoSuccessor(prog, text, s, F, jobs, t, rest, cap[..], log);
          check := false;
        }
      } else if inst.Nop? {
        todo := OneSuccessor(prog, text, s, F, jobs, t, rest, cap[..], log, Config(inst.out, pos));
        pc' := inst.out;
      } else {
        todo := RuneSuccessor(prog, text, s, F, jobs, t, rest, cap[..], log);
        if Steps(inst, StepRune(text, pos)) {
          pc', pos' := inst.out, pos + StepWidth(text, pos);
        } else {
          check := false;
        }
      }
    }

    /** Takes up a job that was left as a reminder: the second leg of an InstAlt, or the
        old value of a register. */
    method Resume(text: Text, j: Job, ghost s: nat, ghost F: seq<Trail<Config>>, ghost todo: seq<Trail<Config>>)
      returns (check: bool, pc: nat, pos: nat)
      requires WellFormed(prog) && ncap == cap.Length
      requires j.arg == 1 && Pops(prog, text, s, F, jobs + [j], todo, cap[..], log)
      modifies cap
      ensures check ==> Checks(prog, text, s, F, jobs, todo, cap[..], log, Config(pc, pos))
      ensures !check ==> Pops(prog, text, s, F, jobs, todo, cap[..], log)
    {
      assert (jobs + [j])[..|jobs|] == jobs;
      check, pc, pos := false, 0, 0;
      if prog.insts[j.pc].Alt? {
        PopAlt(prog, text, s, F, jobs + [j], todo, cap[..], log);
        check, pc, pos := true, prog.insts[j.pc].arg, j.pos;
      } else {
        cap[prog.insts[j.pc].reg] := j.pos;
        assert cap[..] == old(cap[..])[prog.insts[j.pc].reg := j.pos];
      }
    }

    method CopyCaptures()
      requires ncap == cap.Length <= matchcap.Length && cap != matchcap
      modifies matchcap
      ensures matchcap[..ncap] == cap[..]
    {
      forall i | 0 <= i < ncap { matchcap[i] := cap[i]; }
    }

    /** Puts the end into the registers, and the registers on record if they end later than those there. */
    method KeepBetter(pos: nat, ghost report: seq<int>, ghost best: seq<int>)
      requires 1 < ncap == cap.Length == |report| <= matchcap.Length && cap != matchcap && report == cap[..][1 := pos]
      requires matched ==> longest && |best| == ncap && matchcap[..ncap] == best && best[1] >= 0
      modifies cap, matchcap
      ensures cap[..] == report
      ensures matchcap[..ncap] == if !matched || pos > best[1] then report else best
    {
      if matched { assert matchcap[1] == matchcap[..ncap][1]; }
      cap[1] := pos;
      if !matched || (longest && pos > 0 && pos > matchcap[1]) {
        CopyCaptures();
      }
    }

    /** Records a match that ends at pos if it beats the one on record; tells whether to stop. */
    method Record(text: Text, pos: nat, ghost s: nat, ghost t: Trail<Config>, ghost b: Option<Trail<Config>>)
        returns (stop: bool)
      requires WellFormed(prog) && ncap == cap.Length <= matchcap.Length && ncap != 1 && cap != matchcap
      requires IsMatch(prog, t.node) && t.node.pos == pos && t.Path()[0].pos == s
      requires Agree(cap[..], Registers(prog, ncap, s, t.prefix))
      requires matched <==> b.Some?
      requires matched ==> longest && ncap > 0 && matchcap[..ncap] == Report(prog, ncap, b.value.Path())
      modifies this`matched, cap, matchcap
      ensures Agree(old(cap[..]), cap[..])
      ensures matched && matchcap[..ncap] == Report(prog, ncap, Better(longest, b, t).Path())
      ensures stop <==> !(longest && ncap > 0 && pos != end)
    {
      if ncap == 0 {
        matched := true;
        assert matchcap[..ncap] == [];
        return true;
      }
      ReportedFor(prog, ncap, s, t, cap[..]);
      ghost var best := if matched then matchcap[..ncap] else [];
      ghost var report, want := BetterReport(prog, ncap, longest, b, t, best);
      KeepBetter(pos, report, best);
      assert matchcap[..ncap] == want;
      matched := true;
      if !longest {
        return true;
      }
      return pos == end;
    }

    /** The check that precedes executing (pc, pos): skip it if it is marked, mark it if not. */
    method Check(text: Text, pc: nat, pos: nat, ghost s: nat, ghost F: seq<Trail<Config>>,
        ghost todo: seq<Trail<Config>>)
      returns (go: bool)
      requires Valid(text) && Checks(prog, text, s, F, jobs, todo, cap[..], log, Config(pc, pos))
      requires !prog.insts[prog.start].Fail?
      modifies this`log, visited
      ensures !go ==> log == old(log) && Pops(prog, text, s, F, jobs, todo[1..], cap[..], log)
      ensures go ==> log == old(log) + [todo[0]] && Executes(prog, text, s, F, jobs, todo[0], todo[1..], cap[..], log)
      ensures !go || !prog.insts[pc].Fail? ==> Marked(text)
    {
      ghost var c := Config(pc, pos);
      if c in Visited(log) { CheckVisited(prog, text, s, F, jobs, todo, cap[..], log, c); }
      else { CheckNew(prog, text, s, F, jobs, todo, cap[..], log, c); }
      assert prog.insts[pc].Fail? ==> c !in Visited(log);
      go := ShouldVisit(pc, pos);
      if go {
        if !prog.insts[pc].Fail? { MarksAfter(prog, end, old(visited[..]), visited[..], log, todo[0]); }
        log := log + [todo[0]];
      } else {
        MarksSame(prog, end, old(visited[..]), visited[..], log, c);
      }
    }

    /** Executes InstMatch at the end of trail t. */
    method VisitMatch(text: Text, pos: nat, ghost s: nat, ghost F: seq<Trail<Config>>, ghost L0: seq<Trail<Config>>,
        ghost done: seq<Trail<Config>>, ghost t: Trail<Config>, ghost rest: seq<Trail<Config>>) returns (stop: bool)
      requires WellFormed(prog) && end == |text| && ncap == cap.Length <= matchcap.Length && ncap != 1 &&
        cap != matchcap
      requires IsMatch(prog, t.node) && t.node.pos == pos && t.Path()[0].pos == s
      requires Executes(prog, text, s, F, jobs, t, rest, cap[..], log)
      requires Tallied(text, done) && L0 + done + [t] <= F
      requires forall i :: 0 <= i < |F| ==> InRange(prog, text, F[i].node)
      modifies this`matched, cap, matchcap
      ensures stop ==> Settled(text, F[|L0|..]) && matched
      ensures !stop ==> Tallied(text, done + [t]) && Pops(prog, text, s, F, jobs, rest, cap[..], log)
    {
      HaltsHere(Halts(prog, text, longest, ncap), F, L0, done, t);
      HaltsAt(prog, text, longest, ncap, t.node);
      NoSuccessor(prog, text, s, F, jobs, t, rest, cap[..], log);
      BestNext(prog, longest, done, t);
      stop := Record(text, pos, s, t, Best(prog, longest, done));
      if stop {
        StopsHere(prog, text, longest, ncap, F, L0, done, t);
      } else {
        StandsIgnoresOne(prog, s, jobs, rest, old(cap[..]), cap[..]);
      }
    }

    /** Executes the instruction of t, just marked: panics on InstFail, records a match, or goes on. */
    method Visit(text: Text, pc: nat, pos: nat, ghost s: nat, ghost F: seq<Trail<Config>>,
        ghost L0: seq<Trail<Config>>, ghost done: seq<Trail<Config>>, ghost t: Trail<Config>,
        ghost rest: seq<Trail<Config>>)
        returns (status: Status, check: bool, pc': nat, pos': nat, ghost todo: seq<Trail<Config>>)
      requires WellFormed(prog) && end == |text| && ncap == cap.Length <= matchcap.Length && ncap != 1 &&
        cap != matchcap
      requires t.node == Config(pc, pos) && t.Path()[0].pos == s && !prog.insts[prog.start].Fail?
      requires Executes(prog, text, s, F, jobs, t, rest, cap[..], log)
      requires Tallied(text, done) && L0 + done + [t] <= F
      requires forall i :: 0 <= i < |F| ==> InRange(prog, text, F[i].node)
      modifies this`jobs, this`matched, cap, matchcap
      ensures status.Panicked? ==> Panics(prog, text, longest, ncap, F[|L0|..])
      ensures prog.insts[pc].Fail? ==> status.Panicked?
      ensures status.Stopped? ==> Settled(text, F[|L0|..]) && matched
      ensures status.Running? ==> Tallied(text, done + [t]) && |jobs| <= |old(jobs)| + if check then 1 else 0
      ensures status.Running? && check ==> Checks(prog, text, s, F, jobs, todo, cap[..], log, Config(pc', pos'))
      ensures status.Running? && !check ==> Pops(prog, text, s, F, jobs, todo, cap[..], log)
    {
      status, check, pc', pos', todo := Running, false, pc, pos, rest;
      if prog.insts[pc].Fail? {
        PanicsHere(prog, text, longest, ncap, F, L0, done, t);
        status := Panicked;
      } else if prog.insts[pc].Match? {
        var stop := VisitMatch(text, pos, s, F, L0, done, t, rest);
        if stop { status := Stopped; }
      } else {
        GoesOn(prog, text, longest, ncap, F, L0, done, t);
        check, pc', pos', todo := Execute(text, pc, pos, s, F, t, rest);
      }
    }

    /** Between two steps of the search: about to check (pc, pos), or about to pop a job. */
    ghost predicate Between(text: Text, s: nat, F: seq<Trail<Config>>, L0: seq<Trail<Config>>,
        done: seq<Trail<Config>>, check: bool, pc: nat, pos: nat, todo: seq<Trail<Config>>)
      reads this, cap, visited, matchcap
    {
      && Valid(text) && !prog.insts[prog.start].Fail?
      && log == L0 + done && Tallied(text, done)
      && if check then Checks(prog, text, s, F, jobs, todo, cap[..], log, Config(pc, pos))
         else Pops(prog, text, s, F, jobs, todo, cap[..], log)
    }

    /** The trail that has been executed is done. */
    lemma BetweenAgain(text: Text, s: nat, F: seq<Trail<Config>>, L0: seq<Trail<Config>>, done: seq<Trail<Config>>,
        t: Trail<Config>, check: bool, pc: nat, pos: nat, todo: seq<Trail<Config>>)
      requires Valid(text) && !prog.insts[prog.start].Fail? && log == L0 + done + [t] && Tallied(text, done + [t])
      requires if check then Checks(prog, text, s, F, jobs, todo, cap[..], log, Config(pc, pos))
               else Pops(prog, text, s, F, jobs, todo, cap[..], log)
      ensures Between(text, s, F, L0, done + [t], check, pc, pos, todo)
    {
      assert L0 + (done + [t]) == log;
    }

    /** Checks (pc, pos) or takes up the next job; go tells whether there is an instruction to execute. */
    method Fetch(text: Text, check: bool, pc: nat, pos: nat, ghost s: nat, ghost F: seq<Trail<Config>>,
        ghost L0: seq<Trail<Config>>, ghost done: seq<Trail<Config>>, ghost todo: seq<Trail<Config>>)
        returns (go: bool, check': bool, pc': nat, pos': nat, ghost todo': seq<Trail<Config>>)
      requires Between(text, s, F, L0, done, check, pc, pos, todo) && (check || jobs != [])
      modifies this`jobs, this`log, cap, visited
      ensures Tallied(text, done)
      ensures !go ==> Between(text, s, F, L0, done, check', pc', pos', todo')
      ensures !go ==> 2 * |jobs| + (if check' then 2 else 1) <= 2 * |old(jobs)| + (if check then 1 else 0)
      ensures go ==>
        todo != [] && log == old(log) + [todo[0]] && todo[0].node == Config(pc', pos') && jobs == old(jobs) && check
      ensures go ==> Executes(prog, text, s, F, jobs, todo[0], todo[1..], cap[..], log)
      ensures go && !prog.insts[pc'].Fail? ==> Marked(text)
    {
      if check {
        go := Check(text, pc, pos, s, F, todo);
        check', pc', pos', todo' := false, pc, pos, todo[1..];
      } else {
        var j := jobs[|jobs| - 1];
        jobs := jobs[..|jobs| - 1];
        assert jobs + [j] == old(jobs);
        check', pc', pos' := Resume(text, j, s, F, todo);
        go, todo' := false, todo;
      }
    }

    /** Visit, for the trail that has just been appended to the log. */
    method VisitNext(text: Text, pc: nat, pos: nat, ghost s: nat, ghost F: seq<Trail<Config>>,
        ghost L0: seq<Trail<Config>>, ghost done: seq<Trail<Config>>, ghost t: Trail<Config>,
        ghost rest: seq<Trail<Config>>)
        returns (status: Status, check: bool, pc': nat, pos': nat, ghost todo: seq<Trail<Config>>)
      requires WellFormed(prog) && end == |text| && ncap == cap.Length <= matchcap.Length && ncap != 1
      requires cap != matchcap && visited as object != cap && visited as object != matchcap
      requires pc < |prog.insts| && (!prog.insts[pc].Fail? ==> Marked(text))
      requires !prog.insts[prog.start].Fail?
      requires t.node == Config(pc, pos) && Executes(prog, text, s, F, jobs, t, rest, cap[..], log)
      requires log == L0 + done + [t] && Tallied(text, done)
      requires Explored(prog, text, s, F, L0)
      modifies this`jobs, this`matched, cap, matchcap
      ensures log <= F
      ensures status.Panicked? ==> Panics(prog, text, longest, ncap, F[|L0|..])
      ensures status.Stopped? ==> Marked(text) && Settled(text, F[|L0|..]) && matched
      ensures status.Running? ==> Between(text, s, F, L0, done + [t], check, pc', pos', todo)
      ensures status.Running? ==> |jobs| <= |old(jobs)| + if check then 1 else 0
    {
      ExecutesExtends(prog, text, s, F, jobs, t, rest, cap[..], log);
      NextFound(prog, s, F, L0, done, t);
      status, check, pc', pos', todo := Visit(text, pc, pos, s, F, L0, done, t, rest);
      if status.Running? { BetweenAgain(text, s, F, L0, done, t, check, pc', pos', todo); }
    }

    /** One turn of the search loop. */
    method Turn(text: Text, check: bool, pc: nat, pos: nat, ghost s: nat, ghost F: seq<Trail<Config>>,
        ghost L0: seq<Trail<Config>>, ghost done: seq<Trail<Config>>, ghost todo: seq<Trail<Config>>)
        returns (status: Status, check': bool, pc': nat, pos': nat, ghost done': seq<Trail<Config>>,
          ghost todo': seq<Trail<Config>>)
      requires Between(text, s, F, L0, done, check, pc, pos, todo) && (check || jobs != [])
      requires Explored(prog, text, s, F, L0) && log <= F
      modifies this`jobs, this`matched, this`log, cap, visited, matchcap
      ensures L0 <= log <= F && |old(log)| <= |log|
      ensures status.Panicked? ==> Panics(prog, text, longest, ncap, F[|L0|..])
      ensures status.Stopped? ==> Marked(text) && Settled(text, F[|L0|..]) && matched
      ensures status.Running? ==> Between(text, s, F, L0, done', check', pc', pos', todo')
      ensures status.Running? ==>
        1 + 2 * |jobs| + (if check' then 1 else 0) + 4 * |old(log)| <= 4 * |log| + 2 * |old(jobs)| +
          (if check then 1 else 0)
      ensures !status.Running? ==> |old(log)| < |log|
    {
      status, done' := Running, done;
      var go;
      go, check', pc', pos', todo' := Fetch(text, check, pc, pos, s, F, L0, done, todo);
      if go {
        ghost var t := todo[0];
        assert L0 + done + [t] == log;
        status, check', pc', pos', todo' := VisitNext(text, pc', pos', s, F, L0, done, t, todo[1..]);
        done' := done + [t];
      }
    }

    /** What holds between two turns: the search goes on, has stopped at a match, or has panicked;
        in any case it has taken no more turns than it has marked configurations to account for. */
    ghost predicate Going(text: Text, s: nat, F: seq<Trail<Config>>, L0: seq<Trail<Config>>, done: seq<Trail<Config>>,
        status: Status, check: bool, pc: nat, pos: nat, todo: seq<Trail<Config>>, steps: nat)
      requires WellFormed(prog)
      reads this, cap, visited, matchcap
    {
      && L0 <= log <= F && steps <= 4 * (|log| - |L0|)
      && match status
         case Running =>
           Between(text, s, F, L0, done, check, pc, pos, todo) &&
           steps + 2 * |jobs| + (if check then 1 else 0) <= 4 * (|log| - |L0|)
         case Panicked => Panics(prog, text, longest, ncap, F[|L0|..])
         case Stopped => Marked(text) && Settled(text, F[|L0|..]) && matched
    }

    /** One more turn, counted. */
    method CountedTurn(text: Text, check: bool, pc: nat, pos: nat, ghost s: nat, ghost F: seq<Trail<Config>>,
        ghost L0: seq<Trail<Config>>, ghost done: seq<Trail<Config>>, ghost todo: seq<Trail<Config>>,
        ghost steps: nat)
        returns (status: Status, check': bool, pc': nat, pos': nat, ghost done': seq<Trail<Config>>,
          ghost todo': seq<Trail<Config>>)
      requires WellFormed(prog) && Going(text, s, F, L0, done, Running, check, pc, pos, todo, steps) &&
        (check || jobs != [])
      requires Explored(prog, text, s, F, L0)
      modifies this`jobs, this`matched, this`log, cap, visited, matchcap
      ensures Going(text, s, F, L0, done', status, check', pc', pos', todo', steps + 1)
      ensures visited == old(visited) && |old(log)| <= |log|
    {
      status, check', pc', pos', done', todo' := Turn(text, check, pc, pos, s, F, L0, done, todo);
    }

    /** The first visit, to the start configuration. */
    method FirstVisit(text: Text, s: nat, ghost L0: seq<Trail<Config>>, ghost F: seq<Trail<Config>>)
      returns (status: Status, check: bool, pc: nat, pos: nat, ghost todo: seq<Trail<Config>>)
      requires Valid(text) && s <= end && jobs == [] && log == L0 + [StartTrail(prog, s)]
      requires !matched && !prog.insts[prog.start].Fail?
      requires Executes(prog, text, s, F, [], StartTrail(prog, s), [], cap[..], log)
      requires Explored(prog, text, s, F, L0)
      modifies this`jobs, this`matched, cap, matchcap
      ensures Going(text, s, F, L0, [StartTrail(prog, s)], status, check, pc, pos, todo, 1)
    {
      ghost var none: seq<Trail<Config>> := [];
      assert L0 + none + [StartTrail(prog, s)] == log;
      assert none + [StartTrail(prog, s)] == [StartTrail(prog, s)];
      status, check, pc, pos, todo := VisitNext(text, prog.start, s, s, F, L0, none, StartTrail(prog, s), []);
    }

    /** With no job left, everything that was found has been looked at. */
    lemma AllDone(text: Text, s: nat, F: seq<Trail<Config>>, L0: seq<Trail<Config>>, done: seq<Trail<Config>>,
        pc: nat, pos: nat, todo: seq<Trail<Config>>)
      requires Between(text, s, F, L0, done, false, pc, pos, todo) && jobs == []
      ensures |L0| <= |F| && log == F && Marked(text) && Settled(text, F[|L0|..]) &&
        Agree(cap[..], Registers(prog, ncap, s, []))
    {
      assert F[|L0|..] == done;
    }

    /** Runs the search from the start configuration, marked and popped, until no job is left or the search ends. */
    method RunJobs(text: Text, s: nat, ghost L0: seq<Trail<Config>>, ghost F: seq<Trail<Config>>)
        returns (panicked: bool, ghost steps: nat)
      requires Valid(text) && s <= end && jobs == [] && log == L0 + [StartTrail(prog, s)]
      requires !matched && !prog.insts[prog.start].Fail?
      requires Executes(prog, text, s, F, [], StartTrail(prog, s), [], cap[..], log)
      requires Explored(prog, text, s, F, L0)
      modifies this`jobs, this`matched, this`log, cap, visited, matchcap
      ensures L0 <= log <= F && steps <= 4 * (|log| - |L0|)
      ensures panicked ==> Panics(prog, text, longest, ncap, F[|L0|..])
      ensures !panicked ==> Marked(text) && Settled(text, F[|L0|..])
      ensures !panicked && !matched ==> jobs == [] && log == F && Agree(cap[..], Registers(prog, ncap, s, []))
    {
      var status, check, pc, pos;
      ghost var todo;
      status, check, pc, pos, todo := FirstVisit(text, s, L0, F);
      ghost var done := [StartTrail(prog, s)];
      steps := 1;
      while status.Running? && (check || jobs != [])
        invariant Going(text, s, F, L0, done, status, check, pc, pos, todo, steps)
        decreases 4 * |F| - steps
      {
        status, check, pc, pos, done, todo := CountedTurn(text, check, pc, pos, s, F, L0, done, todo, steps);
        steps := steps + 1;
      }
      panicked := status.Panicked?;
      if status.Running? { AllDone(text, s, F, L0, done, pc, pos, todo); }
    }

    /** Explores what the start configuration leads to: F is the log with all of that. */
    method ExploreFrom(text: Text, s: nat, ghost L0: seq<Trail<Config>>, ghost F: seq<Trail<Config>>)
        returns (panicked: bool, ghost steps: nat)
      requires Valid(text) && s <= end && jobs == [] && !matched && log == L0
      requires F == Explore(Runs(prog, text), [StartTrail(prog, s)], L0) && Explored(prog, text, s, F, L0)
      requires Agree(cap[..], Registers(prog, ncap, s, []))
      modifies this`jobs, this`matched, this`log, cap, visited, matchcap
      ensures L0 <= log <= F && steps <= 4 * (|log| - |L0|)
      ensures panicked <==> Panics(prog, text, longest, ncap, F[|L0|..])
      ensures !panicked ==> Marked(text) && Settled(text, F[|L0|..])
      ensures !panicked && !matched ==> jobs == [] && log == F && Agree(cap[..], Registers(prog, ncap, s, []))
    {
      ghost var root := StartTrail(prog, s);
      panicked, steps := false, 0;
      Push(prog.start, s);
      if jobs == [] {
        NothingNew(prog, text, longest, ncap, s, log);
        LogFound(prog, text, log, s);
        log := F;
        return;
      }
      jobs := [];
      MarksAfter(prog, end, old(visited[..]), visited[..], log, root);
      StartsExecution(prog, text, s, log, cap[..]);
      log := log + [root];
      panicked, steps := RunJobs(text, s, L0, F);
    }

    /** Searches from s, skipping every configuration that is already marked. The registers
        come back as they were when the search fails, and the work is linear in what it marks. */
    method TryBacktrack(text: Text, s: nat) returns (panicked: bool, ghost steps: nat)
      requires Valid(text) && s <= end && jobs == []
      requires Agree(cap[..], Registers(prog, ncap, s, []))
      modifies this`jobs, this`matched, this`log, cap, visited, matchcap
      ensures old(log) <= log <= old(log) + old(Found(text, s)) && steps <= 4 * (|log| - |old(log)|)
      ensures panicked <==> Panics(prog, text, longest, ncap, old(Found(text, s)))
      ensures !panicked ==> Marked(text) && Settled(text, old(Found(text, s)))
      ensures !panicked && !matched ==>
        jobs == [] && log == old(log) + old(Found(text, s)) && Agree(cap[..], Registers(prog, ncap, s, []))
    {
      ghost var L0, F, found := log, Explore(Runs(prog, text), [StartTrail(prog, s)], log), Found(text, s);
      ExploreExtends(Runs(prog, text), [StartTrail(prog, s)], L0);
      assert F == L0 + found;
      FoundExplored(prog, text, s, log);
      matched := false;
      panicked, steps := ExploreFrom(text, s, L0, F);
    }

    /** Makes every bit that the search can reach zero, reusing the table when it is large enough. */
    method ClearVisited(size: nat)
      requires size <= MAX_BACKTRACK_VECTOR / VISITED_BITS
      modifies this`visited, visited
      ensures visited == old(visited) || fresh(visited)
      ensures size <= visited.Length && forall i :: 0 <= i < size ==> visited[i] == 0
    {
      if visited.Length < size {
        visited := new bv32[MAX_BACKTRACK_VECTOR / VISITED_BITS](i => 0);
      } else {
        forall i | 0 <= i < size { visited[i] := 0; }
      }
    }

    method ClearCaptures(ncap: nat)
      modifies this`cap, this`ncap, cap
      ensures cap == old(cap) || fresh(cap)
      ensures this.ncap == ncap == cap.Length && forall i :: 0 <= i < ncap ==> cap[i] == -1
    {
      this.ncap := ncap;
      if cap.Length != ncap {
        cap := new int[ncap];
      }
      forall i | 0 <= i < ncap { cap[i] := -1; }
    }

    /** Empties the job stack, the visited table and the registers for a search of a text of length end. */
    method Reset(end: nat, ncap: nat)
      requires WellFormed(prog) && VisitedSize(|prog.insts|, end) <= MAX_BACKTRACK_VECTOR / VISITED_BITS
      requires visited as object != cap
      modifies this`end, this`ncap, this`jobs, this`visited, this`cap, this`log, visited, cap
      ensures this.end == end && this.ncap == ncap == cap.Length && jobs == [] && log == []
      ensures (visited == old(visited) || fresh(visited)) && (cap == old(cap) || fresh(cap)) && visited as object != cap
      ensures Marks(prog, end, visited[..], [])
      ensures forall i :: 0 <= i < ncap ==> cap[i] == -1
    {
      this.end := end;
      jobs := [];
      log := [];
      ClearVisited(VisitedSize(|prog.insts|, end));
      NoMarks(prog, end, visited[..]);
      ghost var words := visited[..];
      ClearCaptures(ncap);
      assert visited[..] == words;
    }

    /** What holds before start position i is tried: nothing of positions pos..i matched or crashed. */
    ghost predicate Sweeping(text: Text, pos: nat, i: nat)
      reads this, cap, visited, matchcap
    {
      && Valid(text) && jobs == []
      && Swept(prog, text, pos, i, log) && Visited(log) !! Matches(prog, text)
      && forall k :: 2 <= k < ncap ==> cap[k] == -1
    }

    /** Tries start position i. */
    method TryAt(text: Text, pos: nat, i: nat) returns (panicked: bool, ghost steps: nat)
      requires Sweeping(text, pos, i) && pos <= i <= end
      modifies this`jobs, this`matched, this`log, cap, visited, matchcap
      ensures old(log) <= log <= Explore(Runs(prog, text), [StartTrail(prog, i)], old(log)) &&
        steps <= 4 * (|log| - |old(log)|)
      ensures panicked <==> CrashAt(prog, text, longest, ncap, i)
      ensures !panicked ==> (matched <==> MatchesFrom(prog, text, i))
      ensures !panicked && matched ==>
        Wanted(prog, text, longest, pos).Some? && Wanted(prog, text, longest, pos).value != []
      ensures !panicked && matched && ncap > 0 ==> matchcap[..ncap] == Report(prog, ncap,
        Wanted(prog, text, longest, pos).value)
      ensures !panicked && !matched ==> Sweeping(text, pos, i + 1)
    {
      if cap.Length > 0 {
        cap[0] := i;
      }
      PanicIsCrash(prog, text, longest, ncap, pos, i, log);
      MatchedIsNaive(prog, text, longest, pos, i, log);
      ghost var L, new_ := log, Found(text, i);
      panicked, steps := TryBacktrack(text, i);
      if !panicked {
        if matched {
          RecordIsWanted(prog, text, longest, pos, i, L);
        } else {
          SweepOn(prog, text, pos, i, L);
          StillNoMatch(prog, text, longest, L, new_);
        }
      }
    }

    /** Clears the machine for a search from pos. */
    method Prepare(text: Text, pos: nat, ncap: nat)
      requires WellFormed(prog) && pos <= |text| && ncap != 1 && ncap <= matchcap.Length
      requires VisitedSize(|prog.insts|, |text|) <= MAX_BACKTRACK_VECTOR / VISITED_BITS
      requires cap != matchcap && visited as object != cap && visited as object != matchcap
      modifies this`end, this`ncap, this`jobs, this`visited, this`cap, this`log, visited, cap, matchcap
      ensures this.ncap == ncap && log == [] && end == |text| && Sweeping(text, pos, pos)
      ensures (visited == old(visited) || fresh(visited)) && (cap == old(cap) || fresh(cap))
    {
      Reset(|text|, ncap);
      ghost var words, c := visited[..], cap[..];
      forall i | 0 <= i < ncap { matchcap[i] := -1; }
      assert visited[..] == words && cap[..] == c;
      assert StartTrails(prog, pos, pos) == [];
    }

    /** Tries start position i once more, keeping account of the work done since the table was empty. */
    method TryNext(text: Text, pos: nat, i: nat, ghost before: nat) returns (panicked: bool, ghost steps: nat)
      requires Sweeping(text, pos, i) && pos <= i <= end && before <= 4 * |log|
      modifies this`jobs, this`matched, this`log, cap, visited, matchcap
      ensures steps <= 4 * (|prog.insts| * (|text| + 1)) && steps <= 4 * |log|
      ensures panicked <==> CrashAt(prog, text, longest, ncap, i)
      ensures !panicked ==> (matched <==> MatchesFrom(prog, text, i))
      ensures !panicked && matched ==>
        Wanted(prog, text, longest, pos).Some? && Wanted(prog, text, longest, pos).value != []
      ensures !panicked && matched && ncap > 0 ==> matchcap[..ncap] == Report(prog, ncap,
        Wanted(prog, text, longest, pos).value)
      ensures !panicked && !matched ==> Sweeping(text, pos, i + 1)
    {
      SweepOn(prog, text, pos, i, log);
      SweepIsLinear(prog, text, pos, i + 1, Explore(Runs(prog, text), [StartTrail(prog, i)], log));
      panicked, steps := TryAt(text, pos, i);
      steps := steps + before;
    }

    /** Unanchored search: every start position from pos to the end of the text, in order. */
    method Sweep(text: Text, pos: nat) returns (ok: bool, panicked: bool, ghost steps: nat)
      requires Sweeping(text, pos, pos) && pos <= end && log == []
      modifies this`jobs, this`matched, this`log, cap, visited, matchcap
      ensures !panicked ==> (ok <==> Wanted(prog, text, longest, pos).Some?)
      ensures !panicked && ok ==> Wanted(prog, text, longest, pos).value != []
      ensures !panicked && ok && ncap > 0 ==> matchcap[..ncap] == Report(prog, ncap,
        Wanted(prog, text, longest, pos).value)
      ensures panicked <==> Crashes(prog, text, longest, ncap, pos, |text|)
      ensures steps <= 4 * (|prog.insts| * (|text| + 1))
    {
      ok, panicked, steps := false, false, 0;
      var i, width: int := pos, -1;
      ghost var next := pos;
      while i <= end && width != 0
        invariant i <= end && next == (if width == 0 then end + 1 else i)
        invariant pos <= next && Sweeping(text, pos, next)
        invariant steps <= 4 * (|prog.insts| * (|text| + 1)) && steps <= 4 * |log|
        invariant NothingYet(prog, text, longest, ncap, pos, next)
        decreases end + 1 - next
      {
        CrashVerdict(prog, text, longest, ncap, pos, i, end);
        panicked, steps := TryNext(text, pos, i, steps);
        if panicked {
          return;
        }
        if matched {
          ok := true;
          return;
        }
        width := StepWidth(text, i);
        i := i + width;
        next := next + 1;
      }
      QuietVerdict(prog, text, longest, ncap, pos);
    }

    /** Searches the text from pos for the leftmost match: leftmost-first, or leftmost-longest. */
    method Backtrack(text: Text, pos: nat, ncap: nat, cond: Option<EmptyOp>)
        returns (ok: bool, panicked: bool, ghost steps: nat)
      requires WellFormed(prog) && StartCond(prog) == Some(cond) && pos <= |text|
      requires ncap != 1 && ncap <= matchcap.Length
      requires VisitedSize(|prog.insts|, |text|) <= MAX_BACKTRACK_VECTOR / VISITED_BITS
      requires cap != matchcap && visited as object != cap && visited as object != matchcap
      modifies this`end, this`ncap, this`jobs, this`visited, this`cap, this`log, this`matched, visited, cap, matchcap
      ensures !panicked ==> (ok <==> Wanted(prog, text, longest, pos).Some?)
      ensures !panicked && ok ==> Wanted(prog, text, longest, pos).value != []
      ensures !panicked && ok && ncap > 0 ==> matchcap[..ncap] == Report(prog, ncap,
        Wanted(prog, text, longest, pos).value)
      ensures panicked <==> Attempted(cond, pos) && Crashes(prog, text, longest, ncap, pos,
        LastStart(cond.value, pos, |text|))
      ensures steps <= 4 * (|prog.insts| * (|text| + 1))
    {
      ok, panicked, steps := false, false, 0;
      forall s | MatchesFrom(prog, text, s) ensures cond.Some? && (BeginText in cond.value ==> s == 0) {
        NoMatchOutside(prog, text, s);
      }
      if cond.None? || (BeginText in cond.value && pos != 0) {
        NothingWanted(prog, text, longest, pos);
        return;
      }
      Prepare(text, pos, ncap);
      if BeginText in cond.value {
        panicked, steps := TryNext(text, pos, pos, 0);
        ok := !panicked && matched;
        if !ok && !panicked { NothingWanted(prog, text, longest, pos); }
      } else {
        ok, panicked, steps := Sweep(text, pos);
      }
    }
  }
}
