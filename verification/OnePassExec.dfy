/** The one-pass branch of doExecute (src/regexp/exec.go:440-444): with directed tables it
    answers what the other engines answer of the program that was compiled. */
module OnePassExec {
  import opened Search
  import opened RegexpProg
  import opened MatchSpec
  import opened OnePassTables
  import opened OnePassRun
  import opened Exec
  import C = OnePassCopy

  /** p' has been made of p by compileOnePass, and its tables are directed. */
  ghost predicate Compiled(p: Prog, p': Prog, given: seq<seq<int>>, t: Tables, S: set<nat>) {
    && WellFormed(p) && Anchored(p) && Guarded(p)
    && p' == Prog(C.RewrittenFrom(p.insts, 0), p.start) && Ready(p', given, t, S)
  }

  lemma Rewritten(p: Prog, p': Prog)
    requires WellFormed(p) && p' == Prog(C.RewrittenFrom(p.insts, 0), p.start)
    ensures C.Closed(p.insts) && C.Closed(p'.insts)
    ensures C.SameMeaning(p.insts, p'.insts) && C.SameMeaning(p'.insts, p.insts)
  {
    C.AllRewritten(p, p.insts, 0);
  }

  /** The last step of a way through alternatives. */
  lemma LastEdge(insts: seq<Inst>, x: nat, y: nat) returns (z: nat)
    requires C.Connects(insts, x, y) && C.IsAlt(insts, x) && !C.IsAlt(insts, y)
    ensures C.Edge(insts, z, y)
  {
    var q :| C.AltPathBetween(insts, x, y, q);
    z := q[|q| - 2];
    assert C.Edge(insts, q[|q| - 2], q[|q| - 1]);
  }

  /** What the compiler looks for in the program holds of the rewritten one, too. */
  lemma StaysGuarded(p: Prog, p': Prog)
    requires WellFormed(p) && Anchored(p) && Guarded(p) && p' == Prog(C.RewrittenFrom(p.insts, 0), p.start)
    ensures Anchored(p') && Guarded(p')
  {
    Rewritten(p, p');
    forall pc | 0 <= pc < |p'.insts| ensures GuardedAt(p', p'.insts[pc]) {
      var inst := p'.insts[pc];
      assert GuardedAt(p, p.insts[pc]);
      if inst.Alt? {
        NotToMatch(p, p', pc, inst.out);
        NotToMatch(p, p', pc, inst.arg);
      }
    }
  }

  lemma NotToMatch(p: Prog, p': Prog, x: nat, y: nat)
    requires Guarded(p) && C.SameMeaning(p.insts, p'.insts) && C.Edge(p'.insts, x, y)
    ensures !LeadsToMatch(p', y)
  {
    if LeadsToMatch(p', y) {
      C.OneStep(p'.insts, x, y);
      assert !C.IsAlt(p.insts, y) && C.Connects(p.insts, x, y);
      var z := LastEdge(p.insts, x, y);
      assert false;
    }
  }

  // ----------------------------------------------------------- what a skeleton tells

  lemma SkeletonLast(insts: seq<Inst>, q: seq<Config>)
    requires q != []
    ensures var front, c := q[..|q| - 1], q[|q| - 1];
      C.Skeleton(insts, q) == C.Skeleton(insts, front) + if C.IsAlt(insts, c.pc) then [] else [c]
  {
    var front, c := q[..|q| - 1], q[|q| - 1];
    assert front + [c] == q;
    C.SkeletonJoin(insts, front, [c]);
    C.SkeletonOfOne(insts, c);
  }

  /** A configuration at an alternative changes no register; others count alike behind any run. */
  lemma RegistersLast(p: Prog, ncap: nat, s: nat, q: seq<Config>, sk: seq<Config>, c: Config)
    requires Registers(p, ncap, s, q) == Registers(p, ncap, s, sk)
    ensures Registers(p, ncap, s, q + [c]) == Registers(p, ncap, s, sk + if C.IsAlt(p.insts, c.pc) then [] else [c])
  {
    assert (q + [c])[..|q|] == q;
    if C.IsAlt(p.insts, c.pc) { assert sk + [] == sk; } else { assert (sk + [c])[..|sk|] == sk; }
  }

  lemma {:induction false} RegistersOfSkeleton(p: Prog, ncap: nat, s: nat, q: seq<Config>)
    ensures Registers(p, ncap, s, q) == Registers(p, ncap, s, C.Skeleton(p.insts, q))
    decreases |q|
  {
    if q == [] {
    } else {
      var front, c := q[..|q| - 1], q[|q| - 1];
      RegistersOfSkeleton(p, ncap, s, front);
      RegistersLast(p, ncap, s, front, C.Skeleton(p.insts, front), c);
      SkeletonLast(p.insts, q);
      FrontAndLast(q);
    }
  }

  lemma FrontAndLast(q: seq<Config>)
    requires q != []
    ensures q[..|q| - 1] + [q[|q| - 1]] == q
  {}

  lemma {:induction false} SameRegisters(p: Prog, p': Prog, ncap: nat, s: nat, q: seq<Config>)
    requires C.SameButLegs(p.insts, p'.insts)
    ensures Registers(p, ncap, s, q) == Registers(p', ncap, s, q)
    decreases |q|
  {
    if q != [] { SameRegisters(p, p', ncap, s, q[..|q| - 1]); }
  }

  lemma SameReport(p: Prog, p': Prog, text: Text, ncap: nat, c: Config, d: Config, q: seq<Config>, q': seq<Config>)
    requires C.SameButLegs(p.insts, p'.insts) && C.Run(p, text, c, d, q) && C.Run(p', text, c, d, q')
    requires C.Skeleton(p.insts, q) == C.Skeleton(p'.insts, q')
    ensures Report(p, ncap, q) == Report(p', ncap, q')
  {
    RegistersOfSkeleton(p, ncap, c.pos, q);
    RegistersOfSkeleton(p', ncap, c.pos, q');
    SameRegisters(p, p', ncap, c.pos, C.Skeleton(p.insts, q));
  }

  // ------------------------------------------------------------------------- agreement

  /** An accepting run has an accepting counterpart with the same skeleton. */
  lemma Counterpart(p: Prog, p': Prog, text: Text, s: nat, q: seq<Config>) returns (r: seq<Config>)
    requires C.Closed(p.insts) && C.Closed(p'.insts) && C.SameMeaning(p.insts, p'.insts) && p.start == p'.start
    requires Accepting(p, text, s, q)
    ensures Accepting(p', text, s, r) && C.Skeleton(p.insts, q) == C.Skeleton(p'.insts, r)
    ensures C.Run(p, text, Start(p, s), q[|q| - 1], q) && C.Run(p', text, Start(p, s), q[|q| - 1], r)
  {
    RunsDomain(p, text);
    RunsDomain(p', text);
    var d := q[|q| - 1];
    r := C.RunCarried(p, p', text, Start(p, s), d, q);
  }

  /** There is one accepting run at most. */
  ghost predicate OneRun(p: Prog, text: Text) {
    forall q: seq<Config>, q': seq<Config> :: IsRun(p, text, q) && IsRun(p, text, q') ==> q == q'
  }

  ghost predicate IsRun(p: Prog, text: Text, q: seq<Config>) { q != [] && Accepting(p, text, q[0].pos, q) }

  /** Directed tables show that there is. */
  lemma DirectedOneRun(p: Prog, given: seq<seq<int>>, t: Tables, S: set<nat>, text: Text)
    requires Ready(p, given, t, S) && Anchored(p) && Guarded(p) && RunesOnly(text)
    ensures OneRun(p, text)
  {
    forall q: seq<Config>, q': seq<Config> | IsRun(p, text, q) && IsRun(p, text, q') ensures q == q' {
      StartsAtZero(p, text, q);
      StartsAtZero(p, text, q');
      Followed(p, given, t, S, text, q);
      Followed(p, given, t, S, text, q');
      SameTrace(p, given, t, text, Config(p.start, 0), |q|, |q'|);
    }
  }

  /** The compiled program and the one it was compiled from have the same answers if there is one run at most. */
  lemma SameAnswer(p: Prog, p': Prog, text: Text, longest: bool, ncap: nat, pos: nat)
    requires WellFormed(p) && WellFormed(p') && p' == Prog(C.RewrittenFrom(p.insts, 0), p.start)
    requires OneRun(p', text) && pos <= |text|
    ensures Answer(p, text, longest, ncap, pos) == Answer(p', text, longest, ncap, pos)
  {
    Rewritten(p, p');
    AnswerWanted(p, text, longest, ncap, pos);
    AnswerWanted(p', text, longest, ncap, pos);
    if Answer(p, text, longest, ncap, pos).Some? {
      WantedMeaning(p, text, longest, pos);
      var w := Wanted(p, text, longest, pos).value;
      var r := Counterpart(p, p', text, w[0].pos, w);
      WantedMeaning(p', text, longest, pos);
      assert IsRun(p', text, r) && IsRun(p', text, Wanted(p', text, longest, pos).value);
      SameReport(p, p', text, ncap, w[0], w[|w| - 1], w, r);
    } else if Answer(p', text, longest, ncap, pos).Some? {
      WantedMeaning(p', text, longest, pos);
      var w := Wanted(p', text, longest, pos).value;
      var r := Counterpart(p', p, text, w[0].pos, w);
      assert false;
    }
  }

  /** No condition at the start can be met, so nothing is wanted. */
  lemma NothingStarts(p: Prog, text: Text, longest: bool, pos: nat)
    requires WellFormed(p) && StartCond(p) == Some(None) && pos <= |text|
    ensures Wanted(p, text, longest, pos).None?
  {
    WantedExists(p, text, longest, pos);
    if s, q :| pos <= s <= |text| && Accepting(p, text, s, q) {
      StartCondSound(p, text, p.start, s, {}, |p.insts| + 1, q);
      assert false;
    }
  }

  /** The run of the compiled program ends after n turns at most, and tells the answer a. */
  ghost predicate Tells(p': Prog, given: seq<seq<int>>, t: Tables, text: Text, ncap: nat, pos: nat, n: nat,
      a: Option<seq<int>>) {
    && Runnable(p', given, t) && Anchored(p') && pos <= |text|
    && var c := Config(p'.start, pos);
       && HaltsIn(p', given, t, text, c, n)
       && a == if Finds(p', given, t, text, c, n) then Some(Report(p', ncap, Trace(p', given, t, text, c, n))) else None
  }

  lemma RunAnswers(p: Prog, p': Prog, given: seq<seq<int>>, t: Tables, S: set<nat>, text: Text, longest: bool,
      ncap: nat, pos: nat) returns (n: nat)
    requires Compiled(p, p', given, t, S) && RunesOnly(text) && pos <= |text|
    ensures Tells(p', given, t, text, ncap, pos, n, Answer(p, text, longest, ncap, pos))
  {
    StaysGuarded(p, p');
    DirectedLeads(p', given, t, S);
    n := HaltsFrom(p', given, t, S, text, Config(p'.start, pos));
    FindsWanted(p', given, t, S, text, longest, pos, n);
    DirectedOneRun(p', given, t, S, text);
    SameAnswer(p, p', text, longest, ncap, pos);
    AnswerWanted(p', text, longest, ncap, pos);
  }

  lemma NoAnswer(p: Prog, text: Text, longest: bool, ncap: nat, pos: nat)
    requires WellFormed(p) && StartCond(p) == Some(None) && pos <= |text|
    ensures Answer(p, text, longest, ncap, pos).None?
  {
    NothingStarts(p, text, longest, pos);
  }

  /** doExecute for a program that has been compiled for one pass: ncap is 0 if only the answer counts. */
  method ExecuteOnePass(ghost p: Prog, p': Prog, ghost given: seq<seq<int>>, t: Tables, text: Text, ghost longest: bool,
      ncap: nat, pos: nat, cond: Option<EmptyOp>, matchcap: array<int>, ghost S: set<nat>)
      returns (result: Option<seq<int>>)
    requires Compiled(p, p', given, t, S) && StartCond(p) == Some(cond)
    requires RunesOnly(text) && pos <= |text| && matchcap.Length != 1
    modifies matchcap
    ensures result == Answer(p, text, longest, if ncap == 0 then 0 else matchcap.Length, pos)
  {
    ghost var regs := if ncap == 0 then 0 else matchcap.Length;
    ghost var n := RunAnswers(p, p', given, t, S, text, longest, regs, pos);
    if cond.None? { NoAnswer(p, text, longest, regs, pos); }
    result := TellAnswer(p', given, t, text, ncap, pos, cond, matchcap, n, Answer(p, text, longest, regs, pos));
  }

  method TellAnswer(p': Prog, ghost given: seq<seq<int>>, t: Tables, text: Text, ncap: nat, pos: nat,
      cond: Option<EmptyOp>, matchcap: array<int>, ghost n: nat, ghost a: Option<seq<int>>)
      returns (result: Option<seq<int>>)
    requires Tells(p', given, t, text, if ncap == 0 then 0 else matchcap.Length, pos, n, a)
    requires matchcap.Length != 1 && (cond.None? ==> a.None?)
    modifies matchcap
    ensures result == a
  {
    var matched := RunOnePass(p', given, t, text, pos, cond, matchcap, n);
    if !matched {
      return None;
    }
    if ncap == 0 {
      assert a.value == [];
      return Some([]);
    }
    assert a.value == matchcap[..];
    result := Some(matchcap[..]);
  }
}
