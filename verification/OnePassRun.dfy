/** The one-pass runner (src/regexp/exec.go:321-418) and when it reports what the other engines do. */
module OnePassRun {
  import opened Search
  import opened RegexpProg
  import opened MatchSpec
  import opened OnePass
  import opened OnePassTables

  // ------------------------------------------------------------------- what is compiled

  /** A one-pass program is anchored at the beginning of the text. */
  predicate Anchored(p: Prog) {
    p.start < |p.insts| && p.insts[p.start].EmptyWidth? && BeginText in p.insts[p.start].cond
  }

  predicate LeadsToMatch(p: Prog, pc: nat) { pc < |p.insts| && p.insts[pc].Match? }

  /** Every instruction that leads to InstMatch checks for the end of the text. */
  predicate Guarded(p: Prog) { forall pc :: 0 <= pc < |p.insts| ==> GuardedAt(p, p.insts[pc]) }

  predicate GuardedAt(p: Prog, inst: Inst) {
    match inst
    case Alt(out, arg) => !LeadsToMatch(p, out) && !LeadsToMatch(p, arg)
    case EmptyWidth(out, cond) => LeadsToMatch(p, out) ==> EndText in cond
    case Match => true
    case Fail => true
    case _ => !LeadsToMatch(p, inst.out)
  }

  /** Tables that the runner can work with. */
  ghost predicate Runnable(p: Prog, given: seq<seq<int>>, t: Tables) {
    WellFormed(p) && Given(p, given) && Shaped(p, given, t) && LegsOk(p, t)
  }

  predicate RunesOnly(text: Text) { forall i :: 0 <= i < |text| ==> text[i] <= MAX_RUNE }

  // --------------------------------------------------------------------------- one turn

  function AltInst(t: Tables, pc: nat): OnePassInst
    requires pc < |t.cells| && pc < |t.runes|
  {
    OnePassInst(t.runes[pc], t.cells[pc].next, t.cells[pc].altMatch, t.cells[pc].out)
  }

  /** Where onePassNext goes from an alternative. */
  ghost function NextOf(i: OnePassInst, r: int): nat
    requires |i.next| == Pairs(i.runes)
  {
    if Covers(i.runes, r) then
      var k :| 0 <= k < Pairs(i.runes) && InPair(i.runes, k, r);
      i.next[k]
    else if i.altMatch then i.out else 0
  }

  lemma NextIs(i: OnePassInst, r: int, k: nat)
    requires Ordered(i.runes) && |i.next| == Pairs(i.runes) && k < Pairs(i.runes) && InPair(i.runes, k, r)
    ensures NextOf(i, r) == i.next[k]
  {
    var j :| 0 <= j < Pairs(i.runes) && InPair(i.runes, j, r) && NextOf(i, r) == i.next[j];
    OnePair(i.runes, j, k, r);
  }

  /** One turn of the runner ends the run or goes on. */
  datatype Turn = Stop(matched: bool) | Go(c: Config)

  ghost function TurnAt(p: Prog, given: seq<seq<int>>, t: Tables, text: Text, c: Config): (r: Turn)
    requires Runnable(p, given, t) && InRange(p, text, c)
    ensures r.Go? ==> InRange(p, text, r.c)
  {
    var inst, r := p.insts[c.pc], StepRune(text, c.pos);
    assert InstOk(inst, |p.insts|);
    match inst
    case Match => Stop(true)
    case Fail => Stop(false)
    case Alt(_, _) =>
      LegInRange(p, given, t, c.pc, r);
      Go(Config(NextOf(AltInst(t, c.pc), r), c.pos))
    case Nop(out) => Go(Config(out, c.pos))
    case Capture(out, _) => Go(Config(out, c.pos))
    case EmptyWidth(out, cond) => if Satisfied(cond, Context(text, c.pos)) then Go(Config(out, c.pos)) else Stop(false)
    case Rune(out, _) =>
      if c.pos < |text| && Covers(t.runes[c.pc], r) then Go(Config(out, c.pos + 1)) else Stop(false)
    case _ =>
      if c.pos < |text| && Consumes(inst, text[c.pos]) then Go(Config(inst.out, c.pos + 1)) else Stop(false)
  }

  /** An alternative leads to one of its legs, or to InstFail. */
  lemma LegInRange(p: Prog, given: seq<seq<int>>, t: Tables, pc: nat, r: int)
    requires Runnable(p, given, t) && pc < |p.insts| && p.insts[pc].Alt?
    ensures |t.cells[pc].next| == Pairs(t.runes[pc])
    ensures var x := NextOf(AltInst(t, pc), r);
      x < |p.insts| && (x == 0 || x == p.insts[pc].out || x == p.insts[pc].arg)
  {
    assert LegsAt(p, t, pc) && ShapedAt(p, given, t, pc) && InstOk(p.insts[pc], |p.insts|);
    if Covers(t.runes[pc], r) {
      var k :| 0 <= k < Pairs(t.runes[pc]) && InPair(t.runes[pc], k, r);
      NextIs(AltInst(t, pc), r, k);
      assert t.cells[pc].next[k] in {t.cells[pc].out, t.cells[pc].arg};
    }
  }

  /** The run from c comes to an end within n turns. */
  ghost predicate HaltsIn(p: Prog, given: seq<seq<int>>, t: Tables, text: Text, c: Config, n: nat)
    requires Runnable(p, given, t) && InRange(p, text, c)
    decreases n
  {
    n > 0 &&
    match TurnAt(p, given, t, text, c)
    case Stop(_) => true
    case Go(d) => HaltsIn(p, given, t, text, d, n - 1)
  }

  /** The configurations of that run. */
  ghost function Trace(p: Prog, given: seq<seq<int>>, t: Tables, text: Text, c: Config, n: nat): (q: seq<Config>)
    requires Runnable(p, given, t) && InRange(p, text, c) && HaltsIn(p, given, t, text, c, n)
    ensures |q| > 0 && q[0] == c
    decreases n
  {
    match TurnAt(p, given, t, text, c)
    case Stop(_) => [c]
    case Go(d) => [c] + Trace(p, given, t, text, d, n - 1)
  }

  ghost predicate Finds(p: Prog, given: seq<seq<int>>, t: Tables, text: Text, c: Config, n: nat)
    requires Runnable(p, given, t) && InRange(p, text, c) && HaltsIn(p, given, t, text, c, n)
  {
    var q := Trace(p, given, t, text, c, n);
    IsMatch(p, q[|q| - 1])
  }

  // ------------------------------------------------------- what is found is a run

  /** A turn follows the program, except that an alternative may lead to InstFail. */
  lemma TurnFollows(p: Prog, given: seq<seq<int>>, t: Tables, text: Text, S: set<nat>, c: Config)
    requires Runnable(p, given, t) && Filled(p, given, t, S) && InRange(p, text, c) && c.pc in S
    ensures var r := TurnAt(p, given, t, text, c);
      r.Go? ==> r.c.pc == 0 || (r.c in Successors(p, text, c) && r.c.pc in S)
    ensures TurnAt(p, given, t, text, c) == Stop(true) <==> IsMatch(p, c)
  {
    var inst := p.insts[c.pc];
    if inst.Alt? {
      LegInRange(p, given, t, c.pc, StepRune(text, c.pos));
    } else if inst.Rune? && c.pos < |text| {
      assert Covers(given[c.pc], text[c.pos]) <==> text[c.pos] in inst.accepts;
    }
    var r := TurnAt(p, given, t, text, c);
    if r.Go? && r.c.pc != 0 { assert Follows(p, c.pc, r.c.pc); }
  }

  lemma {:induction false} FoundIsRun(p: Prog, given: seq<seq<int>>, t: Tables, text: Text, S: set<nat>, c: Config,
      n: nat)
    requires Runnable(p, given, t) && Filled(p, given, t, S) && InRange(p, text, c) && c.pc in S
    requires HaltsIn(p, given, t, text, c, n) && Finds(p, given, t, text, c, n)
    ensures Leads(Runs(p, text), Matches(p, text), c, Trace(p, given, t, text, c, n))
    decreases n
  {
    RunsDomain(p, text);
    TurnFollows(p, given, t, text, S, c);
    var q := Trace(p, given, t, text, c, n);
    match TurnAt(p, given, t, text, c)
    case Stop(_) =>
      assert q == [c] && q[1..] == [];
    case Go(d) =>
      assert q[1..] == Trace(p, given, t, text, d, n - 1);
      if d.pc != 0 { FoundIsRun(p, given, t, text, S, d, n - 1); }
  }

  // ----------------------------------------------- directed tables: every run is found

  /** An accepting run either begins with the next rune or ends at the end of the text. */
  lemma {:induction false} Ahead(p: Prog, given: seq<seq<int>>, text: Text, q: seq<Config>)
    requires WellFormed(p) && Given(p, given) && Guarded(p) && RunesOnly(text)
    requires q != [] && Leads(Runs(p, text), Matches(p, text), q[0], q) && !IsMatch(p, q[0])
    ensures var c := q[0];
      if c.pos < |text| then Begins(p, given, c.pc, text[c.pos]) else c.pos == |text| && Ends(p, c.pc)
    decreases |q|
  {
    RunsDomain(p, text);
    var c, d := q[0], q[1];
    var inst := p.insts[c.pc];
    assert d in Successors(p, text, c) && GuardedAt(p, inst);
    if IsRune(inst) {
      RuneAhead(p, given, text, c);
    } else if IsMatch(p, d) {
      AtTextEnd(text, c.pos);
      assert EndsIn(p, d.pc, 1) && EndsIn(p, c.pc, 2);
    } else {
      Ahead(p, given, text, q[1..]);
      AheadOne(p, given, c.pc, d.pc, StepRune(text, c.pos));
    }
  }

  lemma AtTextEnd(text: Text, pos: nat)
    requires pos <= |text| && EndText in Context(text, pos)
    ensures pos == |text|
  {}

  lemma AtTextStart(text: Text, pos: nat)
    requires pos <= |text| && BeginText in Context(text, pos)
    ensures pos == 0
  {}

  lemma RuneAhead(p: Prog, given: seq<seq<int>>, text: Text, c: Config)
    requires WellFormed(p) && Given(p, given) && RunesOnly(text)
    requires c.pc < |p.insts| && IsRune(p.insts[c.pc]) && c.pos < |text| && Consumes(p.insts[c.pc], text[c.pos])
    ensures Begins(p, given, c.pc, text[c.pos])
  {
    var set_, r := RuneSet(p.insts[c.pc], given[c.pc]), text[c.pos];
    if !p.insts[c.pc].Rune? {
      var k := if p.insts[c.pc].RuneAnyNotNL? && r > NEWLINE then 1 else 0;
      assert InPair(set_, k, r);
    }
    assert BeginsIn(p, given, c.pc, r, 1);
  }

  /** Every alternative leads a rune to the leg that begins with it, and at the end of the text to
      the leg that matches there. */
  ghost predicate Directed(p: Prog, given: seq<seq<int>>, t: Tables, S: set<nat>) {
    && Filled(p, given, t, S)
    && forall pc :: pc in S ==> pc < |p.insts| && (p.insts[pc].Alt? ==> DirectsAt(p, given, t, pc))
  }

  ghost predicate DirectsAt(p: Prog, given: seq<seq<int>>, t: Tables, pc: nat) {
    && pc < |p.insts| && pc < |t.cells| && pc < |t.runes| && |t.cells[pc].next| == Pairs(t.runes[pc])
    && forall x: nat :: Follows(p, pc, x) ==> DirectsTo(p, given, t, pc, x)
  }

  ghost predicate DirectsTo(p: Prog, given: seq<seq<int>>, t: Tables, pc: nat, x: nat)
    requires pc < |t.cells| && pc < |t.runes| && |t.cells[pc].next| == Pairs(t.runes[pc])
  {
    && (forall r :: Begins(p, given, x, r) ==> NextOf(AltInst(t, pc), r) == x)
    && (Ends(p, x) ==> NextOf(AltInst(t, pc), END_OF_TEXT) == x)
  }

  lemma SettledIsFilled(p: Prog, given: seq<seq<int>>, t: Tables, S: set<nat>)
    requires SettledOn(p, given, t, S)
    ensures Filled(p, given, t, S)
  {
    assert SettledAt(p, given, t, p.start);
    forall pc | pc in S && pc < |p.insts| && p.insts[pc].Rune? ensures t.runes[pc] == RuneSet(p.insts[pc], given[pc]) {
      assert SettledAt(p, given, t, pc);
    }
  }

  /** Settled tables do so. */
  lemma SettledDirects(p: Prog, given: seq<seq<int>>, t: Tables, S: set<nat>)
    requires Runnable(p, given, t) && SettledOn(p, given, t, S)
    ensures Directed(p, given, t, S)
  {
    SettledIsFilled(p, given, t, S);
    forall pc | pc in S ensures pc < |p.insts| && (p.insts[pc].Alt? ==> DirectsAt(p, given, t, pc)) {
      assert SettledAt(p, given, t, pc);
      if p.insts[pc].Alt? {
        forall x: nat | Follows(p, pc, x) ensures DirectsTo(p, given, t, pc, x) { SettledLeg(p, given, t, S, pc, x); }
      }
    }
  }

  lemma SettledLeg(p: Prog, given: seq<seq<int>>, t: Tables, S: set<nat>, pc: nat, x: nat)
    requires Runnable(p, given, t) && SettledOn(p, given, t, S) && pc in S && pc < |p.insts| && p.insts[pc].Alt?
    requires Follows(p, pc, x)
    ensures |t.cells[pc].next| == Pairs(t.runes[pc]) && DirectsTo(p, given, t, pc, x)
  {
    assert SettledAt(p, given, t, pc) && ShapedAt(p, given, t, pc);
    forall r | Begins(p, given, x, r) ensures NextOf(AltInst(t, pc), r) == x { LegByRune(p, given, t, S, pc, x, r); }
    NotCovered(t.runes[pc]);
    if Ends(p, x) { LegAtEnd(p, given, t, S, pc, x, END_OF_TEXT); }
  }

  /** With settled tables the leg that begins with r is the one taken. */
  lemma LegByRune(p: Prog, given: seq<seq<int>>, t: Tables, S: set<nat>, pc: nat, x: nat, r: int)
    requires Runnable(p, given, t) && SettledOn(p, given, t, S) && pc in S && pc < |p.insts| && p.insts[pc].Alt?
    requires Follows(p, pc, x) && Begins(p, given, x, r)
    ensures |t.cells[pc].next| == Pairs(t.runes[pc]) && NextOf(AltInst(t, pc), r) == x
  {
    var n: nat :| BeginsIn(p, given, x, r, n);
    CoversBegins(p, given, t, S, x, r, n);
    assert SettledAt(p, given, t, pc);
    var k :| 0 <= k < Pairs(t.runes[pc]) && InPair(t.runes[pc], k, r);
    NextIs(AltInst(t, pc), r, k);
  }

  /** If neither begins with r it is the leg that matches without input. */
  lemma LegAtEnd(p: Prog, given: seq<seq<int>>, t: Tables, S: set<nat>, pc: nat, x: nat, r: int)
    requires Runnable(p, given, t) && SettledOn(p, given, t, S) && pc in S && pc < |p.insts| && p.insts[pc].Alt?
    requires Follows(p, pc, x) && Ends(p, x) && !Covers(t.runes[pc], r)
    ensures |t.cells[pc].next| == Pairs(t.runes[pc]) && NextOf(AltInst(t, pc), r) == x
  {
    var n: nat :| EndsIn(p, x, n);
    YesEnds(p, given, t, S, x, n);
    assert SettledAt(p, given, t, pc);
  }

  lemma NotCovered(runes: seq<int>)
    requires IsSet(runes)
    ensures !Covers(runes, END_OF_TEXT)
  {
    forall k | 0 <= k < Pairs(runes) ensures !InPair(runes, k, END_OF_TEXT) { assert runes[2 * k] >= 0; }
  }

  lemma Forced(p: Prog, given: seq<seq<int>>, t: Tables, S: set<nat>, text: Text, q: seq<Config>)
    requires Runnable(p, given, t) && Directed(p, given, t, S) && Guarded(p) && RunesOnly(text)
    requires |q| > 1 && Leads(Runs(p, text), Matches(p, text), q[0], q) && q[0].pc in S
    ensures InRange(p, text, q[0]) && TurnAt(p, given, t, text, q[0]) == Go(q[1]) && q[1].pc in S
  {
    RunsDomain(p, text);
    var c, d := q[0], q[1];
    var inst := p.insts[c.pc];
    assert d in Successors(p, text, c) && GuardedAt(p, inst);
    assert Follows(p, c.pc, d.pc);
    if inst.Alt? {
      Ahead(p, given, text, q[1..]);
      assert DirectsAt(p, given, t, c.pc) && DirectsTo(p, given, t, c.pc, d.pc);
    } else if inst.Rune? {
      assert Covers(given[c.pc], text[c.pos]) <==> text[c.pos] in inst.accepts;
    }
  }

  /** The runner goes along the accepting run, if there is one; so there is one at most. */
  lemma {:induction false} Followed(p: Prog, given: seq<seq<int>>, t: Tables, S: set<nat>, text: Text, q: seq<Config>)
    requires Runnable(p, given, t) && Directed(p, given, t, S) && Guarded(p) && RunesOnly(text)
    requires q != [] && Leads(Runs(p, text), Matches(p, text), q[0], q) && q[0].pc in S
    ensures InRange(p, text, q[0]) && HaltsIn(p, given, t, text, q[0], |q|)
    ensures Trace(p, given, t, text, q[0], |q|) == q
    decreases |q|
  {
    RunsDomain(p, text);
    if |q| == 1 {
      LoneMatch(p, given, t, text, q);
    } else {
      Forced(p, given, t, S, text, q);
      LeadsOn(Runs(p, text), Matches(p, text), q);
      Followed(p, given, t, S, text, q[1..]);
      TraceGoes(p, given, t, text, q);
    }
  }

  lemma LoneMatch(p: Prog, given: seq<seq<int>>, t: Tables, text: Text, q: seq<Config>)
    requires Runnable(p, given, t) && |q| == 1 && q[0] in Matches(p, text)
    ensures InRange(p, text, q[0]) && HaltsIn(p, given, t, text, q[0], 1) && Trace(p, given, t, text, q[0], 1) == q
  {
    RunsDomain(p, text);
  }

  lemma LeadsOn(g: Graph<Config>, T: set<Config>, q: seq<Config>)
    requires |q| > 1 && Leads(g, T, q[0], q)
    ensures Leads(g, T, q[1], q[1..])
  {}

  lemma TraceGoes(p: Prog, given: seq<seq<int>>, t: Tables, text: Text, q: seq<Config>)
    requires Runnable(p, given, t) && |q| > 1 && InRange(p, text, q[0]) && InRange(p, text, q[1])
    requires TurnAt(p, given, t, text, q[0]) == Go(q[1]) && HaltsIn(p, given, t, text, q[1], |q| - 1)
    requires Trace(p, given, t, text, q[1], |q| - 1) == q[1..]
    ensures HaltsIn(p, given, t, text, q[0], |q|) && Trace(p, given, t, text, q[0], |q|) == q
  {
    var r := Trace(p, given, t, text, q[0], |q|);
    assert r == [q[0]] + q[1..];
  }

  lemma {:induction false} SameTrace(p: Prog, given: seq<seq<int>>, t: Tables, text: Text, c: Config, j: nat, k: nat)
    requires Runnable(p, given, t) && InRange(p, text, c)
    requires HaltsIn(p, given, t, text, c, j) && HaltsIn(p, given, t, text, c, k)
    ensures Trace(p, given, t, text, c, j) == Trace(p, given, t, text, c, k)
    decreases j
  {
    match TurnAt(p, given, t, text, c)
    case Stop(_) =>
    case Go(d) => SameTrace(p, given, t, text, d, j - 1, k - 1);
  }

  // ------------------------------------------------------------------------- the run ends

  /** Within n instructions a chain of single successors comes to something else. */
  predicate ChainEnds(p: Prog, pc: nat, n: nat)
    decreases n
  {
    n > 0 && (pc < |p.insts| && IsStraight(p.insts[pc]) ==> ChainEnds(p, p.insts[pc].out, n - 1))
  }

  /** No cycle of a program is without an alternative and without a rune. */
  predicate ChainsEnd(p: Prog) { forall pc :: 0 <= pc < |p.insts| ==> ChainEnds(p, pc, |p.insts|) }

  /** What the proofs about the runner rest on. */
  ghost predicate Ready(p: Prog, given: seq<seq<int>>, t: Tables, S: set<nat>) {
    Runnable(p, given, t) && Sound(p, given, t) && Directed(p, given, t, S) && ChainsEnd(p)
  }

  /** Two different legs do not begin with the same rune and do not both match. */
  ghost predicate Parted(p: Prog, given: seq<seq<int>>, pc: nat) {
    forall x: nat, y: nat :: Follows(p, pc, x) && Follows(p, pc, y) && x != y ==>
      (forall r :: !(Begins(p, given, x, r) && Begins(p, given, y, r))) && !(Ends(p, x) && Ends(p, y))
  }

  /** Tables that lead a rune nowhere but to a leg that begins with it, or to one that may match;
      they need not be complete. */
  ghost predicate Led(p: Prog, given: seq<seq<int>>, t: Tables, S: set<nat>) {
    && Runnable(p, given, t) && Sound(p, given, t) && ChainsEnd(p) && Closed(p, S)
    && forall pc :: pc in S && pc < |p.insts| && p.insts[pc].Alt? ==> Parted(p, given, pc) && Apt(p, given, t, pc)
  }

  /** Directed tables are such tables. */
  lemma DirectedLeads(p: Prog, given: seq<seq<int>>, t: Tables, S: set<nat>)
    requires Ready(p, given, t, S)
    ensures Led(p, given, t, S)
  {
    forall pc | pc in S && pc < |p.insts| && p.insts[pc].Alt? ensures Parted(p, given, pc) && Apt(p, given, t, pc) {
      assert DirectsAt(p, given, t, pc);
      forall x: nat, y: nat | Follows(p, pc, x) && Follows(p, pc, y) && x != y
        ensures (forall r :: !(Begins(p, given, x, r) && Begins(p, given, y, r))) && !(Ends(p, x) && Ends(p, y))
      {
        assert DirectsTo(p, given, t, pc, x) && DirectsTo(p, given, t, pc, y);
      }
      DirectedIsApt(p, given, t, S, pc);
    }
  }

  lemma DirectedIsApt(p: Prog, given: seq<seq<int>>, t: Tables, S: set<nat>, pc: nat)
    requires Ready(p, given, t, S) && pc in S && pc < |p.insts| && p.insts[pc].Alt?
    ensures Apt(p, given, t, pc)
  {
    assert DirectsAt(p, given, t, pc) && ShapedAt(p, given, t, pc) && SoundAt(p, given, t, pc);
    forall k: nat, r | k < |t.cells[pc].next| && k < Pairs(t.runes[pc]) && InPair(t.runes[pc], k, r)
      ensures Begins(p, given, t.cells[pc].next[k], r)
    {
      var x := LegBegins(p, given, pc, r);
      assert DirectsTo(p, given, t, pc, x);
      NextIs(AltInst(t, pc), r, k);
    }
    if Yes(t.m, pc) {
      var x := LegEnds(p, pc);
      assert DirectsTo(p, given, t, pc, x);
      NotCovered(t.runes[pc]);
    }
  }

  lemma LegBegins(p: Prog, given: seq<seq<int>>, pc: nat, r: int) returns (x: nat)
    requires pc < |p.insts| && p.insts[pc].Alt? && Begins(p, given, pc, r)
    ensures Follows(p, pc, x) && Begins(p, given, x, r)
  {
    var n: nat :| BeginsIn(p, given, pc, r, n);
    x := if BeginsIn(p, given, p.insts[pc].out, r, n - 1) then p.insts[pc].out else p.insts[pc].arg;
    assert BeginsIn(p, given, x, r, n - 1);
  }

  lemma LegEnds(p: Prog, pc: nat) returns (x: nat)
    requires pc < |p.insts| && p.insts[pc].Alt? && Ends(p, pc)
    ensures Follows(p, pc, x) && Ends(p, x)
  {
    var n: nat :| EndsIn(p, pc, n);
    x := if EndsIn(p, p.insts[pc].out, n - 1) then p.insts[pc].out else p.insts[pc].arg;
    assert EndsIn(p, x, n - 1);
  }

  lemma OneMoreTurn(p: Prog, given: seq<seq<int>>, t: Tables, text: Text, c: Config, d: Config, n: nat)
    requires Runnable(p, given, t) && InRange(p, text, c) && InRange(p, text, d)
    requires TurnAt(p, given, t, text, c) == Go(d) && HaltsIn(p, given, t, text, d, n)
    ensures HaltsIn(p, given, t, text, c, n + 1)
  {}

  /** However it goes on, the run ends, and not behind the end of the text. */
  lemma {:induction false} HaltsFrom(p: Prog, given: seq<seq<int>>, t: Tables, S: set<nat>, text: Text, c: Config)
      returns (n: nat)
    requires Led(p, given, t, S) && InRange(p, text, c) && c.pc in S
    ensures HaltsIn(p, given, t, text, c, n)
    decreases |text| - c.pos, 4, 0
  {
    var r := StepRune(text, c.pos);
    if Begins(p, given, c.pc, r) {
      var j: nat :| BeginsIn(p, given, c.pc, r, j);
      n := HaltsAtRune(p, given, t, S, text, c, j);
    } else {
      n := HaltsPast(p, given, t, S, text, c);
    }
  }

  /** The next rune is none that may come. */
  lemma HaltsPast(p: Prog, given: seq<seq<int>>, t: Tables, S: set<nat>, text: Text, c: Config) returns (n: nat)
    requires Led(p, given, t, S) && InRange(p, text, c) && c.pc in S
    requires !Begins(p, given, c.pc, StepRune(text, c.pos))
    ensures HaltsIn(p, given, t, text, c, n)
    decreases |text| - c.pos, 2, 0
  {
    if Ends(p, c.pc) {
      var j: nat :| EndsIn(p, c.pc, j);
      n := HaltsAtMatch(p, given, t, S, text, c, j);
    } else {
      n := HaltsNowhere(p, given, t, S, text, c, |p.insts|);
    }
  }

  /** A rune instruction stops the run or moves on in the text. */
  lemma {:induction false} HaltsBehind(p: Prog, given: seq<seq<int>>, t: Tables, S: set<nat>, text: Text, c: Config)
      returns (n: nat)
    requires Led(p, given, t, S) && InRange(p, text, c) && c.pc in S && IsRune(p.insts[c.pc])
    ensures HaltsIn(p, given, t, text, c, n)
    decreases |text| - c.pos, 0, 0
  {
    n := 1;
    if TurnAt(p, given, t, text, c).Go? {
      var d := TurnAt(p, given, t, text, c).c;
      assert Follows(p, c.pc, d.pc);
      n := HaltsFrom(p, given, t, S, text, d);
      OneMoreTurn(p, given, t, text, c, d, n);
      n := n + 1;
    }
  }

  /** While a rune that may come is next, the way to it gets shorter, or is left for good. */
  lemma {:induction false} HaltsAtRune(p: Prog, given: seq<seq<int>>, t: Tables, S: set<nat>, text: Text, c: Config,
      j: nat)
      returns (n: nat)
    requires Led(p, given, t, S) && InRange(p, text, c) && c.pc in S
    requires BeginsIn(p, given, c.pc, StepRune(text, c.pos), j)
    ensures HaltsIn(p, given, t, text, c, n)
    decreases |text| - c.pos, 3, j
  {
    var r := StepRune(text, c.pos);
    if IsRune(p.insts[c.pc]) {
      n := HaltsBehind(p, given, t, S, text, c);
    } else {
      n := 1;
      if TurnAt(p, given, t, text, c).Go? {
        var d := TurnAt(p, given, t, text, c).c;
        EmptyTurn(p, given, t, S, text, c);
        if d.pc == 0 {
          n := 1;
        } else if Begins(p, given, d.pc, r) {
          StillBegins(p, given, S, t, c.pc, d.pc, r, j);
          n := HaltsAtRune(p, given, t, S, text, d, j - 1);
        } else {
          n := HaltsPast(p, given, t, S, text, d);
        }
        OneMoreTurn(p, given, t, text, c, d, n);
        n := n + 1;
      }
    }
  }

  /** A turn that consumes nothing goes to InstFail or along the program. */
  lemma EmptyTurn(p: Prog, given: seq<seq<int>>, t: Tables, S: set<nat>, text: Text, c: Config)
    requires Led(p, given, t, S) && InRange(p, text, c) && c.pc in S && !IsRune(p.insts[c.pc])
    requires TurnAt(p, given, t, text, c).Go?
    ensures var d := TurnAt(p, given, t, text, c).c;
      d.pos == c.pos && if d.pc == 0 then HaltsIn(p, given, t, text, d, 1) else Follows(p, c.pc, d.pc) && d.pc in S
  {
    var d := TurnAt(p, given, t, text, c).c;
    if p.insts[c.pc].Alt? { LegInRange(p, given, t, c.pc, StepRune(text, c.pos)); }
    if d.pc == 0 { assert TurnAt(p, given, t, text, d) == Stop(false); } else { assert Follows(p, c.pc, d.pc); }
  }

  lemma StillBegins(p: Prog, given: seq<seq<int>>, S: set<nat>, t: Tables, pc: nat, x: nat, r: int, j: nat)
    requires Led(p, given, t, S) && pc in S && pc < |p.insts| && !IsRune(p.insts[pc]) && Follows(p, pc, x)
    requires BeginsIn(p, given, pc, r, j) && Begins(p, given, x, r)
    ensures BeginsIn(p, given, x, r, j - 1)
  {
    var inst := p.insts[pc];
    if inst.Alt? {
      var y := if BeginsIn(p, given, inst.out, r, j - 1) then inst.out else inst.arg;
      assert BeginsIn(p, given, y, r, j - 1) && Follows(p, pc, y);
      assert Parted(p, given, pc);
    }
  }

  lemma {:induction false} HaltsAtMatch(p: Prog, given: seq<seq<int>>, t: Tables, S: set<nat>, text: Text, c: Config,
      j: nat)
      returns (n: nat)
    requires Led(p, given, t, S) && InRange(p, text, c) && c.pc in S
    requires EndsIn(p, c.pc, j) && !Begins(p, given, c.pc, StepRune(text, c.pos))
    ensures HaltsIn(p, given, t, text, c, n)
    decreases j
  {
    n := 1;
    if TurnAt(p, given, t, text, c).Go? {
      var d := TurnAt(p, given, t, text, c).c;
      EmptyTurn(p, given, t, S, text, c);
      if d.pc != 0 {
        StillEnds(p, given, t, S, text, c, j);
        n := HaltsAtMatch(p, given, t, S, text, d, j - 1);
      }
      OneMoreTurn(p, given, t, text, c, d, n);
      n := n + 1;
    }
  }

  /** When no rune that may come is next an alternative is left for the leg that matches. */
  lemma StillEnds(p: Prog, given: seq<seq<int>>, t: Tables, S: set<nat>, text: Text, c: Config, j: nat)
    requires Led(p, given, t, S) && InRange(p, text, c) && c.pc in S && TurnAt(p, given, t, text, c).Go?
    requires EndsIn(p, c.pc, j) && !Begins(p, given, c.pc, StepRune(text, c.pos))
    requires Follows(p, c.pc, TurnAt(p, given, t, text, c).c.pc) && TurnAt(p, given, t, text, c).c.pc != 0
    ensures EndsIn(p, TurnAt(p, given, t, text, c).c.pc, j - 1)
    ensures !Begins(p, given, TurnAt(p, given, t, text, c).c.pc, StepRune(text, c.pos))
  {
    var inst, x, r := p.insts[c.pc], TurnAt(p, given, t, text, c).c.pc, StepRune(text, c.pos);
    AheadOne(p, given, c.pc, x, r);
    if inst.Alt? {
      assert SoundAt(p, given, t, c.pc) && ShapedAt(p, given, t, c.pc);
      assert Apt(p, given, t, c.pc) && Parted(p, given, c.pc);
      var y := if EndsIn(p, inst.out, j - 1) then inst.out else inst.arg;
      assert EndsIn(p, y, j - 1) && Follows(p, c.pc, y);
    }
  }

  lemma {:induction false} HaltsNowhere(p: Prog, given: seq<seq<int>>, t: Tables, S: set<nat>, text: Text, c: Config,
      j: nat)
      returns (n: nat)
    requires Led(p, given, t, S) && InRange(p, text, c) && c.pc in S && ChainEnds(p, c.pc, j)
    requires !Begins(p, given, c.pc, StepRune(text, c.pos)) && !Ends(p, c.pc)
    ensures HaltsIn(p, given, t, text, c, n)
    decreases |text| - c.pos, 1, j
  {
    var inst, r := p.insts[c.pc], StepRune(text, c.pos);
    if IsRune(inst) {
      n := HaltsBehind(p, given, t, S, text, c);
    } else if inst.Alt? {
      assert SoundAt(p, given, t, c.pc);
      DeadEnd(p, given, t, text, c);
      n := 2;
    } else {
      n := 1;
      if TurnAt(p, given, t, text, c).Go? {
        var d := Config(inst.out, c.pos);
        assert Follows(p, c.pc, d.pc) && InstOk(inst, |p.insts|);
        AheadOne(p, given, c.pc, d.pc, r);
        n := HaltsNowhere(p, given, t, S, text, d, j - 1);
        OneMoreTurn(p, given, t, text, c, d, n);
        n := n + 1;
      }
    }
  }

  lemma DeadEnd(p: Prog, given: seq<seq<int>>, t: Tables, text: Text, c: Config)
    requires Runnable(p, given, t) && InRange(p, text, c) && p.insts[c.pc].Alt?
    requires !Covers(t.runes[c.pc], StepRune(text, c.pos)) && !Yes(t.m, c.pc)
    ensures HaltsIn(p, given, t, text, c, 2)
  {
    assert ShapedAt(p, given, t, c.pc);
    LegInRange(p, given, t, c.pc, StepRune(text, c.pos));
    var d := Config(0, c.pos);
    assert TurnAt(p, given, t, text, c) == Go(d) && TurnAt(p, given, t, text, d) == Stop(false);
    assert HaltsIn(p, given, t, text, d, 1);
  }

  // ------------------------------------------------------------------------ what is found

  /** On directed tables the runner finds the wanted run, and nothing when none is wanted. */
  lemma FindsWanted(p: Prog, given: seq<seq<int>>, t: Tables, S: set<nat>, text: Text, longest: bool, pos: nat, n: nat)
    requires Ready(p, given, t, S) && Anchored(p) && Guarded(p) && RunesOnly(text) && pos <= |text|
    requires HaltsIn(p, given, t, text, Config(p.start, pos), n)
    ensures var c, w := Config(p.start, pos), Wanted(p, text, longest, pos);
      if Finds(p, given, t, text, c, n) then pos == 0 && w == Some(Trace(p, given, t, text, c, n)) else w.None?
  {
    var c := Config(p.start, pos);
    WantedExists(p, text, longest, pos);
    if Finds(p, given, t, text, c, n) {
      FoundIsRun(p, given, t, text, S, c, n);
      assert Accepting(p, text, pos, Trace(p, given, t, text, c, n));
    }
    if Wanted(p, text, longest, pos).Some? {
      WantedMeaning(p, text, longest, pos);
      var w := Wanted(p, text, longest, pos).value;
      StartsAtZero(p, text, w);
      Followed(p, given, t, S, text, w);
      SameTrace(p, given, t, text, c, n, |w|);
    }
  }

  lemma StartsAtZero(p: Prog, text: Text, q: seq<Config>)
    requires WellFormed(p) && Anchored(p) && q != [] && Accepting(p, text, q[0].pos, q)
    ensures q[0] == Config(p.start, 0)
  {
    RunsDomain(p, text);
    assert |q| > 1 && q[1] in Successors(p, text, q[0]);
    AtTextStart(text, q[0].pos);
  }

  // ------------------------------------------------------------------------- the runner

  /** The registers but the first, which is set at the end. */
  ghost predicate CapAgrees(cap: seq<int>, regs: seq<int>) {
    |cap| == |regs| && forall i :: 0 < i < |cap| ==> cap[i] == regs[i]
  }

  /** The run from start has come to c, q behind it and k turns ahead at most. */
  ghost predicate Midway(p: Prog, given: seq<seq<int>>, t: Tables, text: Text, start: Config, n: nat, q: seq<Config>,
      c: Config, k: nat, cap: seq<int>) {
    && Runnable(p, given, t) && InRange(p, text, start) && InRange(p, text, c)
    && HaltsIn(p, given, t, text, start, n) && HaltsIn(p, given, t, text, c, k)
    && Trace(p, given, t, text, start, n) == q + Trace(p, given, t, text, c, k)
    && CapAgrees(cap, Registers(p, |cap|, 0, q))
  }

  lemma MidwayGo(p: Prog, given: seq<seq<int>>, t: Tables, text: Text, start: Config, n: nat, q: seq<Config>, c: Config,
      k: nat, cap: seq<int>, d: Config, cap': seq<int>)
    requires Midway(p, given, t, text, start, n, q, c, k, cap) && TurnAt(p, given, t, text, c) == Go(d)
    requires cap' == if p.insts[c.pc].Capture? && p.insts[c.pc].reg < |cap| then cap[p.insts[c.pc].reg := c.pos]
      else cap
    ensures k > 0 && Midway(p, given, t, text, start, n, q + [c], d, k - 1, cap')
  {
    Shift(q, c, Trace(p, given, t, text, d, k - 1));
    RegistersStep(p, |cap|, 0, Trail(q, c));
    assert InstOk(p.insts[c.pc], |p.insts|);
  }

  lemma Shift(q: seq<Config>, c: Config, rest: seq<Config>)
    ensures q + ([c] + rest) == q + [c] + rest
  {}

  lemma MidwayStop(p: Prog, given: seq<seq<int>>, t: Tables, text: Text, start: Config, n: nat, q: seq<Config>,
      c: Config, k: nat, cap: seq<int>, matched: bool)
    requires Midway(p, given, t, text, start, n, q, c, k, cap) && TurnAt(p, given, t, text, c) == Stop(matched)
    ensures Trace(p, given, t, text, start, n) == q + [c] && (Finds(p, given, t, text, start, n) <==> matched)
  {
    assert (q + [c])[|q|] == c;
  }

  /** The registers a run from the beginning of the text reports. */
  lemma Reported(p: Prog, given: seq<seq<int>>, t: Tables, text: Text, start: Config, n: nat, q: seq<Config>,
      c: Config, k: nat, cap: seq<int>)
    requires Midway(p, given, t, text, start, n, q, c, k, cap) && TurnAt(p, given, t, text, c) == Stop(true)
    requires start.pos == 0 && |cap| > 1
    ensures cap[0 := 0][1 := c.pos] == Report(p, |cap|, Trace(p, given, t, text, start, n))
  {
    MidwayStop(p, given, t, text, start, n, q, c, k, cap, true);
    RegistersStep(p, |cap|, 0, Trail(q, c));
    FirstRegister(p, |cap|, q + [c]);
  }

  lemma {:induction false} FirstRegister(p: Prog, ncap: nat, q: seq<Config>)
    requires ncap > 0 && forall i :: 0 <= i < |p.insts| ==> InstOk(p.insts[i], |p.insts|)
    ensures Registers(p, ncap, 0, q)[0] == 0
  {
    if q != [] {
      FirstRegister(p, ncap, q[..|q| - 1]);
      var c := q[|q| - 1];
      assert c.pc < |p.insts| ==> InstOk(p.insts[c.pc], |p.insts|);
    }
  }

  lemma MidwayAtStart(p: Prog, given: seq<seq<int>>, t: Tables, text: Text, start: Config, n: nat, cap: seq<int>)
    requires Runnable(p, given, t) && InRange(p, text, start) && HaltsIn(p, given, t, text, start, n)
    requires forall i :: 0 <= i < |cap| ==> cap[i] == -1
    ensures Midway(p, given, t, text, start, n, [], start, n, cap)
  {
    var q := Trace(p, given, t, text, start, n);
    assert [] + q == q;
  }

  method Blank(a: array<int>)
    modifies a
    ensures forall i :: 0 <= i < a.Length ==> a[i] == -1
  {
    var i := 0;
    while i < a.Length
      invariant 0 <= i <= a.Length && forall j :: 0 <= j < i ==> a[j] == -1
    {
      a[i] := -1;
      i := i + 1;
    }
  }

  /** Whether a rune instruction of the one-pass program takes r, the rune that is next. */
  method TakesRune(p: Prog, ghost given: seq<seq<int>>, t: Tables, pc: nat, r: int) returns (takes: bool)
    requires Runnable(p, given, t) && pc < |p.insts| && IsRune(p.insts[pc])
    ensures r >= 0 ==> (takes <==> if p.insts[pc].Rune? then Covers(t.runes[pc], r) else Consumes(p.insts[pc], r))
  {
    assert ShapedAt(p, given, t, pc);
    match p.insts[pc]
    case Rune(_, _) =>
      var at := FindPair(t.runes[pc], r);
      takes := at != NO_MATCH;
    case Rune1(_, rune) => takes := r == rune;
    case RuneAny(_) => takes := true;
    case RuneAnyNotNL(_) => takes := r != NEWLINE;
  }

  /** Where an alternative goes. */
  method NextLeg(p: Prog, ghost given: seq<seq<int>>, t: Tables, pc: nat, r: int) returns (x: nat)
    requires Runnable(p, given, t) && pc < |p.insts| && p.insts[pc].Alt?
    ensures |t.cells[pc].next| == Pairs(t.runes[pc]) && x == NextOf(AltInst(t, pc), r)
  {
    assert ShapedAt(p, given, t, pc) && LegsAt(p, t, pc);
    x := OnePassNext(AltInst(t, pc), r);
    if Covers(t.runes[pc], r) {
      ghost var k :| 0 <= k < Pairs(t.runes[pc]) && InPair(t.runes[pc], k, r) && x == t.cells[pc].next[k];
      NextIs(AltInst(t, pc), r, k);
    }
  }

  /** One turn of the loop, with the next rune and the context at hand. */
  method RunnerTurn(p: Prog, ghost given: seq<seq<int>>, t: Tables, ghost text: Text, c: Config, r: int, flag: EmptyOp,
      matchcap: array<int>) returns (turn: Turn)
    requires Runnable(p, given, t) && InRange(p, text, c) && r == StepRune(text, c.pos) && flag == Context(text, c.pos)
    modifies matchcap
    ensures turn == TurnAt(p, given, t, text, c)
    ensures matchcap[..] == if p.insts[c.pc].Capture? && p.insts[c.pc].reg < matchcap.Length
                            then old(matchcap[..])[p.insts[c.pc].reg := c.pos] else old(matchcap[..])
  {
    assert InstOk(p.insts[c.pc], |p.insts|);
    match p.insts[c.pc]
    case Match => turn := Stop(true);
    case Fail => turn := Stop(false);
    case Alt(_, _) =>
      var x := NextLeg(p, given, t, c.pc, r);
      turn := Go(Config(x, c.pos));
    case Nop(out) => turn := Go(Config(out, c.pos));
    case EmptyWidth(out, cond) =>
      turn := if Satisfied(cond, flag) then Go(Config(out, c.pos)) else Stop(false);
    case Capture(out, reg) =>
      if reg < matchcap.Length {
        matchcap[reg] := c.pos;
      }
      turn := Go(Config(out, c.pos));
    case _ =>
      var takes := TakesRune(p, given, t, c.pc, r);
      turn := if takes && r != END_OF_TEXT then Go(Config(p.insts[c.pc].out, c.pos + 1)) else Stop(false);
  }

  /** The next two runes and the context between runes at pos. */
  ghost predicate Looks(text: Text, pos: nat, r: int, r1: int, flag: EmptyOp) {
    r == StepRune(text, pos) && r1 == StepRune(text, pos + 1) && flag == Context(text, pos)
  }

  method FirstLook(text: Text, pos: nat) returns (r: int, r1: int, flag: EmptyOp)
    requires pos <= |text|
    ensures Looks(text, pos, r, r1, flag)
  {
    r, r1 := StepRune(text, pos), END_OF_TEXT;
    if r != END_OF_TEXT {
      r1 := StepRune(text, pos + 1);
    }
    flag := if pos == 0 then EmptyOpContext(END_OF_TEXT, r) else ContextAt(text, pos);
  }

  method NextLook(text: Text, pos: nat, next: nat, r: int, r1: int, flag: EmptyOp)
      returns (r': int, r1': int, flag': EmptyOp)
    requires Looks(text, pos, r, r1, flag) && (next == pos || (next == pos + 1 && pos < |text|))
    ensures Looks(text, next, r', r1', flag')
  {
    r', r1', flag' := r, r1, flag;
    if next != pos {
      EmptyOpContextIs(text, next);
      flag' := EmptyOpContext(r, r1);
      r' := r1;
      if r' != END_OF_TEXT {
        r1' := StepRune(text, next + 1);
      }
    }
  }

  lemma TurnMoves(p: Prog, given: seq<seq<int>>, t: Tables, text: Text, c: Config)
    requires Runnable(p, given, t) && InRange(p, text, c)
    ensures var turn := TurnAt(p, given, t, text, c);
      turn.Go? ==> turn.c.pos == c.pos || (turn.c.pos == c.pos + 1 && c.pos < |text|)
  {}

  /** Sets the two registers of the whole match. */
  method Deliver(p: Prog, ghost given: seq<seq<int>>, t: Tables, ghost text: Text, ghost n: nat, ghost q: seq<Config>,
      c: Config, ghost k: nat, matchcap: array<int>)
    requires Midway(p, given, t, text, Config(p.start, 0), n, q, c, k, matchcap[..]) && matchcap.Length != 1
    requires TurnAt(p, given, t, text, c) == Stop(true)
    modifies matchcap
    ensures matchcap.Length > 0 ==>
      matchcap[..] == Report(p, matchcap.Length, Trace(p, given, t, text, Config(p.start, 0), n))
  {
    if matchcap.Length > 0 {
      Reported(p, given, t, text, Config(p.start, 0), n, q, c, k, matchcap[..]);
      matchcap[0], matchcap[1] := 0, c.pos;
      assert matchcap[..] == old(matchcap[..])[0 := 0][1 := c.pos];
    }
  }

  /** Before the first instruction, or behind it and so in a run from the beginning of the text. */
  ghost predicate Under(p: Prog, pos: nat, q: seq<Config>, c: Config) {
    if q == [] then c == Config(p.start, pos) else pos == 0
  }

  lemma UnderNext(p: Prog, given: seq<seq<int>>, t: Tables, text: Text, pos: nat, q: seq<Config>, c: Config)
    requires Runnable(p, given, t) && Anchored(p) && InRange(p, text, c) && Under(p, pos, q, c)
    ensures TurnAt(p, given, t, text, c) != Stop(false) ==> pos == 0
  {
    if q == [] && TurnAt(p, given, t, text, c).Go? { AtTextStart(text, c.pos); }
  }

  /** machine.onepass, on tables on which it comes to an end. It says whether the run it makes
      ends at InstMatch, and reports the registers of that run. */
  method RunOnePass(p: Prog, ghost given: seq<seq<int>>, t: Tables, text: Text, pos: nat, cond: Option<EmptyOp>,
      matchcap: array<int>, ghost n: nat) returns (matched: bool)
    requires Runnable(p, given, t) && Anchored(p) && pos <= |text| && matchcap.Length != 1
    requires HaltsIn(p, given, t, text, Config(p.start, pos), n)
    modifies matchcap
    ensures cond.None? ==> !matched
    ensures cond.Some? ==> (matched <==> Finds(p, given, t, text, Config(p.start, pos), n))
    ensures matched ==> pos == 0
    ensures matched && matchcap.Length > 0 ==>
      matchcap[..] == Report(p, matchcap.Length, Trace(p, given, t, text, Config(p.start, pos), n))
  {
    if cond.None? {
      return false;
    }
    Blank(matchcap);
    var c := Config(p.start, pos);
    var r, r1, flag := FirstLook(text, pos);
    ghost var start, q: seq<Config>, k := c, [], n;
    MidwayAtStart(p, given, t, text, c, n, matchcap[..]);
    while true
      invariant Midway(p, given, t, text, start, n, q, c, k, matchcap[..])
      invariant Looks(text, c.pos, r, r1, flag) && Under(p, pos, q, c)
      decreases k
    {
      ghost var cap := matchcap[..];
      UnderNext(p, given, t, text, pos, q, c);
      TurnMoves(p, given, t, text, c);
      var turn := RunnerTurn(p, given, t, text, c, r, flag, matchcap);
      if turn.Stop? {
        MidwayStop(p, given, t, text, start, n, q, c, k, cap, turn.matched);
        matched := turn.matched;
        if matched {
          Deliver(p, given, t, text, n, q, c, k, matchcap);
        }
        return;
      }
      MidwayGo(p, given, t, text, start, n, q, c, k, cap, turn.c, matchcap[..]);
      r, r1, flag := NextLook(text, c.pos, turn.c.pos, r, r1, flag);
      q, c, k := q + [c], turn.c, k - 1;
    }
  }
}
