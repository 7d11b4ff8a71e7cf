/** That directed tables are necessary: for every unambiguous program without idle instructions
    the one-pass runner agrees with the other engines on all texts exactly when the tables direct
    every alternative. */
module OnePassExact {
  import opened Search
  import opened RegexpProg
  import opened MatchSpec
  import opened OnePass
  import opened OnePassTables
  import opened OnePassRun
  import C = OnePassCopy

  // ------------------------------------------------------------- programs without idle parts

  /** A rune instruction that takes a rune. */
  ghost predicate Takes(inst: Inst) { exists r: nat :: r <= MAX_RUNE && Consumes(inst, r) }

  /** From pc some text leads to a match, if the conditions on the way allow it. */
  ghost predicate LiveIn(p: Prog, pc: nat, n: nat)
    decreases n
  {
    n > 0 && pc < |p.insts| &&
    var inst := p.insts[pc];
    if inst.Alt? then LiveIn(p, inst.out, n - 1) || LiveIn(p, inst.arg, n - 1)
    else if IsStraight(inst) then LiveIn(p, inst.out, n - 1)
    else if IsRune(inst) then Takes(inst) && LiveIn(p, inst.out, n - 1)
    else inst.Match?
  }

  /** Some text leads from the start to pc, if the conditions on the way allow it. */
  ghost predicate ReachedIn(p: Prog, pc: nat, n: nat)
    decreases n
  {
    pc == p.start || (n > 0 && exists x: nat :: x < |p.insts| && StepsTo(p, x, pc) && ReachedIn(p, x, n - 1))
  }

  ghost predicate StepsTo(p: Prog, x: nat, pc: nat) {
    x < |p.insts| && Follows(p, x, pc) && (IsRune(p.insts[x]) ==> Takes(p.insts[x]))
  }

  /** The only conditions are the one at the start and those at the end, and they can be met. */
  ghost predicate PlainAt(p: Prog, given: seq<seq<int>>, pc: nat) {
    && pc < |p.insts| == |given| && !Follows(p, pc, p.start)
    && (p.insts[pc].EmptyWidth? ==>
          if pc == p.start then p.insts[pc].cond == {BeginText}
          else p.insts[pc].cond == {EndText} && LeadsToMatch(p, p.insts[pc].out))
    && (IsRune(p.insts[pc]) ==> forall r :: Covers(RuneSet(p.insts[pc], given[pc]), r) ==> r <= MAX_RUNE)
  }

  /** S holds just what the program can come to, and all of it can go on to a match. */
  ghost predicate Busy(p: Prog, given: seq<seq<int>>, S: set<nat>) {
    && p.start in S && Closed(p, S)
    && (forall pc :: pc in S ==> PlainAt(p, given, pc))
    && (forall pc :: pc in S ==> exists n: nat :: LiveIn(p, pc, n))
    && forall pc :: pc in S ==> exists n: nat :: ReachedIn(p, pc, n)
  }

  // ----------------------------------------------------------------- what follows an instruction

  ghost predicate AcceptsAt(p: Prog, text: Text, c: Config) { exists q :: Leads(Runs(p, text), Matches(p, text), c, q) }

  predicate Suffix(text: Text, pos: nat, w: Text) { pos <= |text| && text[pos..] == w }

  /** Whatever is before it, w leads from pc to a match at the end of the text. */
  ghost predicate Accepts(p: Prog, pc: nat, w: Text) {
    forall text: Text, pos: nat :: Suffix(text, pos, w) ==> AcceptsAt(p, text, Config(pc, pos))
  }

  lemma StepAccepts(p: Prog, text: Text, c: Config, d: Config)
    requires InRange(p, text, c) && d in Successors(p, text, c) && AcceptsAt(p, text, d)
    ensures AcceptsAt(p, text, c)
  {
    RunsDomain(p, text);
    var q :| Leads(Runs(p, text), Matches(p, text), d, q);
    var r := [c] + q;
    assert r[1..] == q;
    assert Leads(Runs(p, text), Matches(p, text), c, r);
  }

  lemma MatchAccepts(p: Prog, pc: nat)
    requires pc < |p.insts| && p.insts[pc].Match?
    ensures Accepts(p, pc, [])
  {
    forall text: Text, pos: nat | Suffix(text, pos, []) ensures AcceptsAt(p, text, Config(pc, pos)) {
      RunsDomain(p, text);
      var q := [Config(pc, pos)];
      assert q[1..] == [];
      assert Leads(Runs(p, text), Matches(p, text), Config(pc, pos), q);
    }
  }

  /** An empty transition, on w; at the end of the text if it leads to a match. */
  lemma EmptyAccepts(p: Prog, given: seq<seq<int>>, pc: nat, x: nat, w: Text)
    requires PlainAt(p, given, pc) && pc != p.start && !IsRune(p.insts[pc]) && Follows(p, pc, x) && Accepts(p, x, w)
    requires LeadsToMatch(p, x) ==> w == []
    ensures Accepts(p, pc, w)
  {
    forall text: Text, pos: nat | Suffix(text, pos, w) ensures AcceptsAt(p, text, Config(pc, pos)) {
      assert AcceptsAt(p, text, Config(x, pos));
      EmptySteps(p, given, text, pos, pc, x, w);
      StepAccepts(p, text, Config(pc, pos), Config(x, pos));
    }
  }

  lemma EmptySteps(p: Prog, given: seq<seq<int>>, text: Text, pos: nat, pc: nat, x: nat, w: Text)
    requires PlainAt(p, given, pc) && pc != p.start && !IsRune(p.insts[pc]) && Follows(p, pc, x) && Suffix(text, pos, w)
    requires LeadsToMatch(p, x) ==> w == []
    ensures Config(x, pos) in Successors(p, text, Config(pc, pos))
  {
    if p.insts[pc].EmptyWidth? { assert pos == |text| && EndText in Context(text, pos); }
  }

  lemma RuneAccepts(p: Prog, pc: nat, r: nat, w: Text)
    requires pc < |p.insts| && IsRune(p.insts[pc]) && Consumes(p.insts[pc], r) && Accepts(p, p.insts[pc].out, w)
    ensures Accepts(p, pc, [r] + w)
  {
    forall text: Text, pos: nat | Suffix(text, pos, [r] + w) ensures AcceptsAt(p, text, Config(pc, pos)) {
      assert text[pos] == ([r] + w)[0] && text[pos + 1..] == ([r] + w)[1..] == w;
      assert Suffix(text, pos + 1, w);
      StepAccepts(p, text, Config(pc, pos), Config(p.insts[pc].out, pos + 1));
    }
  }

  lemma {:induction false} LiveTail(p: Prog, given: seq<seq<int>>, S: set<nat>, pc: nat, n: nat) returns (w: Text)
    requires WellFormed(p) && Busy(p, given, S) && Guarded(p) && pc in S && pc != p.start && LiveIn(p, pc, n)
    ensures Accepts(p, pc, w) && RunesOnly(w) && (LeadsToMatch(p, pc) ==> w == [])
    decreases n
  {
    var inst := p.insts[pc];
    if inst.Match? {
      w := [];
      MatchAccepts(p, pc);
    } else {
      var x := if inst.Alt? && !LiveIn(p, inst.out, n - 1) then inst.arg else inst.out;
      assert Follows(p, pc, x);
      w := LiveTail(p, given, S, x, n - 1);
      if IsRune(inst) {
        var r: nat :| r <= MAX_RUNE && Consumes(inst, r);
        RuneAccepts(p, pc, r, w);
        w := [r] + w;
      } else {
        EmptyAccepts(p, given, pc, x, w);
      }
    }
  }

  /** A text that leads from x to a match and begins with r. */
  lemma {:induction false} BeginsTail(p: Prog, given: seq<seq<int>>, S: set<nat>, x: nat, r: int, n: nat)
      returns (w: Text)
    requires WellFormed(p) && Given(p, given) && Busy(p, given, S) && Guarded(p) && x in S && x != p.start
    requires BeginsIn(p, given, x, r, n)
    ensures Accepts(p, x, w) && RunesOnly(w) && w != [] && w[0] == r && !LeadsToMatch(p, x)
    decreases n
  {
    var inst := p.insts[x];
    assert PlainAt(p, given, x) && GuardedAt(p, inst);
    if IsRune(inst) {
      Consumed(p, given, x, r);
      assert Follows(p, x, inst.out);
      var j: nat :| LiveIn(p, inst.out, j);
      var v := LiveTail(p, given, S, inst.out, j);
      RuneAccepts(p, x, r, v);
      w := [r] + v;
    } else {
      var y := if inst.Alt? && !BeginsIn(p, given, inst.out, r, n - 1) then inst.arg else inst.out;
      assert Follows(p, x, y);
      w := BeginsTail(p, given, S, y, r, n - 1);
      EmptyAccepts(p, given, x, y, w);
    }
  }

  lemma Consumed(p: Prog, given: seq<seq<int>>, pc: nat, r: int)
    requires Given(p, given) && PlainAt(p, given, pc) && IsRune(p.insts[pc])
    requires Covers(RuneSet(p.insts[pc], given[pc]), r)
    ensures 0 <= r <= MAX_RUNE && Consumes(p.insts[pc], r)
  {
    var runes := RuneSet(p.insts[pc], given[pc]);
    var k :| 0 <= k < Pairs(runes) && InPair(runes, k, r);
    if p.insts[pc].Rune? {
      assert runes[2 * k] >= 0;
      assert Covers(given[pc], r);
    }
  }

  /** From where a match may come without input, it does at the end of the text. */
  lemma {:induction false} EndsTail(p: Prog, given: seq<seq<int>>, S: set<nat>, x: nat, n: nat)
    requires Busy(p, given, S) && x in S && x != p.start && EndsIn(p, x, n)
    ensures Accepts(p, x, [])
    decreases n
  {
    var inst := p.insts[x];
    assert PlainAt(p, given, x);
    if inst.Match? {
      MatchAccepts(p, x);
    } else {
      var y := if inst.Alt? && !EndsIn(p, inst.out, n - 1) then inst.arg else inst.out;
      assert Follows(p, x, y);
      EndsTail(p, given, S, y, n - 1);
      EmptyAccepts(p, given, x, y, []);
    }
  }

  // ------------------------------------------------------------------- what leads to an instruction

  ghost predicate ComesTo(p: Prog, text: Text, d: Config, q: seq<Config>) {
    IsPath(Runs(p, text), q) && q != [] && q[0] == Config(p.start, 0) && q[|q| - 1] == d
  }

  ghost predicate Arrives(p: Prog, text: Text, d: Config) { exists q :: ComesTo(p, text, d, q) }

  predicate Prefix(u: Text, text: Text) { u <= text }

  /** Whatever comes after it, u leads from the start to pc. */
  ghost predicate LeadsUp(p: Prog, pc: nat, u: Text) {
    forall text: Text :: Prefix(u, text) ==> Arrives(p, text, Config(pc, |u|))
  }

  lemma ArrivesNext(p: Prog, text: Text, c: Config, d: Config)
    requires InRange(p, text, c) && InRange(p, text, d) && d in Successors(p, text, c) && Arrives(p, text, c)
    ensures Arrives(p, text, d)
  {
    RunsDomain(p, text);
    var q :| ComesTo(p, text, c, q);
    var r := [c, d];
    assert r[1..] == [d] && [d][1..] == [];
    C.PathsJoin(Runs(p, text), q, r);
    assert q + r[1..] == q + [d];
    assert ComesTo(p, text, d, q + [d]);
  }

  lemma StartsThere(p: Prog)
    requires p.start < |p.insts|
    ensures LeadsUp(p, p.start, [])
  {
    forall text: Text | Prefix([], text) ensures Arrives(p, text, Config(p.start, 0)) {
      RunsDomain(p, text);
      var q := [Config(p.start, 0)];
      assert q[1..] == [];
      assert ComesTo(p, text, Config(p.start, 0), q);
    }
  }

  lemma EmptyLeadsUp(p: Prog, given: seq<seq<int>>, x: nat, pc: nat, u: Text)
    requires WellFormed(p) && PlainAt(p, given, x) && !IsRune(p.insts[x]) && Follows(p, x, pc) && LeadsUp(p, x, u)
    requires !LeadsToMatch(p, pc) && (x == p.start ==> u == [])
    ensures LeadsUp(p, pc, u)
  {
    assert InstOk(p.insts[x], |p.insts|);
    forall text: Text | Prefix(u, text) ensures Arrives(p, text, Config(pc, |u|)) {
      assert Arrives(p, text, Config(x, |u|));
      assert Config(pc, |u|) in Successors(p, text, Config(x, |u|)) by {
        if p.insts[x].EmptyWidth? { assert |u| == 0 && BeginText in Context(text, 0); }
      }
      ArrivesNext(p, text, Config(x, |u|), Config(pc, |u|));
    }
  }

  lemma RuneLeadsUp(p: Prog, x: nat, r: nat, u: Text)
    requires WellFormed(p) && x < |p.insts| && IsRune(p.insts[x]) && Consumes(p.insts[x], r) && LeadsUp(p, x, u)
    ensures LeadsUp(p, p.insts[x].out, u + [r])
  {
    assert InstOk(p.insts[x], |p.insts|);
    forall text: Text | Prefix(u + [r], text) ensures Arrives(p, text, Config(p.insts[x].out, |u + [r]|)) {
      assert u <= u + [r] && text[|u|] == (u + [r])[|u|];
      assert Prefix(u, text);
      ArrivesNext(p, text, Config(x, |u|), Config(p.insts[x].out, |u| + 1));
    }
  }

  lemma {:induction false} ReachHead(p: Prog, given: seq<seq<int>>, S: set<nat>, pc: nat, n: nat) returns (u: Text)
    requires WellFormed(p) && Busy(p, given, S) && !LeadsToMatch(p, pc) && ReachedIn(p, pc, n)
    ensures LeadsUp(p, pc, u) && RunesOnly(u) && (pc == p.start ==> u == []) && pc in S
    decreases n
  {
    if pc == p.start {
      u := [];
      StartsThere(p);
    } else {
      var x: nat :| x < |p.insts| && StepsTo(p, x, pc) && ReachedIn(p, x, n - 1);
      u := ReachHead(p, given, S, x, n - 1);
      assert PlainAt(p, given, x);
      if IsRune(p.insts[x]) {
        var r: nat :| r <= MAX_RUNE && Consumes(p.insts[x], r);
        RuneLeadsUp(p, x, r, u);
        u := u + [r];
      } else {
        EmptyLeadsUp(p, given, x, pc, u);
      }
    }
  }

  // ------------------------------------------------------------------------ one run at most

  /** At an unambiguous alternative only one leg can be on an accepting run. */
  lemma OneLeg(p: Prog, given: seq<seq<int>>, text: Text, c: Config, q: seq<Config>, q': seq<Config>)
    requires WellFormed(p) && Given(p, given) && Guarded(p) && RunesOnly(text) && InRange(p, text, c)
    requires p.insts[c.pc].Alt? && ClearAt(p, given, c.pc) && q != [] && q' != []
    requires q[0] in Successors(p, text, c) && q'[0] in Successors(p, text, c)
    requires Leads(Runs(p, text), Matches(p, text), q[0], q) && Leads(Runs(p, text), Matches(p, text), q'[0], q')
    ensures q[0] == q'[0]
  {
    assert GuardedAt(p, p.insts[c.pc]);
    Ahead(p, given, text, q);
    Ahead(p, given, text, q');
  }

  lemma {:induction false} Unique(p: Prog, given: seq<seq<int>>, text: Text, q: seq<Config>, q': seq<Config>)
    requires WellFormed(p) && Given(p, given) && Guarded(p) && RunesOnly(text) && Unambiguous(p, given)
    requires q != [] && q' != [] && q[0] == q'[0]
    requires Leads(Runs(p, text), Matches(p, text), q[0], q) && Leads(Runs(p, text), Matches(p, text), q'[0], q')
    ensures q == q'
    decreases |q|
  {
    RunsDomain(p, text);
    if |q| > 1 && |q'| > 1 {
      LeadsOn(Runs(p, text), Matches(p, text), q);
      LeadsOn(Runs(p, text), Matches(p, text), q');
      if p.insts[q[0].pc].Alt? { OneLeg(p, given, text, q[0], q[1..], q'[1..]); }
      Unique(p, given, text, q[1..], q'[1..]);
      SameSequence(q, q');
    } else {
      assert IsMatch(p, q[0]);
    }
  }

  lemma SameSequence(q: seq<Config>, q': seq<Config>)
    requires q != [] && q' != [] && q[0] == q'[0] && q[1..] == q'[1..]
    ensures q == q'
  {
    assert q == [q[0]] + q[1..] && q' == [q'[0]] + q'[1..];
  }

  // ---------------------------------------------------------------------------- agreement

  /** The runner comes to an end after n turns at most, with what every other engine finds. */
  ghost predicate AgreesIn(p: Prog, given: seq<seq<int>>, t: Tables, text: Text, n: nat)
    requires Runnable(p, given, t)
  {
    var c := Config(p.start, 0);
    && HaltsIn(p, given, t, text, c, n)
    && forall longest :: if Finds(p, given, t, text, c, n) then Wanted(p, text, longest,
      0) == Some(Trace(p, given, t, text, c, n))
                         else Wanted(p, text, longest, 0).None?
  }

  ghost predicate Agrees(p: Prog, given: seq<seq<int>>, t: Tables, text: Text)
    requires Runnable(p, given, t)
  {
    exists n: nat :: AgreesIn(p, given, t, text, n)
  }

  /** Of a run of the runner every turn leads to the next configuration. */
  lemma {:induction false} TraceTurns(p: Prog, given: seq<seq<int>>, t: Tables, text: Text, c: Config, n: nat, i: nat)
    requires Runnable(p, given, t) && InRange(p, text, c) && HaltsIn(p, given, t, text, c, n)
    requires i + 1 < |Trace(p, given, t, text, c, n)|
    ensures var q := Trace(p, given, t, text, c, n);
      InRange(p, text, q[i]) && TurnAt(p, given, t, text, q[i]) == Go(q[i + 1])
    decreases n
  {
    var d := TurnAt(p, given, t, text, c).c;
    if i > 0 { TraceTurns(p, given, t, text, d, n - 1, i - 1); }
  }

  /** What the check leaves behind when it accepts an unambiguous program without idle parts. */
  ghost predicate Made(p: Prog, given: seq<seq<int>>, t: Tables, S: set<nat>) {
    && Runnable(p, given, t) && Sound(p, given, t) && Filled(p, given, t, S) && ChainsEnd(p)
    && Anchored(p) && Guarded(p) && Unambiguous(p, given) && Busy(p, given, S)
  }

  lemma DirectedAgrees(p: Prog, given: seq<seq<int>>, t: Tables, S: set<nat>, text: Text)
    requires Made(p, given, t, S) && Directed(p, given, t, S) && RunesOnly(text)
    ensures Agrees(p, given, t, text)
  {
    DirectedLeads(p, given, t, S);
    var n := HaltsFrom(p, given, t, S, text, Config(p.start, 0));
    FindsWanted(p, given, t, S, text, false, 0, n);
    FindsWanted(p, given, t, S, text, true, 0, n);
    assert AgreesIn(p, given, t, text, n);
  }

  /** Where an accepting run takes a leg that the table does not name, the runner misses it. */
  lemma MissesRun(p: Prog, given: seq<seq<int>>, t: Tables, S: set<nat>, text: Text, q: seq<Config>, i: nat)
    requires Made(p, given, t, S) && RunesOnly(text) && Accepting(p, text, 0, q) && i + 1 < |q|
    requires InRange(p, text, q[i]) && TurnAt(p, given, t, text, q[i]) != Go(q[i + 1])
    ensures !Agrees(p, given, t, text)
  {
    if n: nat :| AgreesIn(p, given, t, text, n) {
      var c := Config(p.start, 0);
      WantedExists(p, text, false, 0);
      FoundIsRun(p, given, t, text, S, c, n);
      Unique(p, given, text, q, Trace(p, given, t, text, c, n));
      TraceTurns(p, given, t, text, c, n, i);
    }
  }

  lemma JoinedRun(p: Prog, text: Text, c: Config, d: Config, q: seq<Config>, r: seq<Config>)
    requires InRange(p, text, c) && d in Successors(p, text, c)
    requires ComesTo(p, text, c, q) && Leads(Runs(p, text), Matches(p, text), d, r)
    ensures Accepting(p, text, 0, q + r) && (q + r)[|q| - 1] == c && (q + r)[|q|] == d
  {
    RunsDomain(p, text);
    assert ([c] + r)[1..] == r;
    C.PathsJoin(Runs(p, text), q, [c] + r);
  }

  /** A text that a leg accepts and on which the alternative is not left by that leg. */
  lemma UndirectedText(p: Prog, given: seq<seq<int>>, t: Tables, S: set<nat>, pc: nat, x: nat, u: Text, w: Text)
    requires Made(p, given, t, S) && pc in S && pc < |p.insts| && p.insts[pc].Alt? && Follows(p, pc, x)
    requires LeadsUp(p, pc, u) && Accepts(p, x, w) && RunesOnly(u) && RunesOnly(w)
    requires |t.cells[pc].next| == Pairs(t.runes[pc])
    requires NextOf(AltInst(t, pc), if w == [] then END_OF_TEXT else w[0]) != x
    ensures RunesOnly(u + w) && !Agrees(p, given, t, u + w)
  {
    var text, c, d := u + w, Config(pc, |u|), Config(x, |u|);
    assert Prefix(u, text) && text[|u|..] == w;
    assert Suffix(text, |u|, w);
    assert Arrives(p, text, c) && AcceptsAt(p, text, d);
    var q :| ComesTo(p, text, c, q);
    var r :| Leads(Runs(p, text), Matches(p, text), d, r);
    JoinedRun(p, text, c, d, q, r);
    assert StepRune(text, |u|) == if w == [] then END_OF_TEXT else w[0];
    MissesRun(p, given, t, S, text, q + r, |q| - 1);
  }

  lemma FailingText(p: Prog, given: seq<seq<int>>, t: Tables, S: set<nat>, pc: nat, x: nat) returns (text: Text)
    requires Made(p, given, t, S) && pc in S && pc < |p.insts| && p.insts[pc].Alt? && Follows(p, pc, x)
    requires |t.cells[pc].next| == Pairs(t.runes[pc]) && !DirectsTo(p, given, t, pc, x)
    ensures RunesOnly(text) && !Agrees(p, given, t, text)
  {
    assert PlainAt(p, given, pc);
    var k: nat :| ReachedIn(p, pc, k);
    var u := ReachHead(p, given, S, pc, k);
    if r :| Begins(p, given, x, r) && NextOf(AltInst(t, pc), r) != x {
      var n: nat :| BeginsIn(p, given, x, r, n);
      var w := BeginsTail(p, given, S, x, r, n);
      UndirectedText(p, given, t, S, pc, x, u, w);
      text := u + w;
    } else {
      var n: nat :| EndsIn(p, x, n);
      EndsTail(p, given, S, x, n);
      UndirectedText(p, given, t, S, pc, x, u, []);
      text := u + [];
    }
  }

  /** The runner agrees with the other engines on all texts exactly when its tables are directed. */
  lemma ExactlyWhenDirected(p: Prog, given: seq<seq<int>>, t: Tables, S: set<nat>)
    requires Made(p, given, t, S)
    ensures (forall text: Text :: RunesOnly(text) ==> Agrees(p, given, t, text)) <==> Directed(p, given, t, S)
  {
    if Directed(p, given, t, S) {
      forall text: Text | RunesOnly(text) ensures Agrees(p, given, t, text) { DirectedAgrees(p, given, t, S, text); }
    } else {
      var pc: nat :| pc in S && !(pc < |p.insts| && (p.insts[pc].Alt? ==> DirectsAt(p, given, t, pc)));
      assert PlainAt(p, given, pc) && LegsAt(p, t, pc);
      var x: nat :| Follows(p, pc, x) && !DirectsTo(p, given, t, pc, x);
      var text := FailingText(p, given, t, S, pc, x);
    }
  }
}
