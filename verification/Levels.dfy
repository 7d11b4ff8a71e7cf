/** A run cut into levels, one input position each: within a level only empty transitions
    happen. The NFA simulation works level by level; this file shows that first-visit order
    within levels composes to backtracking order over the whole run. */
module Levels {
  import opened Search
  import opened RegexpProg

  /** Instructions a thread waits at: rune instructions and InstMatch. */
  predicate Waits(inst: Inst) {
    inst.Match? || inst.Rune? || inst.Rune1? || inst.RuneAny? || inst.RuneAnyNotNL?
  }

  /** The empty transitions from c when the assertions in cond hold. */
  function EmptySuccessors(p: Prog, cond: EmptyOp, c: Config): seq<Config>
    requires c.pc < |p.insts|
  {
    match p.insts[c.pc]
    case Alt(out, arg) => [Config(out, c.pos), Config(arg, c.pos)]
    case Capture(out, _) => [Config(out, c.pos)]
    case Nop(out) => [Config(out, c.pos)]
    case EmptyWidth(out, need) => if Satisfied(need, cond) then [Config(out, c.pos)] else []
    case _ => []
  }

  /** The configurations at one position, instruction 0 left out. */
  ghost function LevelNodes(n: nat, pos: nat): set<Config> {
    if n <= 1 then {} else {Config(n - 1, pos)} + LevelNodes(n - 1, pos)
  }

  lemma {:induction false} LevelRange(n: nat, pos: nat)
    ensures forall c :: c in LevelNodes(n, pos) <==> 0 < c.pc < n && c.pos == pos
  {
    if n > 1 { LevelRange(n - 1, pos); }
  }

  /** One level: position pos, where the assertions in cond hold. */
  ghost function Level(p: Prog, pos: nat, cond: EmptyOp): Graph<Config> {
    LevelRange(|p.insts|, pos);
    map c | c in LevelNodes(|p.insts|, pos) :: EmptySuccessors(p, cond, c)
  }

  lemma LevelDomain(p: Prog, pos: nat, cond: EmptyOp)
    ensures forall c :: c in Level(p, pos, cond) <==> 0 < c.pc < |p.insts| && c.pos == pos
    ensures forall c: Config :: 0 < c.pc < |p.insts| && c.pos == pos ==>
      Level(p, pos, cond)[c] == EmptySuccessors(p, cond, c)
  {
    LevelRange(|p.insts|, pos);
  }

  /** Waiting configurations at pos from which T can still be reached. */
  ghost function Live(p: Prog, text: Text, T: set<Config>, pos: nat): set<Config> {
    LevelRange(|p.insts|, pos);
    set c | c in LevelNodes(|p.insts|, pos) && Waits(p.insts[c.pc]) && Naive(Runs(p, text), T, {}, c).Some?
  }

  lemma LiveMembers(p: Prog, text: Text, T: set<Config>, pos: nat)
    ensures forall c :: c in Live(p, text, T, pos) <==>
      0 < c.pc < |p.insts| && c.pos == pos && Waits(p.insts[c.pc]) && Naive(Runs(p, text), T, {}, c).Some?
  {
    LevelRange(|p.insts|, pos);
  }

  /** A path to a live configuration, continued to T. */
  ghost function Continue(p: Prog, text: Text, T: set<Config>, o: Option<seq<Config>>): Option<seq<Config>> {
    if o.None? || o.value == [] then None
    else match Naive(Runs(p, text), T, {}, o.value[|o.value| - 1]) {
      case None => None
      case Some(r) => Some(o.value[..|o.value| - 1] + r)
    }
  }

  /** The search from c cannot come back to positions before c's. */
  lemma {:induction false} PastIrrelevant(p: Prog, text: Text, T: set<Config>, A: set<Config>, B: set<Config>,
      c: Config)
    requires WellFormed(p) && forall x: Config :: x.pos >= c.pos ==> (x in A <==> x in B)
    ensures Naive(Runs(p, text), T, A, c) == Naive(Runs(p, text), T, B, c)
    decreases Runs(p, text).Keys - A, 0
  {
    RunsDomain(p, text);
    if c !in A && InRange(p, text, c) && c !in T {
      PastIrrelevantFirst(p, text, T, A + {c}, B + {c}, c.pos, Successors(p, text, c));
    }
  }

  lemma {:induction false} PastIrrelevantFirst(p: Prog, text: Text, T: set<Config>, A: set<Config>, B: set<Config>,
      pos: nat, cs: seq<Config>)
    requires WellFormed(p) && forall x: Config :: x.pos >= pos ==> (x in A <==> x in B)
    requires forall i :: 0 <= i < |cs| ==> cs[i].pos >= pos
    ensures NaiveFirst(Runs(p, text), T, A, cs) == NaiveFirst(Runs(p, text), T, B, cs)
    decreases Runs(p, text).Keys - A, |cs| + 1
  {
    if cs != [] {
      PastIrrelevant(p, text, T, A, B, cs[0]);
      PastIrrelevantFirst(p, text, T, A, B, pos, cs[1..]);
    }
  }

  /** What a search within a level finds, continued, is what the whole search finds. */
  ghost predicate Composes(p: Prog, text: Text, T: set<Config>, whole: Option<seq<Config>>,
      within: Option<seq<Config>>) {
    whole == Continue(p, text, T, within) && (within.Some? ==> within.value != [])
  }

  /** An empty transition is made alike in both. */
  lemma PassesOn(p: Prog, text: Text, T: set<Config>, lv: Graph<Config>, live: set<Config>, A: set<Config>, c: Config,
      next: seq<Config>)
    requires c !in A && c !in T && c !in live && c in lv && lv[c] == next && c in Runs(p, text) &&
      Runs(p, text)[c] == next
    requires Composes(p, text, T, NaiveFirst(Runs(p, text), T, A + {c}, next), NaiveFirst(lv, live, A + {c}, next))
    ensures Composes(p, text, T, Naive(Runs(p, text), T, A, c), Naive(lv, live, A, c))
  {
    var r := NaiveFirst(lv, live, A + {c}, next);
    if r.Some? { ContinueAfter(p, text, T, c, r.value); }
  }

  /** At a waiting configuration the search within the level stops. */
  lemma StopsAt(p: Prog, text: Text, T: set<Config>, lv: Graph<Config>, live: set<Config>, A: set<Config>, c: Config)
    requires c !in A && c in lv && lv[c] == [] && (c in live <==> Naive(Runs(p, text), T, {}, c).Some?)
    requires Naive(Runs(p, text), T, A, c) == Naive(Runs(p, text), T, {}, c)
    ensures Composes(p, text, T, Naive(Runs(p, text), T, A, c), Naive(lv, live, A, c))
  {
    var r := Naive(Runs(p, text), T, {}, c);
    if r.Some? { assert [c][..0] + r.value == r.value; }
  }

  /** Backtracking from c is: backtrack within the level to a live configuration, then go on from there. */
  lemma {:induction false} NaiveByLevel(p: Prog, text: Text, T: set<Config>, pos: nat, A: set<Config>, c: Config)
    requires WellFormed(p) && InRange(p, text, c) && c.pos == pos && T <= Matches(p, text)
    requires forall x :: x in A ==> x.pos <= pos
    ensures Composes(p, text, T, Naive(Runs(p, text), T, A, c),
      Naive(Level(p, pos, Context(text, pos)), Live(p, text, T, pos), A, c))
    decreases Runs(p, text).Keys - A, 0
  {
    var lv, live := Level(p, pos, Context(text, pos)), Live(p, text, T, pos);
    RunsDomain(p, text);
    LevelDomain(p, pos, Context(text, pos));
    LiveMembers(p, text, T, pos);
    if c !in A && c.pc != 0 {
      if Waits(p.insts[c.pc]) {
        WaitingHasNoPast(p, text, T, A, c);
        StopsAt(p, text, T, lv, live, A, c);
      } else {
        var next := Successors(p, text, c);
        SameNext(p, text, c);
        NaiveFirstByLevel(p, text, T, pos, A + {c}, next);
        PassesOn(p, text, T, lv, live, A, c, next);
      }
    }
  }

  lemma SameNext(p: Prog, text: Text, c: Config)
    requires WellFormed(p) && InRange(p, text, c) && !Waits(p.insts[c.pc])
    ensures Successors(p, text, c) == EmptySuccessors(p, Context(text, c.pos), c)
    ensures forall i :: 0 <= i < |Successors(p, text, c)| ==>
      InRange(p, text, Successors(p, text, c)[i]) && Successors(p, text, c)[i].pos == c.pos
  {
    assert InstOk(p.insts[c.pc], |p.insts|);
  }

  lemma ContinueAfter(p: Prog, text: Text, T: set<Config>, c: Config, r: seq<Config>)
    requires r != []
    ensures Continue(p, text, T, Some([c] + r)) ==
      match Continue(p, text, T, Some(r)) {
        case None => None
        case Some(q) => Some([c] + q)
      }
  {
    var q := [c] + r;
    assert q[|q| - 1] == r[|r| - 1] && q[..|q| - 1] == [c] + r[..|r| - 1];
    var m := Naive(Runs(p, text), T, {}, q[|q| - 1]);
    if m.Some? { assert [c] + (r[..|r| - 1] + m.value) == q[..|q| - 1] + m.value; }
  }

  lemma NaiveFirstOne<N>(g: Graph<N>, T: set<N>, avoid: set<N>, d: N)
    ensures NaiveFirst(g, T, avoid, [d]) == Naive(g, T, avoid, d)
  {
    assert [d][1..] == [];
  }

  lemma WaitingHasNoPast(p: Prog, text: Text, T: set<Config>, A: set<Config>, c: Config)
    requires WellFormed(p) && InRange(p, text, c) && Waits(p.insts[c.pc]) && c !in A
    requires forall x :: x in A ==> x.pos <= c.pos
    ensures Naive(Runs(p, text), T, A, c) == Naive(Runs(p, text), T, {}, c)
  {
    RunsDomain(p, text);
    if c !in T && Successors(p, text, c) != [] {
      var d := Successors(p, text, c)[0];
      PastIrrelevant(p, text, T, A + {c}, {} + {c}, d);
      assert Successors(p, text, c) == [d];
      NaiveFirstOne(Runs(p, text), T, A + {c}, d);
      NaiveFirstOne(Runs(p, text), T, {} + {c}, d);
    }
  }

  lemma {:induction false} NaiveFirstByLevel(p: Prog, text: Text, T: set<Config>, pos: nat, A: set<Config>,
      cs: seq<Config>)
    requires WellFormed(p) && T <= Matches(p, text)
    requires forall i :: 0 <= i < |cs| ==> InRange(p, text, cs[i]) && cs[i].pos == pos
    requires forall x :: x in A ==> x.pos <= pos
    ensures Composes(p, text, T, NaiveFirst(Runs(p, text), T, A, cs),
      NaiveFirst(Level(p, pos, Context(text, pos)), Live(p, text, T, pos), A, cs))
    decreases Runs(p, text).Keys - A, |cs| + 1
  {
    if cs != [] {
      NaiveByLevel(p, text, T, pos, A, cs[0]);
      var r := Naive(Level(p, pos, Context(text, pos)), Live(p, text, T, pos), A, cs[0]);
      LiveFound(p, text, T, pos, A, cs[0]);
      NaiveFirstByLevel(p, text, T, pos, A, cs[1..]);
    }
  }

  lemma LiveFound(p: Prog, text: Text, T: set<Config>, pos: nat, A: set<Config>, c: Config)
    ensures var r := Naive(Level(p, pos, Context(text, pos)), Live(p, text, T, pos), A, c);
      r.Some? ==> Continue(p, text, T, r).Some?
  {
    NaiveSound(Level(p, pos, Context(text, pos)), Live(p, text, T, pos), A, c);
    LiveMembers(p, text, T, pos);
  }
}
