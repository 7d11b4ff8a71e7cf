/** makeOnePass (src/regexp/onepass.go:297-491): the search for ambiguous alternatives, which
    fills in the tables of OnePassTables. */
module OnePassBuild {
  import opened Search
  import opened RegexpProg
  import opened OnePass
  import opened OnePassTables
  import opened OnePassQueue

  // --------------------------------------------------- the check, as a function of the visits

  /** What the tables say: what may match without input, which alternatives have exchanged legs,
      what has been visited, and the runes every instruction may begin with; ok until a clash. */
  datatype Marks = Marks(m: set<nat>, exchanged: set<nat>, seen: set<nat>, first: seq<iset<int>>, ok: bool)

  ghost function SetOf(runes: seq<int>): iset<int> { iset r | Covers(runes, r) }

  ghost function First(s: Marks, pc: nat): iset<int> { if pc < |s.first| then s.first[pc] else iset{} }

  function Below(n: nat): (r: set<nat>)
    ensures forall x: nat :: x in r <==> x < n
  {
    if n == 0 then {} else Below(n - 1) + {n - 1}
  }

  function FirstLeg(p: Prog, s: Marks, pc: nat): nat
    requires pc < |p.insts| && p.insts[pc].Alt?
  {
    if pc in s.exchanged then p.insts[pc].arg else p.insts[pc].out
  }

  function SecondLeg(p: Prog, s: Marks, pc: nat): nat
    requires pc < |p.insts| && p.insts[pc].Alt?
  {
    if pc in s.exchanged then p.insts[pc].out else p.insts[pc].arg
  }

  /** The runes of pc as its successors have them. */
  ghost function FirstRunes(p: Prog, given: seq<seq<int>>, s: Marks, pc: nat): iset<int>
    requires pc < |p.insts|
  {
    var inst := p.insts[pc];
    if inst.Alt? then First(s, inst.out) + First(s, inst.arg)
    else if IsStraight(inst) then First(s, inst.out)
    else if IsRune(inst) && pc < |given| then SetOf(RuneSet(inst, given[pc]))
    else First(s, pc)
  }

  /** Both legs of an alternative match without input, or begin with the same rune. */
  ghost predicate Clash(p: Prog, s: Marks, pc: nat)
    requires pc < |p.insts|
  {
    var inst := p.insts[pc];
    inst.Alt? && ((inst.out in s.m && inst.arg in s.m) || !(First(s, inst.out) !! First(s, inst.arg)))
  }

  /** The mark of pc once its successors have been visited: a leg that matches comes first. */
  ghost function Mark(p: Prog, s: Marks, pc: nat): Marks
    requires pc < |p.insts|
  {
    var inst := p.insts[pc];
    if inst.Alt? then
      if SecondLeg(p, s, pc) in s.m then
        s.(m := s.m + {pc}, exchanged := if pc in s.exchanged then s.exchanged - {pc} else s.exchanged + {pc})
      else if FirstLeg(p, s, pc) in s.m then s.(m := s.m + {pc})
      else s
    else if inst.Match? || (IsStraight(inst) && inst.out in s.m) then s.(m := s.m + {pc})
    else s.(m := s.m - {pc})
  }

  /** The whole entry of pc. */
  ghost function Marked(p: Prog, given: seq<seq<int>>, s: Marks, pc: nat): (r: Marks)
    requires pc < |p.insts|
    ensures r.seen == s.seen && |r.first| == |s.first| && (r.ok ==> s.ok)
  {
    Mark(p, s, pc).(first := if pc < |s.first| then s.first[pc := FirstRunes(p, given, s, pc)] else s.first,
      ok := s.ok && !Clash(p, s, pc))
  }

  /** What check(pc, m) makes of the tables; it succeeds if nothing clashes. */
  ghost function Visit(p: Prog, given: seq<seq<int>>, s: Marks, pc: nat): (r: Marks)
    requires Targets(p) && pc < |p.insts|
    ensures s.seen + {pc} <= r.seen && |r.first| == |s.first| && (r.ok ==> s.ok)
    decreases Below(|p.insts|) - s.seen
  {
    if pc in s.seen then s
    else
      var inst, s0 := p.insts[pc], s.(seen := s.seen + {pc});
      assert InstOk(inst, |p.insts|) && pc in Below(|p.insts|) - s.seen;
      if inst.Alt? then
        var s1 := Visit(p, given, s0, FirstLeg(p, s, pc));
        Marked(p, given, Visit(p, given, s1, SecondLeg(p, s, pc)), pc)
      else if inst.Match? || inst.Fail? then Marked(p, given, s0, pc)
      else Marked(p, given, Visit(p, given, s0, inst.out), pc)
  }

  ghost function VisitAll(p: Prog, given: seq<seq<int>>, s: Marks, pcs: seq<nat>): Marks
    requires Targets(p) && forall i :: 0 <= i < |pcs| ==> pcs[i] < |p.insts|
    decreases |pcs|
  {
    if pcs == [] then s else VisitAll(p, given, Visit(p, given, s, pcs[0]), pcs[1..])
  }

  // ------------------------------------------------------------------ states of the check

  /** The tables and what visitQueue holds. */
  datatype State = State(t: Tables, seen: seq<nat>)

  ghost function MarksOf(p: Prog, s: State): Marks {
    Marks(set x | x in s.t.m && s.t.m[x],
      set x: nat | x < |p.insts| && x < |s.t.cells| && p.insts[x].Alt? && s.t.cells[x].out != p.insts[x].out,
      (set x | x in s.seen), SetsOf(s.t), true)
  }

  ghost function SetsOf(t: Tables): seq<iset<int>> {
    seq(|t.runes|, i requires 0 <= i < |t.runes| => SetOf(t.runes[i]))
  }

  ghost predicate Good(p: Prog, given: seq<seq<int>>, t: Tables) {
    && Shaped(p, given, t) && Sound(p, given, t)
    && forall pc: nat :: pc < |p.insts| ==> Apt(p, given, t, pc)
  }

  ghost predicate SameEntry(t: Tables, t': Tables, x: nat)
    requires x < |t.cells| && x < |t'.cells| && x < |t.runes| && x < |t'.runes|
  {
    t.cells[x] == t'.cells[x] && t.runes[x] == t'.runes[x] && (x in t.m <==> x in t'.m) &&
      (x in t.m ==> t.m[x] == t'.m[x])
  }

  predicate IsNew(s: State, s': State, x: nat) { x in s'.seen && x !in s.seen }

  ghost predicate Keeps(p: Prog, given: seq<seq<int>>, s: State, s': State) {
    && Shaped(p, given, s.t) && Shaped(p, given, s'.t)
    && forall x: nat :: x < |p.insts| && !IsNew(s, s', x) ==> SameEntry(s.t, s'.t, x)
  }

  ghost predicate Settles(p: Prog, given: seq<seq<int>>, s: State, s': State) {
    forall x: nat :: IsNew(s, s', x) ==> SettledAt(p, given, s'.t, x)
  }

  ghost predicate ClosesUp(p: Prog, s: State, s': State) {
    forall x: nat, y: nat :: IsNew(s, s', x) && Follows(p, x, y) ==> y in s'.seen
  }

  ghost predicate Fills(p: Prog, given: seq<seq<int>>, s: State, s': State) {
    forall x: nat :: IsNew(s, s', x) && x < |p.insts| && IsRune(p.insts[x]) ==>
      x < |s'.t.runes| && x < |given| && s'.t.runes[x] == RuneSet(p.insts[x], given[x])
  }

  ghost predicate Listed(seen: seq<nat>, pcs: seq<nat>) { forall i :: 0 <= i < |pcs| ==> pcs[i] in seen }

  ghost predicate InProg(p: Prog, pcs: seq<nat>) { forall i :: 0 <= i < |pcs| ==> pcs[i] < |p.insts| }

  /** What checking pcs one after the other does. When it changes nothing the tables are settled
      for all that it has visited. */
  ghost predicate Checked(p: Prog, given: seq<seq<int>>, s: State, s': State, pcs: seq<nat>, ok: bool) {
    && Targets(p) && InProg(p, pcs) && s.seen <= s'.seen
    && Good(p, given, s'.t) && Keeps(p, given, s, s') && Fills(p, given, s, s')
    && (Unambiguous(p, given) ==> ok) && (ok <==> VisitAll(p, given, MarksOf(p, s), pcs).ok)
    && (ok ==>
         && MarksOf(p, s') == VisitAll(p, given, MarksOf(p, s), pcs)
         && Listed(s'.seen, pcs) && ClosesUp(p, s, s')
         && (LegsOk(p, s.t) ==> LegsOk(p, s'.t))
         && (s'.t == s.t ==> Settles(p, given, s, s')))
  }

  lemma NothingChecked(p: Prog, given: seq<seq<int>>, s: State)
    requires Targets(p) && Good(p, given, s.t)
    ensures Checked(p, given, s, s, [], true)
  {}

  lemma LegsAreKids(p: Prog, given: seq<seq<int>>, s: State, pc: nat)
    requires AltHere(p, given, s.t, pc)
    ensures Kids(p, MarksOf(p, s), pc) == [s.t.cells[pc].out, s.t.cells[pc].arg]
  {
    LegsKnown(p, given, s.t, pc);
  }

  lemma CheckedBefore(p: Prog, given: seq<seq<int>>, s: State, pc: nat)
    requires Targets(p) && Good(p, given, s.t) && pc < |p.insts| && pc in s.seen
    ensures Checked(p, given, s, s, [pc], true)
  {
    var ms := MarksOf(p, s);
    assert pc in ms.seen && Visit(p, given, ms, pc) == ms;
    assert [pc][1..] == [] && VisitAll(p, given, ms, [pc]) == ms;
  }

  lemma SameTables(p: Prog, given: seq<seq<int>>, t: Tables, t': Tables)
    requires Shaped(p, given, t) && Shaped(p, given, t')
    requires forall x: nat :: x < |p.insts| ==> SameEntry(t, t', x)
    ensures t == t'
  {
    forall x: nat | x < |p.insts| ensures t.cells[x] == t'.cells[x] && t.runes[x] == t'.runes[x] {
      assert SameEntry(t, t', x);
    }
    assert t.cells == t'.cells;
    assert t.runes == t'.runes;
    forall x: nat ensures (x in t.m <==> x in t'.m) && (x in t.m ==> t.m[x] == t'.m[x]) {
      if x < |p.insts| { assert SameEntry(t, t', x); }
    }
    assert t.m == t'.m;
  }

  lemma {:induction false} VisitAllJoin(p: Prog, given: seq<seq<int>>, s: Marks, pcs: seq<nat>, pc: nat)
    requires Targets(p) && InProg(p, pcs) && pc < |p.insts|
    decreases |pcs|
    ensures InProg(p, pcs + [pc]) && VisitAll(p, given, s, pcs + [pc]) == Visit(p, given, VisitAll(p, given, s, pcs),
      pc)
  {
    if pcs == [] {
      assert [] + [pc] == [pc] && [pc][1..] == [];
    } else {
      assert (pcs + [pc])[1..] == pcs[1..] + [pc];
      VisitAllJoin(p, given, Visit(p, given, s, pcs[0]), pcs[1..], pc);
    }
  }

  lemma KeepsJoin(p: Prog, given: seq<seq<int>>, s: State, s1: State, s2: State)
    requires Keeps(p, given, s, s1) && Keeps(p, given, s1, s2) && s.seen <= s1.seen <= s2.seen
    ensures Keeps(p, given, s, s2)
    ensures s2.t == s.t ==> s1.t == s.t
  {
    forall x: nat | x < |p.insts| && !IsNew(s, s2, x) ensures SameEntry(s.t, s2.t, x) {
      assert SameEntry(s.t, s1.t, x) && SameEntry(s1.t, s2.t, x);
    }
    if s2.t == s.t {
      forall x: nat | x < |p.insts| ensures SameEntry(s.t, s1.t, x) {
        if IsNew(s, s1, x) { assert SameEntry(s1.t, s2.t, x); }
      }
      SameTables(p, given, s.t, s1.t);
    }
  }

  lemma FillsJoin(p: Prog, given: seq<seq<int>>, s: State, s1: State, s2: State)
    requires Fills(p, given, s, s1) && Fills(p, given, s1, s2) && Keeps(p, given, s1, s2) &&
      s.seen <= s1.seen <= s2.seen
    ensures Fills(p, given, s, s2)
  {
    forall x: nat | IsNew(s, s2, x) && x < |p.insts| && IsRune(p.insts[x])
      ensures x < |s2.t.runes| && x < |given| && s2.t.runes[x] == RuneSet(p.insts[x], given[x])
    {
      if x in s1.seen { assert IsNew(s, s1, x) && SameEntry(s1.t, s2.t, x); } else { assert IsNew(s1, s2, x); }
    }
  }

  lemma CheckedThen(p: Prog, given: seq<seq<int>>, s: State, s1: State, s2: State, pcs: seq<nat>, pc: nat, ok: bool)
    requires Checked(p, given, s, s1, pcs, true) && Checked(p, given, s1, s2, [pc], ok)
    ensures Checked(p, given, s, s2, pcs + [pc], ok)
  {
    KeepsJoin(p, given, s, s1, s2);
    FillsJoin(p, given, s, s1, s2);
    assert [pc][0] < |p.insts|;
    VisitAllJoin(p, given, MarksOf(p, s), pcs, pc);
    VisitAllJoin(p, given, MarksOf(p, s1), [], pc);
    assert [] + [pc] == [pc];
    if ok {
      assert ClosesUp(p, s, s2) by {
        forall x: nat, y: nat | IsNew(s, s2, x) && Follows(p, x, y) ensures y in s2.seen {
          if x in s1.seen { assert IsNew(s, s1, x); } else { assert IsNew(s1, s2, x); }
        }
      }
      assert Listed(s2.seen, pcs + [pc]) by {
        assert [pc][0] in s2.seen;
        forall i | 0 <= i < |pcs + [pc]| ensures (pcs + [pc])[i] in s2.seen {
          if i < |pcs| { assert pcs[i] in s1.seen; }
        }
      }
      if s2.t == s.t {
        forall x: nat | IsNew(s, s2, x) ensures SettledAt(p, given, s2.t, x) {
          if x in s1.seen { assert IsNew(s, s1, x); } else { assert IsNew(s1, s2, x); }
        }
      }
    }
  }

  /** After a failure there is no need to go on. */
  lemma CheckedFirst(p: Prog, given: seq<seq<int>>, s: State, s1: State, pc: nat, next: nat)
    requires Checked(p, given, s, s1, [pc], false) && next < |p.insts|
    ensures Checked(p, given, s, s1, [pc, next], false)
  {
    assert [pc] + [next] == [pc, next];
    VisitAllJoin(p, given, MarksOf(p, s), [pc], next);
  }

  // ------------------------------------------------------------ the last step for one pc

  /** A new entry; None leaves the map as it is. */
  function With(t: Tables, pc: nat, cell: Cell, runes: seq<int>, yes: Option<bool>): Tables
    requires pc < |t.cells| && pc < |t.runes|
  {
    Tables(t.cells[pc := cell], t.runes[pc := runes], if yes.Some? then t.m[pc := yes.value] else t.m)
  }

  predicate After(t: Tables, pc: nat, yes: Option<bool>) { if yes.Some? then yes.value else Yes(t.m, pc) }

  /** Only the entry of pc has changed, and as its successors call for. */
  ghost predicate Finished(p: Prog, given: seq<seq<int>>, t: Tables, t': Tables, seen: seq<nat>, pc: nat, ok: bool) {
    && Good(p, given, t) && Good(p, given, t') && pc < |p.insts|
    && (forall x: nat :: x < |p.insts| && x != pc ==> SameEntry(t, t', x))
    && (Unambiguous(p, given) ==> ok) && (ok <==> Marked(p, given, MarksOf(p, State(t, seen)), pc).ok)
    && (IsRune(p.insts[pc]) && pc < |given| ==> t'.runes[pc] == RuneSet(p.insts[pc], given[pc]))
    && (ok ==>
         && MarksOf(p, State(t', seen)) == Marked(p, given, MarksOf(p, State(t, seen)), pc)
         && (LegsOk(p, t) ==> LegsOk(p, t'))
         && Combines(p, given, t, t', pc))
  }

  /** The successors of pc, in the order in which they are checked. */
  ghost function Kids(p: Prog, s: Marks, pc: nat): seq<nat>
    requires pc < |p.insts|
  {
    var inst := p.insts[pc];
    if inst.Alt? then [FirstLeg(p, s, pc), SecondLeg(p, s, pc)]
    else if inst.Match? || inst.Fail? then []
    else [inst.out]
  }

  lemma KidsFollow(p: Prog, s: Marks, pc: nat, y: nat)
    requires pc < |p.insts| && Follows(p, pc, y)
    ensures exists i :: 0 <= i < |Kids(p, s, pc)| && Kids(p, s, pc)[i] == y
  {
    var kids := Kids(p, s, pc);
    var i := if kids[0] == y then 0 else 1;
    assert kids[i] == y;
  }

  lemma VisitKids(p: Prog, given: seq<seq<int>>, s: Marks, pc: nat)
    requires Targets(p) && pc < |p.insts| && pc !in s.seen
    ensures InProg(p, Kids(p, s, pc))
    ensures Visit(p, given, s, pc) == Marked(p, given, VisitAll(p, given, s.(seen := s.seen + {pc}), Kids(p, s, pc)),
      pc)
  {
    var kids, s0 := Kids(p, s, pc), s.(seen := s.seen + {pc});
    assert InstOk(p.insts[pc], |p.insts|);
    if |kids| == 1 {
      VisitAllJoin(p, given, s0, [], kids[0]);
      assert [] + [kids[0]] == kids;
    } else if |kids| == 2 {
      VisitAllJoin(p, given, s0, [], kids[0]);
      assert [] + [kids[0]] == [kids[0]] && [kids[0]] + [kids[1]] == kids;
      VisitAllJoin(p, given, s0, [kids[0]], kids[1]);
    }
  }

  lemma MarksWith(p: Prog, s: State, pc: nat)
    requires pc !in s.seen
    ensures MarksOf(p, State(s.t, s.seen + [pc])) == MarksOf(p, s).(seen := MarksOf(p, s).seen + {pc})
  {
    var s0 := State(s.t, s.seen + [pc]);
    assert MarksOf(p, s0).seen == MarksOf(p, s).seen + {pc};
  }

  /** pc has been inserted, its successors checked, and its own entry made. */
  lemma CheckedNode(p: Prog, given: seq<seq<int>>, s: State, s2: State, s3: State, pc: nat, walked: bool, fine: bool)
    requires Good(p, given, s.t) && |given| == |p.insts| && pc < |p.insts| && pc !in s.seen
    requires Checked(p, given, State(s.t, s.seen + [pc]), s2, Kids(p, MarksOf(p, s), pc), walked)
    requires Finished(p, given, s2.t, s3.t, s2.seen, pc, fine) && s3.seen == s2.seen
    ensures Checked(p, given, s, s3, [pc], walked && fine)
  {
    var s0 := State(s.t, s.seen + [pc]);
    NodeOk(p, given, s, s2, pc, walked, fine);
    NodeKeeps(p, given, s, s2, s3, pc);
    NodeFills(p, given, s, s2, s3, pc, fine);
    if walked && fine {
      NodeMarks(p, given, s, s2, s3, pc);
      NodeCloses(p, s, s2, s3, pc, Kids(p, MarksOf(p, s), pc));
      if s3.t == s.t {
        forall x: nat | IsNew(s, s3, x) ensures SettledAt(p, given, s3.t, x) {
          if x != pc { assert IsNew(s0, s2, x); }
        }
      }
    }
  }

  lemma NodeKeeps(p: Prog, given: seq<seq<int>>, s: State, s2: State, s3: State, pc: nat)
    requires pc < |p.insts| && Keeps(p, given, State(s.t, s.seen + [pc]), s2) && s.seen + [pc] <= s2.seen == s3.seen
    requires Shaped(p, given, s3.t) && forall x: nat :: x < |p.insts| && x != pc ==> SameEntry(s2.t, s3.t, x)
    requires pc !in s.seen
    ensures Keeps(p, given, s, s3) && s.seen <= s3.seen && pc in s3.seen
    ensures s3.t == s.t ==> s2.t == s.t
  {
    var s0 := State(s.t, s.seen + [pc]);
    assert s0.seen[|s.seen|] == pc;
    forall x: nat | x < |p.insts| && !IsNew(s, s3, x) ensures SameEntry(s.t, s3.t, x) {
      assert !IsNew(s0, s2, x) && SameEntry(s0.t, s2.t, x) && SameEntry(s2.t, s3.t, x);
    }
    if s3.t == s.t {
      assert !IsNew(s0, s2, pc);
      forall x: nat | x < |p.insts| ensures SameEntry(s.t, s2.t, x) {
        if x != pc { assert SameEntry(s2.t, s3.t, x); }
      }
      SameTables(p, given, s.t, s2.t);
    }
  }

  lemma NodeFills(p: Prog, given: seq<seq<int>>, s: State, s2: State, s3: State, pc: nat, fine: bool)
    requires Fills(p, given, State(s.t, s.seen + [pc]), s2) && Finished(p, given, s2.t, s3.t, s2.seen, pc, fine)
    requires s3.seen == s2.seen && |given| == |p.insts|
    ensures Fills(p, given, s, s3)
  {
    forall x: nat | IsNew(s, s3, x) && x < |p.insts| && IsRune(p.insts[x])
      ensures x < |s3.t.runes| && x < |given| && s3.t.runes[x] == RuneSet(p.insts[x], given[x])
    {
      if x != pc { assert IsNew(State(s.t, s.seen + [pc]), s2, x) && SameEntry(s2.t, s3.t, x); }
    }
  }

  /** It succeeds exactly if nothing has clashed. */
  lemma NodeOk(p: Prog, given: seq<seq<int>>, s: State, s2: State, pc: nat, walked: bool, fine: bool)
    requires Targets(p) && pc < |p.insts| && pc !in s.seen && InProg(p, Kids(p, MarksOf(p, s), pc))
    requires var s0 := VisitAll(p, given, MarksOf(p, State(s.t, s.seen + [pc])), Kids(p, MarksOf(p, s), pc));
      (walked <==> s0.ok) && (walked ==> MarksOf(p, s2) == s0)
    requires fine <==> Marked(p, given, MarksOf(p, s2), pc).ok
    ensures InProg(p, [pc]) && (walked && fine <==> VisitAll(p, given, MarksOf(p, s), [pc]).ok)
  {
    MarksWith(p, s, pc);
    VisitKids(p, given, MarksOf(p, s), pc);
    assert [pc][1..] == [];
  }

  lemma NodeMarks(p: Prog, given: seq<seq<int>>, s: State, s2: State, s3: State, pc: nat)
    requires Targets(p) && pc < |p.insts| && pc !in s.seen && s3.seen == s2.seen
    requires InProg(p, Kids(p, MarksOf(p, s), pc))
    requires MarksOf(p, s2) == VisitAll(p, given, MarksOf(p, State(s.t, s.seen + [pc])), Kids(p, MarksOf(p, s), pc))
    requires MarksOf(p, s3) == Marked(p, given, MarksOf(p, s2), pc)
    ensures InProg(p, [pc]) && MarksOf(p, s3) == VisitAll(p, given, MarksOf(p, s), [pc])
  {
    MarksWith(p, s, pc);
    VisitKids(p, given, MarksOf(p, s), pc);
    assert [pc][1..] == [];
  }

  lemma NodeCloses(p: Prog, s: State, s2: State, s3: State, pc: nat, kids: seq<nat>)
    requires pc < |p.insts| && kids == Kids(p, MarksOf(p, s), pc) && Listed(s2.seen, kids) && s3.seen == s2.seen
    requires ClosesUp(p, State(s.t, s.seen + [pc]), s2)
    ensures ClosesUp(p, s, s3)
  {
    forall x: nat, y: nat | IsNew(s, s3, x) && Follows(p, x, y) ensures y in s3.seen {
      if x == pc {
        KidsFollow(p, MarksOf(p, s), pc, y);
      } else {
        assert IsNew(State(s.t, s.seen + [pc]), s2, x);
      }
    }
  }

  // ------------------------------------------------------------------- making an entry

  lemma SetYes(p: Prog, t: Tables, seen: seq<nat>, pc: nat, cell: Cell, runes: seq<int>, yes: Option<bool>)
    requires |t.cells| == |t.runes| == |p.insts| && pc < |p.insts|
    ensures var s, s' := MarksOf(p, State(t, seen)), MarksOf(p, State(With(t, pc, cell, runes, yes), seen));
      s'.m == (if After(t, pc, yes) then s.m + {pc} else s.m - {pc}) && s'.seen == s.seen && s'.ok == s.ok
    ensures var s, s' := MarksOf(p, State(t, seen)), MarksOf(p, State(With(t, pc, cell, runes, yes), seen));
      s'.exchanged == if p.insts[pc].Alt? && cell.out != p.insts[pc].out then s.exchanged + {pc} else s.exchanged - {pc}
    ensures |MarksOf(p, State(t, seen)).first| == |p.insts| &&
      MarksOf(p, State(With(t, pc, cell, runes, yes), seen)).first ==
        MarksOf(p, State(t, seen)).first[pc := SetOf(runes)]
  {
    assert SetsOf(With(t, pc, cell, runes, yes)) == SetsOf(t)[pc := SetOf(runes)];
  }

  lemma MadeEntry(p: Prog, given: seq<seq<int>>, t: Tables, pc: nat, cell: Cell, runes: seq<int>, yes: Option<bool>)
    requires Good(p, given, t) && pc < |p.insts| && CellOk(p.insts[pc], cell) && IsSet(runes)
    requires p.insts[pc].Alt? ==> cell.altMatch == After(t, pc, yes)
    requires IsRune(p.insts[pc]) && cell.next != [] && pc < |given| ==> runes == RuneSet(p.insts[pc], given[pc])
    requires (forall r :: Covers(runes, r) ==> Begins(p, given, pc, r)) && (After(t, pc, yes) ==> Ends(p, pc))
    requires Apt(p, given, With(t, pc, cell, runes, yes), pc)
    ensures Good(p, given, With(t, pc, cell, runes, yes))
    ensures forall x: nat :: x < |p.insts| && x != pc ==> SameEntry(t, With(t, pc, cell, runes, yes), x)
  {
    var t' := With(t, pc, cell, runes, yes);
    forall x: nat | x < |p.insts| ensures ShapedAt(p, given, t', x) && SoundAt(p, given, t', x) {
      assert ShapedAt(p, given, t, x) && SoundAt(p, given, t, x);
    }
    forall x: nat | x < |p.insts| ensures Apt(p, given, t', x) { assert Apt(p, given, t, x); }
  }

  lemma OthersLead(p: Prog, t: Tables, pc: nat, cell: Cell, runes: seq<int>, yes: Option<bool>)
    requires LegsOk(p, t) && pc < |p.insts|
    requires p.insts[pc].Alt? ==>
      |cell.next| == Pairs(runes) && forall k :: 0 <= k < |cell.next| ==> cell.next[k] in {cell.out, cell.arg}
    ensures LegsOk(p, With(t, pc, cell, runes, yes))
  {
    forall x: nat | x < |p.insts| && p.insts[x].Alt? ensures LegsAt(p, With(t, pc, cell, runes, yes), x) {
      assert LegsAt(p, t, x);
    }
  }

  /** InstMatch and InstFail. */
  lemma FinishesEnd(p: Prog, given: seq<seq<int>>, t: Tables, seen: seq<nat>, pc: nat)
    requires Good(p, given, t) && Given(p, given) && Targets(p) && pc < |p.insts|
    requires p.insts[pc].Match? || p.insts[pc].Fail?
    ensures Finished(p, given, t, With(t, pc, t.cells[pc], t.runes[pc], Some(p.insts[pc].Match?)), seen, pc, true)
  {
    var yes := Some(p.insts[pc].Match?);
    assert ShapedAt(p, given, t, pc) && SoundAt(p, given, t, pc) && InstOk(p.insts[pc], |p.insts|);
    assert yes.value ==> EndsIn(p, pc, 1);
    MadeEntry(p, given, t, pc, t.cells[pc], t.runes[pc], yes);
    SetYes(p, t, seen, pc, t.cells[pc], t.runes[pc], yes);
    if LegsOk(p, t) { OthersLead(p, t, pc, t.cells[pc], t.runes[pc], yes); }
  }

  function Repeat(x: nat, n: nat): seq<nat> { seq(n, _ => x) }

  /** InstCapture, InstNop and InstEmptyWidth. */
  lemma FinishesStraight(p: Prog, given: seq<seq<int>>, t: Tables, seen: seq<nat>, pc: nat, next: seq<nat>)
    requires Good(p, given, t) && Given(p, given) && Targets(p) && pc < |p.insts| && IsStraight(p.insts[pc])
    ensures p.insts[pc].out < |p.insts|
    ensures var out := p.insts[pc].out;
      Finished(p, given, t, With(t, pc, t.cells[pc].(next := next), t.runes[out], Some(Yes(t.m, out))), seen, pc, true)
  {
    var out := p.insts[pc].out;
    assert InstOk(p.insts[pc], |p.insts|) && Follows(p, pc, out);
    assert ShapedAt(p, given, t, pc) && ShapedAt(p, given, t, out) && SoundAt(p, given, t, out);
    var cell := t.cells[pc].(next := next);
    forall r | Covers(t.runes[out], r) ensures Begins(p, given, pc, r) { AheadOne(p, given, pc, out, r); }
    AheadOne(p, given, pc, out, 0);
    MadeEntry(p, given, t, pc, cell, t.runes[out], Some(Yes(t.m, out)));
    SetYes(p, t, seen, pc, cell, t.runes[out], Some(Yes(t.m, out)));
    if LegsOk(p, t) { OthersLead(p, t, pc, cell, t.runes[out], Some(Yes(t.m, out))); }
  }

  lemma RuneSetIsSet(p: Prog, given: seq<seq<int>>, pc: nat)
    requires Given(p, given) && pc < |p.insts| && IsRune(p.insts[pc])
    ensures IsSet(RuneSet(p.insts[pc], given[pc]))
    ensures forall r :: Covers(RuneSet(p.insts[pc], given[pc]), r) ==> Begins(p, given, pc, r)
  {
    forall r | Covers(RuneSet(p.insts[pc], given[pc]), r) ensures Begins(p, given, pc, r) {
      assert BeginsIn(p, given, pc, r, 1);
    }
  }

  /** The rune instructions. */
  lemma FinishesRune(p: Prog, given: seq<seq<int>>, t: Tables, seen: seq<nat>, pc: nat, next: seq<nat>)
    requires Good(p, given, t) && Given(p, given) && Targets(p) && pc < |p.insts| && IsRune(p.insts[pc])
    ensures Finished(p, given, t,
      With(t, pc, t.cells[pc].(next := next), RuneSet(p.insts[pc], given[pc]), Some(false)), seen, pc, true)
  {
    var cell, runes := t.cells[pc].(next := next), RuneSet(p.insts[pc], given[pc]);
    assert ShapedAt(p, given, t, pc) && InstOk(p.insts[pc], |p.insts|);
    RuneSetIsSet(p, given, pc);
    MadeEntry(p, given, t, pc, cell, runes, Some(false));
    SetYes(p, t, seen, pc, cell, runes, Some(false));
    if LegsOk(p, t) { OthersLead(p, t, pc, cell, runes, Some(false)); }
  }

  /** The legs of an alternative: one that matches comes first, and makes an InstAltMatch of it. */
  function Exchanged(t: Tables, pc: nat): Cell
    requires pc < |t.cells|
  {
    var c := t.cells[pc];
    if Yes(t.m, c.arg) then Cell(c.arg, c.out, true, c.next)
    else if Yes(t.m, c.out) then c.(altMatch := true)
    else c
  }

  function MatchMark(t: Tables, pc: nat): Option<bool>
    requires pc < |t.cells|
  {
    if Yes(t.m, t.cells[pc].out) || Yes(t.m, t.cells[pc].arg) then Some(true) else None
  }

  ghost predicate AltHere(p: Prog, given: seq<seq<int>>, t: Tables, pc: nat) {
    Good(p, given, t) && Given(p, given) && Targets(p) && pc < |p.insts| && p.insts[pc].Alt?
  }

  lemma LegsKnown(p: Prog, given: seq<seq<int>>, t: Tables, pc: nat)
    requires AltHere(p, given, t, pc)
    ensures var c := t.cells[pc];
      && c.out < |p.insts| && c.arg < |p.insts| && Follows(p, pc, c.out) && Follows(p, pc, c.arg)
      && (forall r :: Covers(t.runes[c.out], r) ==> Begins(p, given, c.out, r) && Begins(p, given, pc, r))
      && (forall r :: Covers(t.runes[c.arg], r) ==> Begins(p, given, c.arg, r) && Begins(p, given, pc, r))
      && (Yes(t.m, c.out) ==> Ends(p, c.out) && Ends(p, pc)) && (Yes(t.m, c.arg) ==> Ends(p, c.arg) && Ends(p, pc))
      && CellOk(p.insts[pc], c) && (c.altMatch <==> Yes(t.m, pc)) && (Yes(t.m, pc) ==> Ends(p, pc))
      && IsSet(t.runes[c.out]) && IsSet(t.runes[c.arg])
  {
    var c := t.cells[pc];
    assert ShapedAt(p, given, t, pc) && InstOk(p.insts[pc], |p.insts|) && SoundAt(p, given, t, pc);
    assert ShapedAt(p, given, t, c.out) && ShapedAt(p, given, t, c.arg);
    assert SoundAt(p, given, t, c.out) && SoundAt(p, given, t, c.arg);
    forall r ensures Begins(p, given, c.out, r) || Begins(p, given, c.arg, r) ==> Begins(p, given, pc, r) {
      AheadOne(p, given, pc, c.out, r);
      AheadOne(p, given, pc, c.arg, r);
    }
    AheadOne(p, given, pc, c.out, 0);
    AheadOne(p, given, pc, c.arg, 0);
  }

  /** A clash in the tables is one of the sets. */
  lemma ClashIs(p: Prog, given: seq<seq<int>>, t: Tables, seen: seq<nat>, pc: nat)
    requires AltHere(p, given, t, pc)
    ensures t.cells[pc].out < |t.runes| && t.cells[pc].arg < |t.runes|
    ensures var c := t.cells[pc];
      Clash(p, MarksOf(p, State(t, seen)), pc) <==>
        (Yes(t.m, c.out) && Yes(t.m, c.arg)) || !Disjoint(t.runes[c.out], t.runes[c.arg])
  {
    LegsKnown(p, given, t, pc);
    var ms, c := MarksOf(p, State(t, seen)), t.cells[pc];
    assert First(ms, c.out) == SetOf(t.runes[c.out]) && First(ms, c.arg) == SetOf(t.runes[c.arg]);
    SetsMeet(t.runes[c.out], t.runes[c.arg]);
  }

  lemma SetsMeet(left: seq<int>, right: seq<int>)
    ensures SetOf(left) !! SetOf(right) <==> Disjoint(left, right)
  {
    if Disjoint(left, right) {
      forall r ensures !(r in SetOf(left) && r in SetOf(right)) { assert !(Covers(left, r) && Covers(right, r)); }
    } else {
      var r :| Covers(left, r) && Covers(right, r);
      assert r in SetOf(left) && r in SetOf(right);
    }
  }

  lemma BothMatch(p: Prog, given: seq<seq<int>>, t: Tables, seen: seq<nat>, pc: nat)
    requires AltHere(p, given, t, pc) && Yes(t.m, t.cells[pc].out) && Yes(t.m, t.cells[pc].arg)
    ensures Finished(p, given, t, t, seen, pc, false)
  {
    LegsKnown(p, given, t, pc);
    ClashIs(p, given, t, seen, pc);
    assert Unambiguous(p, given) ==> ClearAt(p, given, pc);
  }

  lemma MergeFails(p: Prog, given: seq<seq<int>>, t: Tables, seen: seq<nat>, pc: nat, next: seq<nat>)
    requires AltHere(p, given, t, pc) && !(Yes(t.m, t.cells[pc].out) && Yes(t.m, t.cells[pc].arg))
    requires t.cells[pc].out < |t.runes| && t.cells[pc].arg < |t.runes|
    requires !Disjoint(t.runes[t.cells[pc].out], t.runes[t.cells[pc].arg])
    ensures Finished(p, given, t, With(t, pc, Exchanged(t, pc).(next := next), [], MatchMark(t, pc)), seen, pc, false)
  {
    LegsKnown(p, given, t, pc);
    ClashIs(p, given, t, seen, pc);
    assert Unambiguous(p, given) ==> ClearAt(p, given, pc);
    assert Apt(p, given, t, pc);
    MadeEntry(p, given, t, pc, Exchanged(t, pc).(next := next), [], MatchMark(t, pc));
  }

  lemma UnionIsSet(left: seq<int>, right: seq<int>, leftPC: nat, rightPC: nat, runes: seq<int>, next: seq<nat>)
    requires IsSet(left) && IsSet(right) && IsUnion(left, right, leftPC, rightPC, runes, next)
    ensures IsSet(runes) && forall k :: 0 <= k < |next| ==> next[k] in {leftPC, rightPC}
  {
    forall k | 0 <= k < Pairs(runes)
      ensures runes[2 * k] >= 0 && runes[2 * k + 1] >= 0 && next[k] in {leftPC, rightPC}
    {
      assert InPair(runes, k, Low(runes, k)) && Low(runes, k) == runes[2 * k] && High(runes, k) == runes[2 * k + 1];
      NotNegative(if Covers(left, Low(runes, k)) then left else right, Low(runes, k));
    }
    forall i | 0 <= i < |runes| ensures runes[i] >= 0 { assert runes[2 * (i / 2)] >= 0 && runes[2 * (i / 2) + 1] >= 0; }
  }

  lemma NotNegative(runes: seq<int>, r: int)
    requires IsSet(runes) && Covers(runes, r)
    ensures r >= 0
  {
    var k :| 0 <= k < Pairs(runes) && InPair(runes, k, r);
    assert runes[2 * k] >= 0;
  }

  lemma UnionIsApt(p: Prog, given: seq<seq<int>>, t: Tables, pc: nat, c: Cell, runes: seq<int>)
    requires AltHere(p, given, t, pc) && !(Yes(t.m, t.cells[pc].out) && Yes(t.m, t.cells[pc].arg))
    requires c == Exchanged(t, pc).(next := c.next) && c.out < |t.runes| && c.arg < |t.runes|
    requires IsUnion(t.runes[c.out], t.runes[c.arg], c.out, c.arg, runes, c.next)
    ensures Apt(p, given, With(t, pc, c, runes, MatchMark(t, pc)), pc)
  {
    LegsKnown(p, given, t, pc);
    assert Apt(p, given, t, pc);
  }

  lemma MergeSucceeds(p: Prog, given: seq<seq<int>>, t: Tables, seen: seq<nat>, pc: nat, runes: seq<int>,
      next: seq<nat>)
    requires AltHere(p, given, t, pc) && !(Yes(t.m, t.cells[pc].out) && Yes(t.m, t.cells[pc].arg))
    requires var c := Exchanged(t, pc);
      c.out < |t.runes| && c.arg < |t.runes| && Disjoint(t.runes[c.out], t.runes[c.arg]) &&
      IsUnion(t.runes[c.out], t.runes[c.arg], c.out, c.arg, runes, next)
    ensures Finished(p, given, t, With(t, pc, Exchanged(t, pc).(next := next), runes, MatchMark(t, pc)), seen, pc, true)
  {
    var c, yes := Exchanged(t, pc).(next := next), MatchMark(t, pc);
    LegsKnown(p, given, t, pc);
    UnionIsSet(t.runes[c.out], t.runes[c.arg], c.out, c.arg, runes, next);
    UnionIsApt(p, given, t, pc, c, runes);
    MadeEntry(p, given, t, pc, c, runes, yes);
    SetYes(p, t, seen, pc, c, runes, yes);
    AltIsMarked(p, given, t, seen, pc, c, runes);
    if LegsOk(p, t) { OthersLead(p, t, pc, c, runes, yes); }
    assert InstOk(p.insts[pc], |p.insts|);
  }

  lemma AltIsMarked(p: Prog, given: seq<seq<int>>, t: Tables, seen: seq<nat>, pc: nat, c: Cell, runes: seq<int>)
    requires AltHere(p, given, t, pc) && !(Yes(t.m, t.cells[pc].out) && Yes(t.m, t.cells[pc].arg))
    requires c == Exchanged(t, pc).(next := c.next) && c.out < |t.runes| && c.arg < |t.runes|
    requires Disjoint(t.runes[c.out], t.runes[c.arg])
    requires IsUnion(t.runes[c.out], t.runes[c.arg], c.out, c.arg, runes, c.next)
    ensures MarksOf(p, State(With(t, pc, c, runes, MatchMark(t, pc)), seen)) ==
      Marked(p, given, MarksOf(p, State(t, seen)), pc)
  {
    ClashIs(p, given, t, seen, pc);
    LegsKnown(p, given, t, pc);
    SetYes(p, t, seen, pc, c, runes, MatchMark(t, pc));
    var ms, inst := MarksOf(p, State(t, seen)), p.insts[pc];
    assert SetOf(runes) == SetOf(t.runes[c.out]) + SetOf(t.runes[c.arg]);
    assert First(ms, c.out) == SetOf(t.runes[c.out]) && First(ms, c.arg) == SetOf(t.runes[c.arg]);
    assert FirstRunes(p, given, ms, pc) == SetOf(runes);
    assert FirstLeg(p, ms, pc) == t.cells[pc].out && SecondLeg(p, ms, pc) == t.cells[pc].arg;
    assert pc in ms.m <==> Yes(t.m, pc);
  }

  // ------------------------------------------------------------------ the sequence of passes

  function Add(roots: seq<nat>, u: nat): seq<nat> { if u in roots then roots else roots + [u] }

  /** After the check of a root the instructions behind it follow, as its legs were before. */
  function MoreRoots(p: Prog, s: Marks, roots: seq<nat>, pc: nat): seq<nat>
    requires pc < |p.insts|
  {
    var inst := p.insts[pc];
    if inst.Alt? then Add(Add(roots, FirstLeg(p, s, pc)), SecondLeg(p, s, pc))
    else if IsStraight(inst) then Add(roots, inst.out)
    else roots
  }

  lemma MoreInProg(p: Prog, s: Marks, roots: seq<nat>, pc: nat)
    requires Targets(p) && InProg(p, roots) && pc < |p.insts|
    ensures InProg(p, MoreRoots(p, s, roots, pc))
  {
    assert InstOk(p.insts[pc], |p.insts|);
  }

  /** What a pass from each root from number i on makes of the tables. */
  ghost function Passes(p: Prog, given: seq<seq<int>>, s: Marks, roots: seq<nat>, i: nat): Marks
    requires Targets(p) && InProg(p, roots)
    decreases |p.insts| - i
  {
    if i >= |roots| || i >= |p.insts| then s
    else
      MoreInProg(p, s, roots, roots[i]);
      Passes(p, given, Visit(p, given, s.(seen := {}), roots[i]), MoreRoots(p, s, roots, roots[i]), i + 1)
  }

  ghost function NoMarks(p: Prog): Marks { Marks({}, {}, {}, seq(|p.insts|, _ => iset{}), true) }

  ghost function AllPasses(p: Prog, given: seq<seq<int>>): Marks
    requires Targets(p) && p.start < |p.insts|
  {
    Passes(p, given, NoMarks(p), [p.start], 0)
  }

  lemma NewMarks(p: Prog)
    ensures MarksOf(p, State(NewTables(p), [])) == NoMarks(p)
  {
    assert SetOf([]) == iset{};
    assert SetsOf(NewTables(p)) == NoMarks(p).first;
  }

  /** Once there is a clash the passes fail. */
  lemma {:induction false} PassesFail(p: Prog, given: seq<seq<int>>, s: Marks, roots: seq<nat>, i: nat)
    requires Targets(p) && InProg(p, roots) && !s.ok
    ensures !Passes(p, given, s, roots, i).ok
    decreases |p.insts| - i
  {
    if i < |roots| && i < |p.insts| {
      MoreInProg(p, s, roots, roots[i]);
      PassesFail(p, given, Visit(p, given, s.(seen := {}), roots[i]), MoreRoots(p, s, roots, roots[i]), i + 1);
    }
  }

  lemma PassMarks(p: Prog, given: seq<seq<int>>, s: State, s': State, pc: nat)
    requires Targets(p) && InProg(p, [pc]) && s.seen == [] && MarksOf(p, s') == VisitAll(p, given, MarksOf(p, s), [pc])
    ensures MarksOf(p, s') == Visit(p, given, MarksOf(p, s).(seen := {}), pc)
  {
    assert [pc][1..] == [] && [pc][0] == pc;
    assert MarksOf(p, s).seen == {};
  }

  /** A pass does not undo what an earlier one has filled in. */
  lemma FilledKept(p: Prog, given: seq<seq<int>>, s: State, s': State, S: set<nat>)
    requires Filled(p, given, s.t, S) && Keeps(p, given, s, s') && Fills(p, given, s, s')
    ensures Filled(p, given, s'.t, S)
  {
    forall pc | pc in S && pc < |p.insts| && p.insts[pc].Rune?
      ensures s'.t.runes[pc] == RuneSet(p.insts[pc], given[pc]) {
      if !IsNew(s, s', pc) { assert SameEntry(s.t, s'.t, pc); }
    }
  }

  /** The cell of an alternative has its legs in the order of the marks. */
  predicate AltLegs(p: Prog, ms: Marks, pc: nat, c: Cell) {
    pc < |p.insts| && p.insts[pc].Alt? ==> c.out == FirstLeg(p, ms, pc) && c.arg == SecondLeg(p, ms, pc)
  }

  lemma CellLegs(p: Prog, given: seq<seq<int>>, s: State, pc: nat)
    requires Good(p, given, s.t) && pc < |p.insts|
    ensures AltLegs(p, MarksOf(p, s), pc, s.t.cells[pc])
  {
    assert ShapedAt(p, given, s.t, pc);
  }

  function Set(seen: seq<nat>): set<nat> { set x | x in seen }

  /** The first pass fills in all that the program can come to. */
  lemma FirstFills(p: Prog, given: seq<seq<int>>, s: State, s': State)
    requires Checked(p, given, s, s', [p.start], true) && s.seen == [] && |given| == |p.insts|
    ensures Filled(p, given, s'.t, Set(s'.seen))
  {
    assert [p.start][0] in s'.seen;
    forall pc, x | pc in Set(s'.seen) && Follows(p, pc, x) ensures x in Set(s'.seen) { assert IsNew(s, s', pc); }
    forall pc | pc in Set(s'.seen) && pc < |p.insts| && p.insts[pc].Rune?
      ensures s'.t.runes[pc] == RuneSet(p.insts[pc], given[pc])
    {
      assert IsNew(s, s', pc);
    }
  }

  /** The passes still to come lead to what all passes lead to. */
  ghost predicate Underway(p: Prog, given: seq<seq<int>>, s: State, roots: seq<nat>, i: nat)
    requires Targets(p) && InProg(p, roots) && p.start < |p.insts|
  {
    forall ms :: ms == MarksOf(p, s) ==> Passes(p, given, ms, roots, i) == AllPasses(p, given)
  }

  /** Between passes: the marks of s are on their way, with the roots from number i on to come. */
  ghost predicate Between(p: Prog, given: seq<seq<int>>, now: State, s: State, roots: seq<nat>, i: nat, S: set<nat>) {
    && Targets(p) && p.start < |p.insts| == |given| && InProg(p, roots) && i <= |roots|
    && now.t == s.t && LegsOk(p, s.t)
    && Underway(p, given, s, roots, i)
    && if i == 0 then roots == [p.start] else s == now && Filled(p, given, s.t, S)
  }

  lemma UnderwayNext(p: Prog, given: seq<seq<int>>, s: State, s': State, roots: seq<nat>, i: nat)
    requires Targets(p) && InProg(p, roots) && p.start < |p.insts| && Underway(p, given, s, roots, i)
    requires i < |roots| && i < |p.insts|
    requires MarksOf(p, s') == Visit(p, given, MarksOf(p, s).(seen := {}), roots[i])
    ensures InProg(p, MoreRoots(p, MarksOf(p, s), roots, roots[i]))
    ensures Underway(p, given, s', MoreRoots(p, MarksOf(p, s), roots, roots[i]), i + 1)
  {
    MoreInProg(p, MarksOf(p, s), roots, roots[i]);
    assert Passes(p, given, MarksOf(p, s), roots, i) == AllPasses(p, given);
  }

  lemma UnderwayFirst(p: Prog, given: seq<seq<int>>)
    requires Targets(p) && p.start < |p.insts|
    ensures Underway(p, given, State(NewTables(p), []), [p.start], 0)
  {
    NewMarks(p);
  }

  lemma UnderwayLast(p: Prog, given: seq<seq<int>>, s: State, roots: seq<nat>, i: nat)
    requires Targets(p) && InProg(p, roots) && p.start < |p.insts| && Underway(p, given, s, roots, i) && i >= |roots|
    ensures MarksOf(p, s) == AllPasses(p, given)
  {
    assert Passes(p, given, MarksOf(p, s), roots, i) == AllPasses(p, given);
  }

  /** The marks and the sets after a pass from root number i. */
  lemma PassDone(p: Prog, given: seq<seq<int>>, now: State, s: State, s': State, roots: seq<nat>, i: nat, S: set<nat>)
      returns (S': set<nat>)
    requires Between(p, given, now, s, roots, i, S) && i < |roots| && i < |p.insts|
    requires Checked(p, given, State(s.t, []), s', [roots[i]], true)
    ensures roots[i] < |p.insts|
    ensures Between(p, given, s', s', MoreRoots(p, MarksOf(p, s), roots, roots[i]), i + 1, S')
  {
    var s0 := State(s.t, []);
    PassMarks(p, given, s0, s', roots[i]);
    assert MarksOf(p, s0).(seen := {}) == MarksOf(p, s).(seen := {});
    UnderwayNext(p, given, s, s', roots, i);
    if i == 0 {
      FirstFills(p, given, s0, s');
      S' := Set(s'.seen);
    } else {
      FilledKept(p, given, s0, s', S);
      S' := S;
    }
  }

  /** A pass that fails is one that the sets clash in. */
  lemma PassFails(p: Prog, given: seq<seq<int>>, now: State, s: State, s': State, roots: seq<nat>, i: nat, S: set<nat>)
    requires Between(p, given, now, s, roots, i, S) && i < |roots| && i < |p.insts|
    requires Checked(p, given, State(s.t, []), s', [roots[i]], false)
    ensures !AllPasses(p, given).ok
  {
    PassClashes(p, given, State(s.t, []), roots[i]);
    PassesClash(p, given, MarksOf(p, s), roots, i);
    assert Passes(p, given, MarksOf(p, s), roots, i) == AllPasses(p, given);
  }

  lemma PassClashes(p: Prog, given: seq<seq<int>>, s: State, pc: nat)
    requires Targets(p) && InProg(p, [pc]) && s.seen == [] && !VisitAll(p, given, MarksOf(p, s), [pc]).ok
    ensures pc < |p.insts| && !Visit(p, given, MarksOf(p, s).(seen := {}), pc).ok
  {
    assert [pc][1..] == [] && [pc][0] == pc;
    assert MarksOf(p, s).seen == {};
  }

  lemma PassesClash(p: Prog, given: seq<seq<int>>, s: Marks, roots: seq<nat>, i: nat)
    requires Targets(p) && InProg(p, roots) && i < |roots| && i < |p.insts|
    requires !Visit(p, given, s.(seen := {}), roots[i]).ok
    ensures !Passes(p, given, s, roots, i).ok
  {
    MoreInProg(p, s, roots, roots[i]);
    PassesFail(p, given, Visit(p, given, s.(seen := {}), roots[i]), MoreRoots(p, s, roots, roots[i]), i + 1);
  }

  /** No unambiguous program is refused, and none without a clash. */
  ghost predicate Rightly(p: Prog, given: seq<seq<int>>, ok: bool)
    requires Targets(p) && p.start < |p.insts|
  {
    (Unambiguous(p, given) ==> ok) && (!ok ==> !AllPasses(p, given).ok)
  }

  /** What a pass from root number i comes to. */
  ghost predicate Passed(p: Prog, given: seq<seq<int>>, s: State, s': State, roots: seq<nat>, i: nat, S: set<nat>,
      ok: bool) {
    && Targets(p) && p.start < |p.insts| && i < |roots| && roots[i] < |p.insts| && Rightly(p, given, ok)
    && (ok ==> Between(p, given, s', s', MoreRoots(p, MarksOf(p, s), roots, roots[i]), i + 1, S))
  }

  lemma AfterPass(p: Prog, given: seq<seq<int>>, now: State, s: State, s': State, roots: seq<nat>, i: nat, S: set<nat>,
      ok: bool) returns (S': set<nat>)
    requires Between(p, given, now, s, roots, i, S) && i < |roots| && i < |p.insts|
    requires Checked(p, given, State(now.t, []), s', [roots[i]], ok)
    ensures Passed(p, given, s, s', roots, i, S', ok)
  {
    S' := S;
    if ok {
      S' := PassDone(p, given, now, s, s', roots, i, S);
    } else {
      PassFails(p, given, now, s, s', roots, i, S);
    }
  }

  /** A pass from the start that changes nothing shows that the tables are settled. */
  lemma QuietPass(p: Prog, given: seq<seq<int>>, s: State, s': State)
    requires Checked(p, given, s, s', [p.start], true) && s.seen == [] && s'.t == s.t
    ensures SettledOn(p, given, s.t, Set(s'.seen))
  {
    assert [p.start][0] in s'.seen;
    forall pc, x | pc in Set(s'.seen) && Follows(p, pc, x) ensures x in Set(s'.seen) { assert IsNew(s, s', pc); }
    forall pc | pc in Set(s'.seen) ensures SettledAt(p, given, s.t, pc) { assert IsNew(s, s', pc); }
  }

  // ---------------------------------------------------------------------- the builder

  const MERGE_FAILED: nat := 0xFFFF_FFFF

  /** Longer programs are not worth the check. */
  const MAX_ONE_PASS := 1000

  /** What makeOnePass and its functions share: the program they turn into a one-pass program,
      the sets found so far, what may match without input, and the instructions visited. */
  class Builder {
    const prog: Prog
    const given: seq<seq<int>>
    const visitQueue: QueueOnePass
    var cells: seq<Cell>
    var onePassRunes: seq<seq<int>>
    var m: map<nat, bool>

    ghost function T(): Tables
      reads this
    {
      Tables(cells, onePassRunes, m)
    }

    ghost predicate Valid()
      reads this, visitQueue, visitQueue.sparse, visitQueue.dense
    {
      && visitQueue.Valid() && visitQueue.sparse.Length == |prog.insts|
      && Targets(prog) && Given(prog, given) && Good(prog, given, T())
    }

    ghost function Now(): State
      requires visitQueue.Valid()
      reads this, visitQueue, visitQueue.sparse, visitQueue.dense
    {
      State(T(), visitQueue.Elements())
    }

    constructor (prog: Prog, given: seq<seq<int>>)
      requires Targets(prog) && Given(prog, given)
      ensures Valid() && fresh(visitQueue) && fresh(visitQueue.sparse) && fresh(visitQueue.dense)
      ensures this.prog == prog && this.given == given && T() == NewTables(prog) && LegsOk(prog, T())
    {
      this.prog, this.given := prog, given;
      visitQueue := new QueueOnePass(|prog.insts|);
      cells, onePassRunes, m := NewTables(prog).cells, NewTables(prog).runes, NewTables(prog).m;
      new;
      assert T() == NewTables(prog);
    }

    /** The entries of an InstMatch or an InstFail. */
    method CompleteEnd(pc: nat)
      requires Valid() && pc < |prog.insts| && (prog.insts[pc].Match? || prog.insts[pc].Fail?)
      modifies this`m
      ensures Valid() && Finished(prog, given, old(T()), T(), visitQueue.Elements(), pc, true)
    {
      ghost var t := T();
      FinishesEnd(prog, given, t, visitQueue.Elements(), pc);
      assert t.cells[pc := t.cells[pc]] == t.cells && t.runes[pc := t.runes[pc]] == t.runes;
      m := m[pc := prog.insts[pc].Match?];
    }

    /** Passes the runes that match back through an instruction that consumes none. */
    method CompleteStraight(pc: nat)
      requires Valid() && pc < |prog.insts| && IsStraight(prog.insts[pc])
      modifies this`cells, this`onePassRunes, this`m
      ensures Valid() && Finished(prog, given, old(T()), T(), visitQueue.Elements(), pc, true)
    {
      ghost var t := T();
      var out := prog.insts[pc].out;
      assert InstOk(prog.insts[pc], |prog.insts|);
      m := m[pc := Yes(m, out)];
      onePassRunes := onePassRunes[pc := onePassRunes[out]];
      var next := Repeat(out, |onePassRunes[pc]| / 2 + 1);
      FinishesStraight(prog, given, t, visitQueue.Elements(), pc, next);
      cells := cells[pc := cells[pc].(next := next)];
    }

    /** The set of a rune instruction, made on the first visit. */
    method CompleteRune(pc: nat)
      requires Valid() && pc < |prog.insts| && IsRune(prog.insts[pc])
      modifies this`cells, this`onePassRunes, this`m
      ensures Valid() && Finished(prog, given, old(T()), T(), visitQueue.Elements(), pc, true)
    {
      ghost var t := T();
      assert ShapedAt(prog, given, t, pc);
      m := m[pc := false];
      if |cells[pc].next| > 0 {
        FinishesRune(prog, given, t, visitQueue.Elements(), pc, cells[pc].next);
        assert t.cells[pc := t.cells[pc]] == t.cells && t.runes[pc := t.runes[pc]] == t.runes;
        return;
      }
      onePassRunes := onePassRunes[pc := RuneSet(prog.insts[pc], given[pc])];
      var next := Repeat(prog.insts[pc].out, |onePassRunes[pc]| / 2 + 1);
      FinishesRune(prog, given, t, visitQueue.Elements(), pc, next);
      cells := cells[pc := cells[pc].(next := next)];
    }

    /** Builds the dispatch of an alternative from its two legs, which are in order in c. */
    method MergeLegs(pc: nat, c: Cell, ghost t: Tables) returns (ok: bool)
      requires visitQueue.Valid() && visitQueue.sparse.Length == |prog.insts| && AltHere(prog, given, t, pc)
      requires !(Yes(t.m, t.cells[pc].out) && Yes(t.m, t.cells[pc].arg)) && c == Exchanged(t, pc)
      requires cells == t.cells && onePassRunes == t.runes && m == if MatchMark(t, pc).Some? then t.m[pc := true]
        else t.m
      modifies this`cells, this`onePassRunes
      ensures Valid() && Finished(prog, given, t, T(), visitQueue.Elements(), pc, ok)
    {
      LegsKnown(prog, given, t, pc);
      var merge := MergeRuneSets(onePassRunes[c.out], onePassRunes[c.arg], c.out, c.arg);
      match merge
      case Fails =>
        MergeFails(prog, given, t, visitQueue.Elements(), pc, [MERGE_FAILED]);
        onePassRunes, cells := onePassRunes[pc := []], cells[pc := c.(next := [MERGE_FAILED])];
        return false;
      case Merged(runes, next) =>
        MergeSucceeds(prog, given, t, visitQueue.Elements(), pc, runes, next);
        onePassRunes, cells := onePassRunes[pc := runes], cells[pc := c.(next := next)];
        return true;
    }

    /** The entry of an alternative, a leg that matches first. */
    method CompleteAlt(pc: nat) returns (ok: bool)
      requires Valid() && pc < |prog.insts| && prog.insts[pc].Alt?
      modifies this`cells, this`onePassRunes, this`m
      ensures Valid() && Finished(prog, given, old(T()), T(), visitQueue.Elements(), pc, ok)
    {
      ghost var t := T();
      LegsKnown(prog, given, t, pc);
      var c := cells[pc];
      var matchOut, matchArg := Yes(m, c.out), Yes(m, c.arg);
      if matchOut && matchArg {
        BothMatch(prog, given, t, visitQueue.Elements(), pc);
        return false;
      }
      if matchArg {
        c := c.(out := c.arg, arg := c.out);
        matchOut, matchArg := matchArg, matchOut;
      }
      if matchOut {
        m := m[pc := true];
        c := c.(altMatch := true);
      }
      ok := MergeLegs(pc, c, t);
    }

    /** check: whether the paths from the alternatives that pc leads to are unambiguous. */
    method Check(pc: nat) returns (ok: bool)
      requires Valid() && pc < |prog.insts|
      modifies this`cells, this`onePassRunes, this`m, visitQueue`size, visitQueue.sparse, visitQueue.dense
      ensures Valid() && Checked(prog, given, old(Now()), Now(), [pc], ok)
      decreases |prog.insts| - |visitQueue.Elements()|, 0
    {
      ghost var s := Now();
      var visited := visitQueue.Contains(pc);
      if visited {
        CheckedBefore(prog, given, s, pc);
        return true;
      }
      visitQueue.Insert(pc);
      ghost var kids := Kids(prog, MarksOf(prog, s), pc);
      var walked := CheckKids(pc, s);
      ghost var s2 := Now();
      var fine := true;
      if prog.insts[pc].Alt? {
        fine := CompleteAlt(pc);
      } else if prog.insts[pc].Match? || prog.insts[pc].Fail? {
        CompleteEnd(pc);
      } else if IsStraight(prog.insts[pc]) {
        CompleteStraight(pc);
      } else {
        CompleteRune(pc);
      }
      CheckedNode(prog, given, s, s2, Now(), pc, walked, fine);
      ok := walked && fine;
    }

    /** Checks what pc leads to; the second leg only if the first is in order. */
    method CheckKids(pc: nat, ghost s: State) returns (ok: bool)
      requires Valid() && pc < |prog.insts| && Now() == State(s.t, s.seen + [pc]) && pc !in s.seen
      modifies this`cells, this`onePassRunes, this`m, visitQueue`size, visitQueue.sparse, visitQueue.dense
      ensures Valid() && Checked(prog, given, old(Now()), Now(), Kids(prog, MarksOf(prog, s), pc), ok)
      decreases |prog.insts| - |visitQueue.Elements()|, 2
    {
      ghost var s0, kids := Now(), Kids(prog, MarksOf(prog, s), pc);
      NothingChecked(prog, given, s0);
      if prog.insts[pc].Alt? {
        ok := CheckLegs(pc, s0);
        LegsAreKids(prog, given, s, pc);
      } else if prog.insts[pc].Match? || prog.insts[pc].Fail? {
        ok := true;
      } else {
        assert InstOk(prog.insts[pc], |prog.insts|);
        ok := Check(prog.insts[pc].out);
      }
    }

    method CheckLegs(pc: nat, ghost s: State) returns (ok: bool)
      requires Valid() && pc < |prog.insts| && prog.insts[pc].Alt? && Now() == s && pc in s.seen
      modifies this`cells, this`onePassRunes, this`m, visitQueue`size, visitQueue.sparse, visitQueue.dense
      ensures Valid() && Checked(prog, given, old(Now()), Now(), [old(cells[pc].out), old(cells[pc].arg)], ok)
      decreases |prog.insts| - |visitQueue.Elements()|, 1
    {
      ghost var out, arg := cells[pc].out, cells[pc].arg;
      LegsKnown(prog, given, T(), pc);
      ok := Check(cells[pc].out);
      ghost var s1 := Now();
      assert [out] + [arg] == [out, arg];
      if ok {
        assert SameEntry(s.t, s1.t, pc);
        ok := Check(cells[pc].arg);
        CheckedThen(prog, given, s, s1, Now(), [out], arg, ok);
      } else {
        CheckedFirst(prog, given, s, s1, out, arg);
      }
    }

    /** A queue of roots for the instructions of the program. */
    ghost predicate Roots(instQueue: QueueOnePass)
      reads instQueue, instQueue.sparse, instQueue.dense
    {
      instQueue.Valid() && instQueue.sparse.Length == |prog.insts|
    }

    method FirstRoot() returns (instQueue: QueueOnePass)
      requires prog.start < |prog.insts|
      ensures fresh(instQueue) && fresh(instQueue.sparse) && fresh(instQueue.dense)
      ensures Roots(instQueue) && instQueue.nextIndex == 0 && instQueue.Elements() == [prog.start]
    {
      instQueue := new QueueOnePass(|prog.insts|);
      instQueue.Insert(prog.start);
      assert [] + [prog.start] == [prog.start];
    }

    /** The two queues share nothing. */
    ghost predicate Apart(instQueue: QueueOnePass)
      reads this, instQueue
    {
      && instQueue != visitQueue && instQueue.sparse != visitQueue.sparse && instQueue.dense != visitQueue.dense
      && instQueue.sparse != visitQueue.dense && instQueue.dense != visitQueue.sparse
    }

    /** One pass: a check from a root, with nothing visited; the queue of roots is not touched. */
    method Pass(ghost instQueue: QueueOnePass, pc: nat) returns (ok: bool)
      requires Valid() && pc < |prog.insts| && Roots(instQueue) && Apart(instQueue)
      modifies this`cells, this`onePassRunes, this`m
      modifies visitQueue`size, visitQueue`nextIndex, visitQueue.sparse, visitQueue.dense
      ensures Valid() && Checked(prog, given, State(old(T()), []), Now(), [pc], ok)
      ensures Roots(instQueue) && instQueue.Elements() == old(instQueue.Elements())
    {
      visitQueue.Clear();
      ok := Check(pc);
    }

    method NextRoot(instQueue: QueueOnePass) returns (pc: nat, c: Cell)
      requires Valid() && Roots(instQueue) && Apart(instQueue) && instQueue.nextIndex < |instQueue.Elements()|
      requires InProg(prog, instQueue.Elements())
      modifies instQueue`nextIndex
      ensures Valid() && Roots(instQueue) && Now() == old(Now())
      ensures instQueue.nextIndex == old(instQueue.nextIndex) + 1 && instQueue.Elements() == old(instQueue.Elements())
      ensures pc == instQueue.Elements()[old(instQueue.nextIndex)] && pc < |prog.insts| && c == cells[pc]
    {
      pc := instQueue.Next();
      c := cells[pc];
    }

    /** A pass from the next root in the queue; c is its cell before. */
    method PassNext(instQueue: QueueOnePass) returns (ok: bool, pc: nat, c: Cell)
      requires Valid() && Roots(instQueue) && Apart(instQueue) && instQueue.nextIndex < |instQueue.Elements()|
      requires InProg(prog, instQueue.Elements())
      modifies this`cells, this`onePassRunes, this`m, instQueue`nextIndex
      modifies visitQueue`size, visitQueue`nextIndex, visitQueue.sparse, visitQueue.dense
      ensures Valid() && Roots(instQueue)
      ensures instQueue.nextIndex == old(instQueue.nextIndex) + 1 && instQueue.Elements() == old(instQueue.Elements())
      ensures pc == instQueue.Elements()[old(instQueue.nextIndex)] && pc < |prog.insts|
      ensures AltLegs(prog, MarksOf(prog, old(Now())), pc, c) &&
        Checked(prog, given, State(old(T()), []), Now(), [pc], ok)
    {
      pc, c := NextRoot(instQueue);
      CellLegs(prog, given, Now(), pc);
      ok := Pass(instQueue, pc);
    }

    /** Queues what empty transitions lead to from pc, whose cell was c before the pass. */
    method QueueMore(instQueue: QueueOnePass, pc: nat, c: Cell, ghost ms: Marks)
      requires Valid() && Roots(instQueue) && Apart(instQueue) && pc < |prog.insts| && AltLegs(prog, ms, pc, c)
      modifies instQueue`size, instQueue.sparse, instQueue.dense
      ensures Valid() && Roots(instQueue) && Now() == old(Now())
      ensures instQueue.Elements() == MoreRoots(prog, ms, old(instQueue.Elements()), pc)
    {
      assert InstOk(prog.insts[pc], |prog.insts|);
      if prog.insts[pc].Alt? {
        instQueue.Insert(c.out);
        instQueue.Insert(c.arg);
      } else if IsStraight(prog.insts[pc]) {
        instQueue.Insert(prog.insts[pc].out);
      }
    }

    /** Between the passes of the loop. */
    ghost predicate Running(instQueue: QueueOnePass, s: State, S: set<nat>)
      reads this, visitQueue, visitQueue.sparse, visitQueue.dense, instQueue, instQueue.sparse, instQueue.dense
    {
      && Valid() && Roots(instQueue) && Apart(instQueue)
      && Between(prog, given, Now(), s, instQueue.Elements(), instQueue.nextIndex, S)
    }

    /** The same between the passes of the loop. */
    method PassFrom(instQueue: QueueOnePass, ghost s: State, ghost S: set<nat>)
        returns (ok: bool, pc: nat, c: Cell, ghost s': State, ghost S': set<nat>)
      requires Running(instQueue, s, S) && instQueue.nextIndex < |instQueue.Elements()|
      modifies this`cells, this`onePassRunes, this`m, instQueue`nextIndex
      modifies visitQueue`size, visitQueue`nextIndex, visitQueue.sparse, visitQueue.dense
      ensures Valid() && Roots(instQueue) && s' == Now()
      ensures instQueue.nextIndex == old(instQueue.nextIndex) + 1 && instQueue.Elements() == old(instQueue.Elements())
      ensures pc == instQueue.Elements()[old(instQueue.nextIndex)] && pc < |prog.insts|
      ensures AltLegs(prog, MarksOf(prog, s), pc, c)
      ensures Passed(prog, given, s, s', instQueue.Elements(), old(instQueue.nextIndex), S', ok)
    {
      ghost var now, roots, i := Now(), instQueue.Elements(), instQueue.nextIndex;
      ok, pc, c := PassNext(instQueue);
      s' := Now();
      S' := AfterPass(prog, given, now, s, s', roots, i, S, ok);
    }

    /** The pass from the next root in the queue. */
    method NextPass(instQueue: QueueOnePass, ghost s: State, ghost S: set<nat>)
        returns (ok: bool, ghost s': State, ghost S': set<nat>)
      requires Running(instQueue, s, S) && instQueue.nextIndex < |instQueue.Elements()|
      modifies this`cells, this`onePassRunes, this`m
      modifies visitQueue`size, visitQueue`nextIndex, visitQueue.sparse, visitQueue.dense
      modifies instQueue`size, instQueue`nextIndex, instQueue.sparse, instQueue.dense
      ensures Valid() && prog.start < |prog.insts| && Rightly(prog, given, ok)
      ensures ok ==> Running(instQueue, s', S')
      ensures instQueue.nextIndex == old(instQueue.nextIndex) + 1
    {
      var pc, c;
      ok, pc, c, s', S' := PassFrom(instQueue, s, S);
      if ok {
        QueueMore(instQueue, pc, c, MarksOf(prog, s));
      }
    }

    /** makeOnePass: a pass from the start and from what empty transitions lead to from there. */
    method MakeOnePass() returns (ok: bool)
      requires Valid() && prog.start < |prog.insts| && T() == NewTables(prog) && LegsOk(prog, T())
      modifies this`cells, this`onePassRunes, this`m
      modifies visitQueue`size, visitQueue`nextIndex, visitQueue.sparse, visitQueue.dense
      ensures Valid() && (ok <==> |prog.insts| < MAX_ONE_PASS && AllPasses(prog, given).ok)
      ensures |prog.insts| < MAX_ONE_PASS && Unambiguous(prog, given) ==> ok
      ensures ok ==> LegsOk(prog, T()) && exists S :: Filled(prog, given, T(), S)
      ensures ok ==> MarksOf(prog, Now()) == AllPasses(prog, given)
    {
      if |prog.insts| >= MAX_ONE_PASS {
        return false;
      }
      var instQueue := FirstRoot();
      ghost var s, S: set<nat> := State(T(), []), {};
      UnderwayFirst(prog, given);
      ok := true;
      var done := instQueue.Empty();
      while !done
        invariant Running(instQueue, s, S)
        invariant fresh(instQueue) && fresh(instQueue.sparse) && fresh(instQueue.dense)
        invariant done <==> instQueue.nextIndex >= |instQueue.Elements()|
        decreases |prog.insts| - instQueue.nextIndex
      {
        ok, s, S := NextPass(instQueue, s, S);
        if !ok {
          return;
        }
        done := instQueue.Empty();
      }
      UnderwayLast(prog, given, s, instQueue.Elements(), instQueue.nextIndex);
    }
  }
}
