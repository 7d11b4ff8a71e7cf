/** A program whose tables are not settled when makeOnePass accepts it, so that the one-pass runner
    misses a match: the one of the expression ^z(?:a(?:bc*)*)*$ on the text "zab". A pass follows
    the instructions behind a rune while the alternatives in front of it are still being checked;
    what the innermost loop may begin with, or that it may match at the end, comes to it only with
    the third pass, and makeOnePass makes two. */
module OnePassStale {
  import opened Search
  import opened RegexpProg
  import opened MatchSpec
  import opened OnePass
  import opened OnePassTables
  import opened OnePassBuild
  import opened OnePassRun
  import opened Exec
  import C = OnePassCopy
  import D = OnePassDepth

  /** The instructions of ^z(?:a(?:bc*)*)*$ with some other rune in the place of 'c'. */
  function NestedInst(pc: nat, c: nat): Inst
    requires pc < 11
  {
    match pc
    case 0 => Fail
    case 1 => EmptyWidth(2, {BeginText})
    case 2 => Rune1(8, 122) // z
    case 3 => Rune1(7, 97) // a
    case 4 => Rune1(6, 98) // b
    case 5 => Rune1(6, c)
    case 6 => Alt(5, 7)
    case 7 => Alt(4, 8)
    case 8 => Alt(3, 9)
    case 9 => EmptyWidth(10, {EndText})
    case _ => Match
  }

  function Nested(c: nat): Prog { Prog(seq(11, i requires 0 <= i < 11 => NestedInst(i, c)), 1) }

  /** With 'c'. */
  const STALE := Nested(99)

  /** There is no InstRune, so no sets are given. */
  const NO_SETS: seq<seq<int>> := seq(11, i => [])

  const ZAB: Text := [122, 97, 98]

  lemma NestedInsts(c: nat)
    ensures |Nested(c).insts| == 11 && Nested(c).start == 1 && |NO_SETS| == 11
    ensures forall pc: nat :: pc < 11 ==> Nested(c).insts[pc] == NestedInst(pc, c) && NO_SETS[pc] == []
  {}

  lemma NestedIsProg(c: nat)
    ensures WellFormed(Nested(c)) && Targets(Nested(c)) && Given(Nested(c), NO_SETS) && Anchored(Nested(c))
  {
    NestedInsts(c);
    forall pc: nat | pc < 11 ensures InstOk(Nested(c).insts[pc], 11) {}
  }

  lemma NestedIsGuarded(c: nat)
    ensures Guarded(Nested(c))
  {
    NestedInsts(c);
    forall pc: nat | pc < 11 ensures GuardedAt(Nested(c), Nested(c).insts[pc]) { GuardedInst(pc, c); }
  }

  lemma GuardedInst(pc: nat, c: nat)
    requires pc < 11
    ensures GuardedAt(Nested(c), NestedInst(pc, c))
  {
    NestedInsts(c);
  }

  lemma NestedChains(c: nat)
    ensures ChainsEnd(Nested(c))
  {
    NestedInsts(c);
    var p := Nested(c);
    forall pc: nat | pc < 11 ensures ChainEnds(p, pc, 11) {
      if pc == 1 { assert ChainEnds(p, 2, 10); }
      if pc == 9 { assert ChainEnds(p, 10, 10); }
    }
  }

  /** onePassCopy has nothing to rewrite in it. */
  lemma NestedIsKept(c: nat)
    ensures C.Closed(Nested(c).insts) && C.RewrittenFrom(Nested(c).insts, 0) == Nested(c).insts
  {
    NestedInsts(c);
    NestedIsProg(c);
    forall pc: nat | pc < 11 ensures C.Rewritten(Nested(c).insts, pc) == Nested(c).insts { NotRewritten(pc, c); }
    NothingRewritten(Nested(c).insts, 0);
  }

  lemma NotRewritten(pc: nat, c: nat)
    requires pc < 11 && C.Closed(Nested(c).insts)
    ensures C.Rewritten(Nested(c).insts, pc) == Nested(c).insts
  {
    NestedInsts(c);
    if pc == 8 { assert C.AltLeg(Nested(c).insts, pc).None?; }
  }

  lemma {:induction false} NothingRewritten(a: seq<Inst>, pc: nat)
    requires pc <= |a| && C.Closed(a) && forall x: nat :: x < |a| ==> C.Rewritten(a, x) == a
    ensures C.RewrittenFrom(a, pc) == a
    decreases |a| - pc
  {
    if pc < |a| { NothingRewritten(a, pc + 1); }
  }

  // ------------------------------------------------------------- whether it is ambiguous

  lemma BeginsOne(c: nat, pc: nat, r: int)
    requires pc < 11 && NestedInst(pc, c).Rune1? && Begins(Nested(c), NO_SETS, pc, r)
    ensures r == NestedInst(pc, c).rune
  {
    NestedInsts(c);
    var n: nat :| BeginsIn(Nested(c), NO_SETS, pc, r, n);
    var k :| 0 <= k < 1 && InPair([NestedInst(pc, c).rune, NestedInst(pc, c).rune], k, r);
  }

  lemma BeginsAlt(c: nat, pc: nat, r: int)
    requires pc < 11 && NestedInst(pc, c).Alt?
    ensures var inst := NestedInst(pc, c);
      Begins(Nested(c), NO_SETS, pc, r) <==>
        Begins(Nested(c), NO_SETS, inst.out, r) || Begins(Nested(c), NO_SETS, inst.arg, r)
  {
    NestedInsts(c);
    var p, inst := Nested(c), NestedInst(pc, c);
    AheadOne(p, NO_SETS, pc, inst.out, r);
    AheadOne(p, NO_SETS, pc, inst.arg, r);
    if n: nat :| BeginsIn(p, NO_SETS, pc, r, n) {
      assert BeginsIn(p, NO_SETS, inst.out, r, n - 1) || BeginsIn(p, NO_SETS, inst.arg, r, n - 1);
    }
  }

  lemma ExitBeginsNothing(c: nat, r: int)
    ensures !Begins(Nested(c), NO_SETS, 9, r)
  {
    NestedInsts(c);
    forall n: nat ensures !BeginsIn(Nested(c), NO_SETS, 9, r, n) {
      if n > 0 { assert !BeginsIn(Nested(c), NO_SETS, 10, r, n - 1); }
    }
  }

  lemma RuneDoesNotEnd(c: nat, pc: nat)
    requires pc < 11 && NestedInst(pc, c).Rune1?
    ensures !Ends(Nested(c), pc)
  {
    NestedInsts(c);
  }

  lemma Begins8(c: nat, r: int)
    requires Begins(Nested(c), NO_SETS, 8, r)
    ensures r == 97
  {
    BeginsAlt(c, 8, r);
    ExitBeginsNothing(c, r);
    BeginsOne(c, 3, r);
  }

  lemma Begins7(c: nat, r: int)
    requires Begins(Nested(c), NO_SETS, 7, r)
    ensures r == 97 || r == 98
  {
    BeginsAlt(c, 7, r);
    if Begins(Nested(c), NO_SETS, 4, r) { BeginsOne(c, 4, r); } else { Begins8(c, r); }
  }

  lemma OtherRuneIsClear(c: nat)
    requires c != 97 && c != 98
    ensures Unambiguous(Nested(c), NO_SETS)
  {
    NestedInsts(c);
    var p := Nested(c);
    forall pc | 0 <= pc < 11 && p.insts[pc].Alt? ensures ClearAt(p, NO_SETS, pc) {
      RuneDoesNotEnd(c, p.insts[pc].out);
      forall r
        ensures !(Begins(p, NO_SETS, p.insts[pc].out, r) && Begins(p, NO_SETS, p.insts[pc].arg, r))
      {
        if Begins(p, NO_SETS, p.insts[pc].out, r) && Begins(p, NO_SETS, p.insts[pc].arg, r) {
          BeginsOne(c, p.insts[pc].out, r);
          if pc == 8 { ExitBeginsNothing(c, r); } else if pc == 7 { Begins8(c, r); } else { Begins7(c, r); }
        }
      }
    }
  }

  /** With 'a' in the innermost loop that loop and what follows it begin alike. */
  lemma SameRuneIsNot()
    ensures !Unambiguous(Nested(97), NO_SETS)
  {
    NestedInsts(97);
    var p := Nested(97);
    assert InPair([97, 97], 0, 97);
    assert BeginsIn(p, NO_SETS, 3, 97, 1) && BeginsIn(p, NO_SETS, 5, 97, 1);
    BeginsAlt(97, 8, 97);
    BeginsAlt(97, 7, 97);
    assert !ClearAt(p, NO_SETS, 6);
  }

  // ------------------------------------------------------------------- what two passes leave

  function One(r: nat): iset<int> { iset{r as int} }

  lemma OneRune(r: nat)
    ensures SetOf([r, r]) == One(r)
  {
    forall x ensures x in SetOf([r, r]) <==> x == r {
      if x == r { assert InPair([r, r], 0, x); }
    }
  }

  lemma ThroughRune(c: nat, s: Marks, pc: nat, s1: Marks)
    requires Targets(Nested(c)) && pc < 11 && pc !in s.seen && NestedInst(pc, c).Rune1? && |s.first| == 11
    requires Visit(Nested(c), NO_SETS, s.(seen := s.seen + {pc}), NestedInst(pc, c).out) == s1
    ensures Visit(Nested(c), NO_SETS, s, pc) ==
      s1.(m := s1.m - {pc}, first := s1.first[pc := One(NestedInst(pc, c).rune)])
  {
    NestedInsts(c);
    OneRune(NestedInst(pc, c).rune);
  }

  lemma ThroughEmpty(c: nat, s: Marks, pc: nat, s1: Marks)
    requires Targets(Nested(c)) && pc < 11 && pc !in s.seen && NestedInst(pc, c).EmptyWidth? && |s.first| == 11
    requires Visit(Nested(c), NO_SETS, s.(seen := s.seen + {pc}), NestedInst(pc, c).out) == s1
    ensures var out := NestedInst(pc, c).out;
      Visit(Nested(c), NO_SETS, s, pc) ==
        s1.(m := if out in s1.m then s1.m + {pc} else s1.m - {pc}, first := s1.first[pc := s1.first[out]])
  {
    NestedInsts(c);
  }

  lemma ThroughAlt(c: nat, s: Marks, pc: nat, s1: Marks, s2: Marks)
    requires Targets(Nested(c)) && pc < 11 && pc !in s.seen && NestedInst(pc, c).Alt? && |s.first| == 11
    requires Visit(Nested(c), NO_SETS, s.(seen := s.seen + {pc}), FirstLeg(Nested(c), s, pc)) == s1
    requires SecondLeg(Nested(c), s, pc) < 11 && Visit(Nested(c), NO_SETS, s1, SecondLeg(Nested(c), s, pc)) == s2
    requires s2.ok && NestedInst(pc, c).out !in s2.m
    requires s2.first[NestedInst(pc, c).out] !! s2.first[NestedInst(pc, c).arg]
    ensures Visit(Nested(c), NO_SETS, s, pc) == Mark(Nested(c), s2, pc).(
      first := s2.first[pc := s2.first[NestedInst(pc, c).out] + s2.first[NestedInst(pc, c).arg]])
  {
    NestedInsts(c);
  }

  function InnerSets(c: nat, first: seq<iset<int>>): seq<iset<int>>
    requires |first| == 11
  {
    first[5 := One(c)][6 := One(c) + first[7]][4 := One(98)]
  }

  /** From the innermost loop on, while the loops around it are being checked. */
  lemma InnerLoop(c: nat, s: Marks)
    requires Targets(Nested(c)) && {7, 8} <= s.seen && s.seen !! {4, 5, 6} && s.m !! {4, 5, 6, 7} && s.exchanged !! {6}
    requires s.ok && |s.first| == 11 && c !in s.first[7]
    ensures Visit(Nested(c), NO_SETS, s, 4) == s.(seen := s.seen + {4, 5, 6}, first := InnerSets(c, s.first))
  {
    NestedInsts(c);
    var s4 := s.(seen := s.seen + {4});
    var s6 := s4.(seen := s4.seen + {6});
    var s5 := s6.(seen := s6.seen + {5});
    var t5 := s5.(first := s.first[5 := One(c)]);
    assert Visit(Nested(c), NO_SETS, s5, 6) == s5 && Visit(Nested(c), NO_SETS, t5, 7) == t5;
    ThroughRune(c, s6, 5, s5);
    assert s5.m - {5} == s5.m;
    ThroughAlt(c, s4, 6, t5, t5);
    var t6 := t5.(first := t5.first[6 := One(c) + s.first[7]]);
    ThroughRune(c, s, 4, t6);
    assert t6.m - {4} == t6.m && s5.seen == s.seen + {4, 5, 6};
  }

  function MiddleSets(c: nat, first: seq<iset<int>>): seq<iset<int>>
    requires |first| == 11
  {
    InnerSets(c, first)[7 := One(98) + first[8]]
  }

  /** The alternative behind 'a', after which the outermost loop follows. */
  lemma MiddleLoop(c: nat, s: Marks)
    requires Targets(Nested(c)) && 8 in s.seen && s.seen !! {4, 5, 6, 7} && s.m !! {4, 5, 6, 7} && s.exchanged !! {6, 7}
    requires s.ok && |s.first| == 11 && c !in s.first[7] && 98 !in s.first[8]
    ensures Visit(Nested(c), NO_SETS, s, 7) == Marks(if 8 in s.m then s.m + {7} else s.m,
      if 8 in s.m then s.exchanged + {7} else s.exchanged, s.seen + {4, 5, 6, 7}, MiddleSets(c, s.first), true)
  {
    NestedInsts(c);
    var s7 := s.(seen := s.seen + {7});
    InnerLoop(c, s7);
    var s4 := s.(seen := s.seen + {4, 5, 6, 7}, first := InnerSets(c, s.first));
    assert s7.seen + {4, 5, 6} == s4.seen;
    assert Visit(Nested(c), NO_SETS, s4, 8) == s4;
    ThroughAlt(c, s, 7, s4, s4);
  }

  /** The end of the text. */
  lemma Exit(c: nat, s: Marks)
    requires Targets(Nested(c)) && s.seen !! {9, 10} && |s.first| == 11 && s.ok
    ensures Visit(Nested(c), NO_SETS, s, 9) ==
      Marks(s.m + {9, 10}, s.exchanged, s.seen + {9, 10}, s.first[9 := s.first[10]], true)
  {
    NestedInsts(c);
    var s9 := s.(seen := s.seen + {9});
    var s10 := s9.(m := s.m + {10}, seen := s.seen + {9, 10});
    assert s9.seen + {10} == s10.seen && s9.first[10 := s9.first[10]] == s9.first;
    assert Visit(Nested(c), NO_SETS, s9, 10) == Marked(Nested(c), NO_SETS, s9.(seen := s9.seen + {10}), 10) == s10;
    ThroughEmpty(c, s, 9, s10);
    assert s10.m + {9} == s.m + {9, 10};
  }

  /** The sets after the check of the outermost loop. */
  function OuterSets(c: nat, first: seq<iset<int>>): seq<iset<int>>
    requires |first| == 11
  {
    MiddleSets(c, first)[3 := One(97)][8 := One(97)]
  }

  ghost function FirstMarks(c: nat): Marks {
    Marks({8, 9, 10}, {8}, {1, 2, 3, 4, 5, 6, 7, 8, 9, 10},
      OuterSets(c, NoMarks(Nested(c)).first)[2 := One(122)][1 := One(122)], true)
  }

  ghost function SecondMarks(c: nat): Marks {
    Marks({7, 8, 9, 10}, {7, 8}, {2, 3, 4, 5, 6, 7, 8, 9, 10},
      OuterSets(c, FirstMarks(c).first)[2 := One(122)], true)
  }

  lemma MiddleAt(c: nat, first: seq<iset<int>>)
    requires |first| == 11
    ensures var r := MiddleSets(c, first)[3 := One(97)];
      |r| == 11 && r[3] == One(97) && r[7] == One(98) + first[8] && r[9] == first[9] && r[10] == first[10]
  {}

  lemma FirstAt(c: nat)
    ensures var r := FirstMarks(c).first;
      |r| == 11 && r[7] == One(98) && r[8] == One(97) && r[9] == iset{} && r[10] == iset{}
  {
    var first := NoMarks(Nested(c)).first;
    assert |first| == 11 && first[8] == first[9] == first[10] == iset{};
    MiddleAt(c, first);
    assert One(98) + iset{} == One(98);
  }

  /** Behind the outermost loop. */
  lemma Body(c: nat, s: Marks)
    requires Targets(Nested(c)) && 8 in s.seen && s.seen !! {3, 4, 5, 6, 7} && s.m !! {3, 4, 5, 6, 7}
    requires s.exchanged !! {6, 7} && s.ok && |s.first| == 11 && c !in s.first[7] && 98 !in s.first[8]
    ensures Visit(Nested(c), NO_SETS, s, 3) == Marks(if 8 in s.m then s.m + {7} else s.m,
      if 8 in s.m then s.exchanged + {7} else s.exchanged, s.seen + {3, 4, 5, 6, 7},
      MiddleSets(c, s.first)[3 := One(97)], true)
  {
    NestedInsts(c);
    var s3 := s.(seen := s.seen + {3});
    MiddleLoop(c, s3);
    var s7 := Visit(Nested(c), NO_SETS, s3, 7);
    ThroughRune(c, s, 3, s7);
    assert s3.seen + {4, 5, 6, 7} == s.seen + {3, 4, 5, 6, 7} && s7.m - {3} == s7.m;
  }

  /** The outermost loop, once what follows it has been checked. */
  lemma ThroughOuter(c: nat, s: Marks, s1: Marks, s2: Marks)
    requires Targets(Nested(c)) && 8 !in s.seen && |s.first| == 11 && s2.ok && |s2.first| == 11
    requires |Nested(c).insts| == 11
    requires Visit(Nested(c), NO_SETS, s.(seen := s.seen + {8}), if 8 in s.exchanged then 9 else 3) == s1
    requires Visit(Nested(c), NO_SETS, s1, if 8 in s.exchanged then 3 else 9) == s2
    requires s2.first[3] == One(97) && s2.first[9] == iset{} && 3 !in s2.m && 9 in s2.m
    ensures Visit(Nested(c), NO_SETS, s, 8) == Marks(s2.m + {8}, s2.exchanged + {8}, s2.seen,
      s2.first[8 := One(97)], true)
  {
    NestedInsts(c);
    assert s2.first[3] + s2.first[9] == One(97);
    ThroughAlt(c, s, 8, s1, s2);
    OuterMark(c, s2);
  }

  lemma OuterMark(c: nat, s: Marks)
    requires |s.first| == 11 && 3 !in s.m && 9 in s.m
    ensures Mark(Nested(c), s, 8) == s.(m := s.m + {8}, exchanged := s.exchanged + {8})
  {
    NestedInsts(c);
    if 8 in s.exchanged { assert s.exchanged + {8} == s.exchanged; }
  }

  /** The outermost loop in the first pass: what follows 'a' is checked before the exit. */
  lemma OuterLoopFirst(c: nat, s: Marks)
    requires Targets(Nested(c)) && s == NoMarks(Nested(c)).(seen := {1, 2})
    ensures Visit(Nested(c), NO_SETS, s, 8) == FirstMarks(c).(first := OuterSets(c, NoMarks(Nested(c)).first))
  {
    NestedInsts(c);
    MiddleAt(c, s.first);
    var s8 := s.(seen := {1, 2, 8});
    assert s.seen + {8} == s8.seen;
    Body(c, s8);
    var s3 := Marks({}, {}, {1, 2, 3, 4, 5, 6, 7, 8}, MiddleSets(c, s.first)[3 := One(97)], true);
    assert s8.seen + {3, 4, 5, 6, 7} == s3.seen;
    var s9 := s3.(m := {9, 10}, seen := FirstMarks(c).seen);
    ExitFirst(c, s3, s9);
    ThroughOuter(c, s, s3, s9);
    assert s9.m + {8} == FirstMarks(c).m && {} + {8} == FirstMarks(c).exchanged;
  }

  lemma ExitFirst(c: nat, s: Marks, r: Marks)
    requires Targets(Nested(c)) && s.ok && |s.first| == 11 && s.first[9] == s.first[10] && s.seen !! {9, 10}
    requires r == s.(m := r.m, seen := r.seen) && r.m == s.m + {9, 10} && r.seen == s.seen + {9, 10}
    ensures Visit(Nested(c), NO_SETS, s, 9) == r
  {
    Exit(c, s);
    assert s.first[9 := s.first[10]] == s.first;
  }

  lemma FirstPass(c: nat)
    requires Targets(Nested(c))
    ensures Visit(Nested(c), NO_SETS, NoMarks(Nested(c)), 1) == FirstMarks(c)
  {
    NestedInsts(c);
    var s0 := NoMarks(Nested(c));
    var s1, s2 := s0.(seen := {1}), s0.(seen := {1, 2});
    assert s1.seen + {2} == s2.seen && s0.seen + {1} == s1.seen;
    OuterLoopFirst(c, s2);
    var r := FirstMarks(c).(first := OuterSets(c, s0.first));
    ThroughRune(c, s1, 2, r);
    assert r.m - {2} == r.m;
    var r2 := r.(first := r.first[2 := One(122)]);
    ThroughEmpty(c, s0, 1, r2);
    assert r2.m - {1} == r2.m;
  }

  /** In the second pass the exit comes first, and the loop around the middle one is marked. */
  lemma OuterLoopSecond(c: nat, s: Marks)
    requires Targets(Nested(c)) && s == FirstMarks(c).(seen := {2}) && c != 98
    ensures Visit(Nested(c), NO_SETS, s, 8) == SecondMarks(c).(first := OuterSets(c, s.first))
  {
    NestedInsts(c);
    FirstAt(c);
    MiddleAt(c, s.first);
    var s8 := s.(seen := {2, 8});
    var s9 := s.(seen := {2, 8, 9, 10});
    assert s.seen + {8} == s8.seen;
    ExitFirst(c, s8, s9);
    Body(c, s9);
    var s3 := SecondMarks(c).(first := MiddleSets(c, s.first)[3 := One(97)]);
    assert s9.seen + {3, 4, 5, 6, 7} == s3.seen && s9.m + {7} == s3.m && s9.exchanged + {7} == s3.exchanged;
    ThroughOuter(c, s, s9, s3);
    assert s3.m + {8} == s3.m && s3.exchanged + {8} == s3.exchanged;
  }

  lemma SecondPass(c: nat)
    requires Targets(Nested(c)) && c != 98
    ensures Visit(Nested(c), NO_SETS, FirstMarks(c).(seen := {}), 2) == SecondMarks(c)
  {
    NestedInsts(c);
    var s := FirstMarks(c).(seen := {});
    assert s.seen + {2} == {2};
    OuterLoopSecond(c, s.(seen := {2}));
    var r := SecondMarks(c).(first := OuterSets(c, s.first));
    ThroughRune(c, s, 2, r);
    assert r.m - {2} == r.m;
  }

  lemma TwoPasses(c: nat)
    requires Targets(Nested(c)) && c != 98
    ensures AllPasses(Nested(c), NO_SETS) == SecondMarks(c)
  {
    NestedInsts(c);
    FirstPass(c);
    SecondPass(c);
    var p, s := Nested(c), NoMarks(Nested(c));
    assert s.(seen := {}) == s;
    assert MoreRoots(p, s, [1], 1) == [1, 2];
    assert MoreRoots(p, FirstMarks(c), [1, 2], 2) == [1, 2];
    assert Passes(p, NO_SETS, SecondMarks(c), [1, 2], 2) == SecondMarks(c);
    assert Passes(p, NO_SETS, FirstMarks(c), [1, 2], 1) == SecondMarks(c);
  }

  // ------------------------------------------------------------------- how deep its loops are

  /** Passes are made from the two instructions in front of the loops. */
  const HEADS: seq<nat> := [1, 2]

  const ORDER := D.Order([0, 11, 10, 8, 6, 4, 5, 7, 9, 3, 2], [0, 0, 0, 0, 0, 0, 2, 1, 0, 0, 0])

  /** The instructions that come before pc, the first one of a loop, or follow that loop. */
  function Around(pc: nat): set<nat> {
    match pc
    case 8 => {1, 2}
    case 7 => {1, 2, 3, 8, 9, 10}
    case _ => {1, 2, 3, 4, 7, 8, 9, 10}
  }

  lemma LoopIsEntered(c: nat, pc: nat, x: nat)
    requires 6 <= pc <= 8 && x == pc - 1
    ensures D.EveryWay(Nested(c), 1, pc, x)
  {
    NestedInsts(c);
    forall u: nat, v: nat | u in Around(pc) && Follows(Nested(c), u, v) ensures v in Around(pc) || v == pc {}
    D.WaysOut(Nested(c), 1, pc, x, Around(pc));
  }

  /** The innermost loop is left for the middle one and that for the outermost, without a rune:
      one loop more than there are passes to carry it. */
  lemma OneTooDeep()
    ensures D.Layered(STALE, ORDER, 1) && D.Opening(STALE, ORDER, HEADS)
    ensures forall x: nat :: D.DepthOf(ORDER, x) <= |HEADS|
  {
    NestedInsts(99);
    forall x: nat, y: nat | Follows(STALE, x, y) ensures D.LayeredAt(STALE, ORDER, 1, x, y) {
      if 5 <= x <= 7 && y == x + 1 { LoopIsEntered(99, y, x); }
    }
    assert forall x: nat :: !Follows(STALE, x, 1);
  }

  // ------------------------------------------------------------------------ the text matches

  /** p is the program above and text is "zab"; the proofs below need not look at the constants. */
  ghost predicate IsStale(p: Prog, text: Text) {
    && |p.insts| == 11 && p.start == 1 && (forall pc: nat :: pc < 11 ==> p.insts[pc] == NestedInst(pc, 99))
    && |text| == 3 && text[0] == 122 && text[1] == 97 && text[2] == 98
  }

  /** The run that matches: after "zab" all three loops are left, one after the other. */
  function ZabAt(i: nat): Config
    requires i < 11
  {
    match i
    case 0 => Config(1, 0)
    case 1 => Config(2, 0)
    case 2 => Config(8, 1)
    case 3 => Config(3, 1)
    case 4 => Config(7, 2)
    case 5 => Config(4, 2)
    case 6 => Config(6, 3)
    case 7 => Config(7, 3)
    case 8 => Config(8, 3)
    case 9 => Config(9, 3)
    case _ => Config(10, 3)
  }

  lemma ZabStep(p: Prog, text: Text, i: nat)
    requires IsStale(p, text) && i < 10
    ensures InRange(p, text, ZabAt(i)) && ZabAt(i + 1) in Successors(p, text, ZabAt(i))
  {
    var next := Successors(p, text, ZabAt(i));
    var k := if 6 <= i <= 8 then 1 else 0;
    assert next[k] == ZabAt(i + 1);
  }

  /** A sequence of configurations, each following the one before. */
  ghost predicate Steps(p: Prog, text: Text, q: seq<Config>) {
    && (forall i :: 0 <= i < |q| ==> InRange(p, text, q[i]))
    && forall i :: 0 <= i < |q| - 1 ==> q[i + 1] in Successors(p, text, q[i])
  }

  lemma {:induction false} StepsMakePath(p: Prog, text: Text, q: seq<Config>)
    requires Steps(p, text, q)
    ensures IsPath(Runs(p, text), q)
    decreases |q|
  {
    RunsDomain(p, text);
    if q != [] {
      if |q| > 1 { assert q[0 + 1] in Successors(p, text, q[0]); }
      forall i | 0 <= i < |q[1..]| - 1 ensures q[1..][i + 1] in Successors(p, text, q[1..][i]) {
        assert q[(i + 1) + 1] in Successors(p, text, q[i + 1]);
      }
      StepsMakePath(p, text, q[1..]);
    }
  }

  lemma StepsAnswer(p: Prog, text: Text, q: seq<Config>)
    requires WellFormed(p) && q != [] && Steps(p, text, q) && q[0] == Config(p.start, 0) && IsMatch(p, q[|q| - 1])
    ensures Answer(p, text, false, 2, 0).Some?
  {
    RunsDomain(p, text);
    StepsMakePath(p, text, q);
    assert Accepting(p, text, 0, q);
    AnswerWanted(p, text, false, 2, 0);
  }

  lemma ZabSteps(p: Prog, text: Text) returns (q: seq<Config>)
    requires IsStale(p, text)
    ensures |q| == 11 && Steps(p, text, q) && q[0] == Config(1, 0) && q[10] == Config(10, 3)
  {
    q := seq(11, i requires 0 <= i < 11 => ZabAt(i));
    forall i | 0 <= i < 10 ensures InRange(p, text, q[i]) && q[i + 1] in Successors(p, text, q[i]) {
      ZabStep(p, text, i);
    }
  }

  lemma ZabMatches(p: Prog, text: Text)
    requires IsStale(p, text) && WellFormed(p)
    ensures Answer(p, text, false, 2, 0).Some?
  {
    var q := ZabSteps(p, text);
    StepsAnswer(p, text, q);
  }

  // ------------------------------------------------------------------- the runner misses it

  /** The runner goes from c to an end without a match. */
  ghost predicate Fails(p: Prog, given: seq<seq<int>>, t: Tables, text: Text, c: Config)
    requires Runnable(p, given, t)
  {
    InRange(p, text, c) && exists n: nat :: FailsIn(p, given, t, text, c, n)
  }

  ghost predicate FailsIn(p: Prog, given: seq<seq<int>>, t: Tables, text: Text, c: Config, n: nat)
    requires Runnable(p, given, t) && InRange(p, text, c)
  {
    HaltsIn(p, given, t, text, c, n) && !Finds(p, given, t, text, c, n)
  }

  lemma Stopped(p: Prog, given: seq<seq<int>>, t: Tables, text: Text, c: Config)
    requires Runnable(p, given, t) && InRange(p, text, c)
    requires TurnAt(p, given, t, text, c) == Stop(false) && !IsMatch(p, c)
    ensures Fails(p, given, t, text, c)
  {
    assert FailsIn(p, given, t, text, c, 1);
  }

  lemma Passed(p: Prog, given: seq<seq<int>>, t: Tables, text: Text, c: Config, d: Config)
    requires Runnable(p, given, t) && InRange(p, text, c) && Fails(p, given, t, text, d)
    requires TurnAt(p, given, t, text, c) == Go(d)
    ensures Fails(p, given, t, text, c)
  {
    var n: nat :| FailsIn(p, given, t, text, d, n);
    var q := Trace(p, given, t, text, d, n);
    assert HaltsIn(p, given, t, text, c, n + 1) && Trace(p, given, t, text, c, n + 1) == [c] + q;
    assert ([c] + q)[|q|] == q[|q| - 1];
    assert FailsIn(p, given, t, text, c, n + 1);
  }

  lemma Failed(p: Prog, given: seq<seq<int>>, t: Tables, text: Text, pos: nat)
    requires Runnable(p, given, t) && pos <= |text|
    ensures Fails(p, given, t, text, Config(0, pos))
  {
    Stopped(p, given, t, text, Config(0, pos));
  }

  /** An alternative leads to one of its legs or to InstFail. */
  lemma Parted(p: Prog, given: seq<seq<int>>, t: Tables, text: Text, c: Config, out: nat, arg: nat)
    requires Runnable(p, given, t) && InRange(p, text, c) && p.insts[c.pc] == Alt(out, arg)
    requires Fails(p, given, t, text, Config(out, c.pos)) && Fails(p, given, t, text, Config(arg, c.pos))
    ensures Fails(p, given, t, text, c)
  {
    Failed(p, given, t, text, c.pos);
    LegInRange(p, given, t, c.pc, StepRune(text, c.pos));
    Passed(p, given, t, text, c, TurnAt(p, given, t, text, c).c);
  }

  lemma NoExit(p: Prog, given: seq<seq<int>>, t: Tables, text: Text, pos: nat)
    requires IsStale(p, text) && Runnable(p, given, t) && pos < 3
    ensures Fails(p, given, t, text, Config(9, pos))
  {
    if EndText in Context(text, pos) { AtTextEnd(text, pos); }
    Stopped(p, given, t, text, Config(9, pos));
  }

  /** At the end of the text the innermost loop leads to InstFail, as it is not marked. */
  lemma InnerLoopFails(p: Prog, given: seq<seq<int>>, t: Tables, text: Text)
    requires IsStale(p, text) && Runnable(p, given, t) && !Yes(t.m, 6)
    ensures Fails(p, given, t, text, Config(6, 3))
  {
    assert ShapedAt(p, given, t, 6) && LegsAt(p, t, 6);
    NotCovered(t.runes[6]);
    Failed(p, given, t, text, 3);
    Passed(p, given, t, text, Config(6, 3), Config(0, 3));
  }

  /** Behind "za". */
  lemma BehindA(p: Prog, given: seq<seq<int>>, t: Tables, text: Text)
    requires IsStale(p, text) && Runnable(p, given, t) && !Yes(t.m, 6)
    ensures Fails(p, given, t, text, Config(7, 2))
  {
    InnerLoopFails(p, given, t, text);
    Passed(p, given, t, text, Config(4, 2), Config(6, 3));
    Stopped(p, given, t, text, Config(3, 2));
    NoExit(p, given, t, text, 2);
    Parted(p, given, t, text, Config(8, 2), 3, 9);
    Parted(p, given, t, text, Config(7, 2), 4, 8);
  }

  lemma RunnerMisses(p: Prog, given: seq<seq<int>>, t: Tables, text: Text) returns (n: nat)
    requires IsStale(p, text) && Runnable(p, given, t) && !Yes(t.m, 6)
    ensures InRange(p, text, Config(1, 0)) && FailsIn(p, given, t, text, Config(1, 0), n)
  {
    BehindA(p, given, t, text);
    Passed(p, given, t, text, Config(3, 1), Config(7, 2));
    NoExit(p, given, t, text, 1);
    Parted(p, given, t, text, Config(8, 1), 3, 9);
    Passed(p, given, t, text, Config(2, 0), Config(8, 1));
    Passed(p, given, t, text, Config(1, 0), Config(2, 0));
    n :| FailsIn(p, given, t, text, Config(1, 0), n);
  }

  method StaleRun(p: Prog, ghost given: seq<seq<int>>, t: Tables, text: Text) returns (matched: bool)
    requires IsStale(p, text) && Runnable(p, given, t) && Anchored(p) && !Yes(t.m, 6)
    ensures !matched
  {
    ghost var n := RunnerMisses(p, given, t, text);
    var matchcap := new int[2];
    matched := RunOnePass(p, given, t, text, 0, Some({BeginText}), matchcap, n);
  }

  /** makeOnePass accepts such a program but leaves instruction 6 unmarked. */
  method StaleBuild(p: Prog, given: seq<seq<int>>) returns (accepted: bool, t: Tables)
    requires WellFormed(p) && Targets(p) && Given(p, given) && |p.insts| == 11
    requires Unambiguous(p, given) && 6 !in AllPasses(p, given).m
    ensures accepted && Runnable(p, given, t) && !Yes(t.m, 6)
  {
    var b := new Builder(p, given);
    accepted := b.MakeOnePass();
    t := Tables(b.cells, b.onePassRunes, b.m);
    assert t == b.T() && 6 !in MarksOf(p, b.Now()).m;
  }

  /** What compileOnePass asks for before the check, and what the proofs above rest on. */
  ghost predicate PutTogether(p: Prog, given: seq<seq<int>>, text: Text) {
    && WellFormed(p) && Targets(p) && Given(p, given) && IsStale(p, text)
    && Anchored(p) && Guarded(p) && ChainsEnd(p) && C.Closed(p.insts) && C.RewrittenFrom(p.insts, 0) == p.insts
  }

  lemma StaleIs()
    ensures PutTogether(STALE, NO_SETS, ZAB)
  {
    NestedInsts(99);
    NestedIsProg(99);
    NestedIsGuarded(99);
    NestedChains(99);
    NestedIsKept(99);
  }

  method StaleMisses(p: Prog, given: seq<seq<int>>, text: Text) returns (accepted: bool, matched: bool)
    requires PutTogether(p, given, text) && Unambiguous(p, given) && 6 !in AllPasses(p, given).m
    ensures accepted && !matched && Answer(p, text, false, 2, 0).Some?
  {
    ZabMatches(p, text);
    var t;
    accepted, t := StaleBuild(p, given);
    matched := StaleRun(p, given, t, text);
  }

  /** The program is accepted for one pass, the text matches it, and the runner says that it does not. */
  method StaleTables() returns (accepted: bool, matched: bool)
    ensures PutTogether(STALE, NO_SETS, ZAB)
    ensures accepted && !matched && Answer(STALE, ZAB, false, 2, 0).Some?
  {
    StaleIs();
    OtherRuneIsClear(99);
    TwoPasses(99);
    accepted, matched := StaleMisses(STALE, NO_SETS, ZAB);
  }

  /** With 'a' in the innermost loop the program is accepted although it is ambiguous. */
  method AmbiguousAccepted() returns (accepted: bool)
    ensures Guarded(Nested(97)) && Anchored(Nested(97)) && !Unambiguous(Nested(97), NO_SETS)
    ensures accepted
  {
    NestedInsts(97);
    NestedIsProg(97);
    NestedIsGuarded(97);
    SameRuneIsNot();
    TwoPasses(97);
    var b := new Builder(Nested(97), NO_SETS);
    accepted := b.MakeOnePass();
  }
}
