/** When the passes of makeOnePass are enough (src/regexp/onepass.go:297-491). A pass completes the
    entry of an instruction before that of the loops it leads back to, so each pass carries what a
    loop may begin with one loop further in. A program begins with a number of instructions that
    consume nothing, and a pass is made from each of them and from the one behind them: if no way
    without a rune leaves more loops than that, the tables are directed. */
module OnePassDepth {
  import opened Search
  import opened RegexpProg
  import opened MatchSpec
  import opened OnePass
  import opened OnePassTables
  import opened OnePassBuild
  import opened OnePassRun
  import opened OnePassExec
  import opened OnePassExact
  import opened Exec
  import C = OnePassCopy

  // ------------------------------------------------------------------------ ways and loops

  /** A sequence of instructions, each of which may follow the one before. */
  ghost predicate Way(p: Prog, x: nat, y: nat, q: seq<nat>) {
    && q != [] && q[0] == x && q[|q| - 1] == y
    && forall i :: 0 <= i < |q| - 1 ==> Follows(p, q[i], q[i + 1])
  }

  ghost predicate Reaches(p: Prog, x: nat, y: nat) { exists q :: Way(p, x, y, q) }

  /** Every way from x to z passes y. */
  ghost predicate EveryWay(p: Prog, x: nat, y: nat, z: nat) { forall q :: Way(p, x, z, q) ==> y in q }

  /** rank falls along the program but where a loop returns to its first instruction; depth is how
      many loops a way without a rune may return in. */
  datatype Order = Order(rank: seq<nat>, depth: seq<nat>)

  predicate Forward(o: Order, x: nat, y: nat) { x < |o.rank| && y < |o.rank| && o.rank[y] < o.rank[x] }

  function DepthOf(o: Order, x: nat): nat { if x < |o.depth| then o.depth[x] else 0 }

  /** From root, loops are entered only where they return to. */
  ghost predicate Layered(p: Prog, o: Order, root: nat) {
    && |o.rank| == |o.depth| == |p.insts|
    && forall x: nat, y: nat :: Follows(p, x, y) ==> LayeredAt(p, o, root, x, y)
  }

  ghost predicate LayeredAt(p: Prog, o: Order, root: nat, x: nat, y: nat)
    requires x < |p.insts|
  {
    && (Forward(o, x, y) || EveryWay(p, root, y, x))
    && (!IsRune(p.insts[x]) ==> DepthOf(o, y) + (if Forward(o, x, y) then 0 else 1) <= DepthOf(o, x))
  }

  /** The program begins with hs, of which all but the last consume nothing, and no loop returns to those. */
  ghost predicate Opening(p: Prog, o: Order, hs: seq<nat>) {
    && 0 < |hs| <= |p.insts| && hs[0] == p.start && InProg(p, hs)
    && (forall i :: 0 <= i < |hs| - 1 ==> IsStraight(p.insts[hs[i]]) && p.insts[hs[i]].out == hs[i + 1])
    && forall i, x: nat :: 0 <= i < |hs| - 1 && Follows(p, x, hs[i]) ==> Forward(o, x, hs[i])
  }

  /** Behind the opening no way without a rune returns in as many loops as the opening is long. */
  ghost predicate Shallow(p: Prog, o: Order, hs: seq<nat>) {
    && Layered(p, o, p.start) && Opening(p, o, hs)
    && forall x: nat :: Reaches(p, hs[|hs| - 1], x) ==> DepthOf(o, x) < |hs|
  }

  lemma WayExtends(p: Prog, x: nat, y: nat, z: nat, q: seq<nat>)
    requires Way(p, x, y, q) && Follows(p, y, z)
    ensures Way(p, x, z, q + [z])
  {
    var r := q + [z];
    forall i | 0 <= i < |r| - 1 ensures Follows(p, r[i], r[i + 1]) {
      if i < |q| - 1 { assert Follows(p, q[i], q[i + 1]); }
    }
  }

  lemma WayJoins(p: Prog, x: nat, y: nat, z: nat, q: seq<nat>, r: seq<nat>)
    requires Way(p, x, y, q) && Way(p, y, z, r)
    ensures Way(p, x, z, q[..|q| - 1] + r)
  {
    var w := q[..|q| - 1] + r;
    forall i | 0 <= i < |w| - 1 ensures Follows(p, w[i], w[i + 1]) {
      if i < |q| - 1 {
        assert Follows(p, q[i], q[i + 1]);
      } else {
        assert Follows(p, r[i - (|q| - 1)], r[i - (|q| - 1) + 1]);
      }
    }
  }

  lemma ReachesItself(p: Prog, x: nat)
    ensures Reaches(p, x, x)
  {
    assert Way(p, x, x, [x]);
  }

  lemma ReachesNext(p: Prog, x: nat, y: nat, z: nat)
    requires Reaches(p, x, y) && Follows(p, y, z)
    ensures Reaches(p, x, z)
  {
    var q :| Way(p, x, y, q);
    WayExtends(p, x, y, z, q);
  }

  /** A is left only for y. */
  ghost predicate LeftFor(p: Prog, A: set<nat>, y: nat) {
    forall u: nat, v: nat :: u in A && Follows(p, u, v) ==> v in A || v == y
  }

  lemma {:induction false} Stays(p: Prog, x: nat, y: nat, z: nat, A: set<nat>, q: seq<nat>, i: nat)
    requires x in A && LeftFor(p, A, y) && Way(p, x, z, q) && i < |q| && y !in q
    ensures q[i] in A
  {
    if i > 0 {
      Stays(p, x, y, z, A, q, i - 1);
      assert Follows(p, q[i - 1], q[i - 1 + 1]);
    }
  }

  /** So every way out of A passes y. */
  lemma WaysOut(p: Prog, x: nat, y: nat, z: nat, A: set<nat>)
    requires x in A && LeftFor(p, A, y) && z !in A
    ensures EveryWay(p, x, y, z)
  {
    forall q | Way(p, x, z, q) ensures y in q {
      if y !in q { Stays(p, x, y, z, A, q, |q| - 1); }
    }
  }

  // ------------------------------------------------------------------------------- one pass

  /** The entry of x says all that is true. */
  ghost predicate ExactAt(p: Prog, given: seq<seq<int>>, s: Marks, x: nat) {
    (forall r :: Begins(p, given, x, r) ==> r in First(s, x)) && (Ends(p, x) ==> x in s.m)
  }

  /** So do the entries of what root leads to, up to depth n. */
  ghost predicate ExactBelow(p: Prog, given: seq<seq<int>>, o: Order, root: nat, n: nat, s: Marks) {
    forall x: nat :: Reaches(p, root, x) && DepthOf(o, x) < n ==> ExactAt(p, given, s, x)
  }

  /** Those of depth n have been completed, too, among the visited ones that are not on the stack. */
  ghost predicate ExactSeen(p: Prog, given: seq<seq<int>>, o: Order, n: nat, s: Marks, st: seq<nat>) {
    forall x: nat :: x in s.seen && x !in st && DepthOf(o, x) <= n ==> ExactAt(p, given, s, x)
  }

  /** In a pass from root the check has come along st, a way on which rank falls, to pc. */
  ghost predicate Stacked(p: Prog, o: Order, root: nat, st: seq<nat>, pc: nat) {
    if st == [] then pc == root
    else Way(p, root, st[|st| - 1], st) && Follows(p, st[|st| - 1], pc) && Falls(o, st)
  }

  ghost predicate Falls(o: Order, st: seq<nat>) { forall i, j :: 0 <= i < j < |st| ==> Forward(o, st[i], st[j]) }

  /** What check has not visited it comes to along the program, not back. */
  lemma StackGrows(p: Prog, o: Order, root: nat, st: seq<nat>, pc: nat, seen: set<nat>)
    requires Layered(p, o, root) && Stacked(p, o, root, st, pc) && pc < |p.insts| && pc !in seen
    requires forall x :: x in st ==> x in seen
    ensures Way(p, root, pc, st + [pc]) && Falls(o, st + [pc])
  {
    if st != [] {
      var x := st[|st| - 1];
      WayExtends(p, root, x, pc, st);
      assert LayeredAt(p, o, root, x, pc);
      assert EveryWay(p, root, pc, x) ==> pc in st;
    }
  }

  /** What follows pc has been completed, unless it is less deep. */
  lemma NextExact(p: Prog, given: seq<seq<int>>, o: Order, root: nat, n: nat, s: Marks, st: seq<nat>, pc: nat, y: nat)
    requires Layered(p, o, root) && Reaches(p, root, pc) && Follows(p, pc, y) && !IsRune(p.insts[pc])
    requires ExactBelow(p, given, o, root, n, s) && ExactSeen(p, given, o, n, s, st) && DepthOf(o, pc) <= n
    requires st != [] && st[|st| - 1] == pc && Falls(o, st) && y in s.seen
    ensures ExactAt(p, given, s, y)
  {
    assert LayeredAt(p, o, root, pc, y);
    if Forward(o, pc, y) {
      assert y !in st;
    } else {
      ReachesNext(p, root, pc, y);
    }
  }

  /** An entry made of exact ones is exact. */
  lemma MadeExact(p: Prog, given: seq<seq<int>>, s: Marks, pc: nat)
    requires pc < |p.insts| == |given| == |s.first|
    requires !IsRune(p.insts[pc]) ==> forall y: nat :: Follows(p, pc, y) ==> ExactAt(p, given, s, y)
    ensures ExactAt(p, given, Marked(p, given, s, pc), pc)
  {
    var inst, s' := p.insts[pc], Marked(p, given, s, pc);
    forall r | Begins(p, given, pc, r) ensures r in First(s', pc) {
      var n: nat :| BeginsIn(p, given, pc, r, n);
      if inst.Alt? || IsStraight(inst) {
        var y := if inst.Alt? && !BeginsIn(p, given, inst.out, r, n - 1) then inst.arg else inst.out;
        assert BeginsIn(p, given, y, r, n - 1) && Follows(p, pc, y) && ExactAt(p, given, s, y);
      }
    }
    if n: nat :| EndsIn(p, pc, n) {
      if inst.Alt? || IsStraight(inst) {
        var y := if inst.Alt? && !EndsIn(p, inst.out, n - 1) then inst.arg else inst.out;
        assert EndsIn(p, y, n - 1) && Follows(p, pc, y) && ExactAt(p, given, s, y);
      }
    }
  }

  /** Other entries are as they were. */
  lemma OthersExact(p: Prog, given: seq<seq<int>>, s: Marks, pc: nat, x: nat)
    requires pc < |p.insts| == |s.first| && x != pc && ExactAt(p, given, s, x)
    ensures ExactAt(p, given, Marked(p, given, s, pc), x)
  {}

  lemma CompletesNode(p: Prog, given: seq<seq<int>>, o: Order, root: nat, n: nat, s: Marks, st: seq<nat>, pc: nat)
    requires Layered(p, o, root) && Reaches(p, root, pc) && pc < |p.insts| == |given| == |s.first|
    requires ExactBelow(p, given, o, root, n, s) && ExactSeen(p, given, o, n, s, st + [pc]) && Falls(o, st + [pc])
    requires forall y: nat :: Follows(p, pc, y) ==> y in s.seen
    ensures ExactBelow(p, given, o, root, n, Marked(p, given, s, pc))
    ensures ExactSeen(p, given, o, n, Marked(p, given, s, pc), st)
  {
    var s' := Marked(p, given, s, pc);
    if DepthOf(o, pc) <= n {
      if !IsRune(p.insts[pc]) {
        forall y: nat | Follows(p, pc, y) ensures ExactAt(p, given, s, y) {
          NextExact(p, given, o, root, n, s, st + [pc], pc, y);
        }
      }
      MadeExact(p, given, s, pc);
    }
    forall x: nat | Reaches(p, root, x) && DepthOf(o, x) < n ensures ExactAt(p, given, s', x) {
      if x != pc { OthersExact(p, given, s, pc, x); }
    }
    forall x: nat | x in s'.seen && x !in st && DepthOf(o, x) <= n ensures ExactAt(p, given, s', x) {
      if x != pc { OthersExact(p, given, s, pc, x); }
    }
  }

  /** A pass completes the entries of depth n if those of lower depth are exact before it. */
  lemma {:induction false} VisitExact(p: Prog, given: seq<seq<int>>, o: Order, root: nat, n: nat, s: Marks,
      st: seq<nat>, pc: nat)
    requires Targets(p) && Layered(p, o, root) && Reaches(p, root, pc) && pc < |p.insts| == |given| == |s.first|
    requires Stacked(p, o, root, st, pc) && forall x :: x in st ==> x in s.seen
    requires ExactBelow(p, given, o, root, n, s) && ExactSeen(p, given, o, n, s, st)
    ensures ExactBelow(p, given, o, root, n, Visit(p, given, s, pc))
    ensures ExactSeen(p, given, o, n, Visit(p, given, s, pc), st)
    decreases Below(|p.insts|) - s.seen
  {
    if pc !in s.seen {
      var inst, s0 := p.insts[pc], s.(seen := s.seen + {pc});
      assert InstOk(inst, |p.insts|) && pc in Below(|p.insts|) - s.seen;
      StackGrows(p, o, root, st, pc, s.seen);
      EntryKept(p, given, o, root, n, s, s0, st, pc);
      if inst.Alt? {
        var x, y := FirstLeg(p, s, pc), SecondLeg(p, s, pc);
        assert Follows(p, pc, x) && Follows(p, pc, y);
        ReachesNext(p, root, pc, x);
        ReachesNext(p, root, pc, y);
        VisitExact(p, given, o, root, n, s0, st + [pc], x);
        var s1 := Visit(p, given, s0, x);
        VisitExact(p, given, o, root, n, s1, st + [pc], y);
        CompletesNode(p, given, o, root, n, Visit(p, given, s1, y), st, pc);
      } else if inst.Match? || inst.Fail? {
        CompletesNode(p, given, o, root, n, s0, st, pc);
      } else {
        assert Follows(p, pc, inst.out);
        ReachesNext(p, root, pc, inst.out);
        VisitExact(p, given, o, root, n, s0, st + [pc], inst.out);
        CompletesNode(p, given, o, root, n, Visit(p, given, s0, inst.out), st, pc);
      }
    }
  }

  /** Nothing is known of pc when it is entered, and nothing is lost. */
  lemma EntryKept(p: Prog, given: seq<seq<int>>, o: Order, root: nat, n: nat, s: Marks, s0: Marks, st: seq<nat>,
      pc: nat)
    requires s0 == s.(seen := s.seen + {pc})
    requires ExactBelow(p, given, o, root, n, s) && ExactSeen(p, given, o, n, s, st)
    ensures ExactBelow(p, given, o, root, n, s0) && ExactSeen(p, given, o, n, s0, st + [pc])
  {
    forall x: nat | ExactAt(p, given, s, x) ensures ExactAt(p, given, s0, x) {}
  }

  /** What follows a visited instruction is visited. */
  lemma {:induction false} VisitCloses(p: Prog, given: seq<seq<int>>, s: Marks, pc: nat, x: nat, y: nat)
    requires Targets(p) && pc < |p.insts| && x in Visit(p, given, s, pc).seen && x !in s.seen && Follows(p, x, y)
    ensures y in Visit(p, given, s, pc).seen
    decreases Below(|p.insts|) - s.seen
  {
    if pc !in s.seen {
      var inst, s0 := p.insts[pc], s.(seen := s.seen + {pc});
      assert InstOk(inst, |p.insts|) && pc in Below(|p.insts|) - s.seen;
      if inst.Alt? {
        var s1 := Visit(p, given, s0, FirstLeg(p, s, pc));
        if x != pc && x in s1.seen {
          VisitCloses(p, given, s0, FirstLeg(p, s, pc), x, y);
        } else if x != pc {
          VisitCloses(p, given, s1, SecondLeg(p, s, pc), x, y);
        }
      } else if !inst.Match? && !inst.Fail? && x != pc {
        VisitCloses(p, given, s0, inst.out, x, y);
      }
    }
  }

  /** A pass visits all that its root leads to. */
  lemma {:induction false} VisitReaches(p: Prog, given: seq<seq<int>>, s: Marks, root: nat, x: nat, q: seq<nat>)
    requires Targets(p) && root < |p.insts| && s.seen == {} && Way(p, root, x, q)
    ensures x in Visit(p, given, s, root).seen
    decreases |q|
  {
    if |q| > 1 {
      var y := q[|q| - 2];
      assert Way(p, root, y, q[..|q| - 1]) && Follows(p, q[|q| - 2], q[|q| - 2 + 1]);
      VisitReaches(p, given, s, root, y, q[..|q| - 1]);
      VisitCloses(p, given, s, root, y, x);
    }
  }

  lemma PassExact(p: Prog, given: seq<seq<int>>, o: Order, root: nat, n: nat, s: Marks)
    requires Targets(p) && Layered(p, o, root) && root < |p.insts| == |given| == |s.first|
    requires ExactBelow(p, given, o, root, n, s)
    ensures ExactBelow(p, given, o, root, n + 1, Visit(p, given, s.(seen := {}), root))
  {
    var s0 := s.(seen := {});
    assert ExactBelow(p, given, o, root, n, s0) by {
      forall x: nat | ExactAt(p, given, s, x) ensures ExactAt(p, given, s0, x) {}
    }
    ReachesItself(p, root);
    VisitExact(p, given, o, root, n, s0, [], root);
    forall x: nat | Reaches(p, root, x) && DepthOf(o, x) < n + 1
      ensures ExactAt(p, given, Visit(p, given, s0, root), x)
    {
      var q :| Way(p, root, x, q);
      VisitReaches(p, given, s0, root, x, q);
    }
  }

  // ----------------------------------------------------------------------------- all passes

  /** What every entry behind h says is kept by a pass from anywhere. */
  ghost predicate ExactBehind(p: Prog, given: seq<seq<int>>, h: nat, s: Marks) {
    forall x: nat :: Reaches(p, h, x) ==> ExactAt(p, given, s, x)
  }

  lemma MarkedKeeps(p: Prog, given: seq<seq<int>>, h: nat, s: Marks, pc: nat)
    requires pc < |p.insts| == |given| == |s.first| && ExactBehind(p, given, h, s)
    ensures ExactBehind(p, given, h, Marked(p, given, s, pc))
  {
    forall x: nat | Reaches(p, h, x) ensures ExactAt(p, given, Marked(p, given, s, pc), x) {
      if x != pc {
        OthersExact(p, given, s, pc, x);
      } else {
        forall y: nat | Follows(p, pc, y) ensures ExactAt(p, given, s, y) { ReachesNext(p, h, pc, y); }
        MadeExact(p, given, s, pc);
      }
    }
  }

  lemma SeenIsAside(p: Prog, given: seq<seq<int>>, h: nat, s: Marks, seen: set<nat>)
    requires ExactBehind(p, given, h, s)
    ensures ExactBehind(p, given, h, s.(seen := seen))
  {
    forall x: nat | ExactAt(p, given, s, x) ensures ExactAt(p, given, s.(seen := seen), x) {}
  }

  lemma {:induction false} VisitKeeps(p: Prog, given: seq<seq<int>>, h: nat, s: Marks, pc: nat)
    requires Targets(p) && pc < |p.insts| == |given| == |s.first| && ExactBehind(p, given, h, s)
    ensures ExactBehind(p, given, h, Visit(p, given, s, pc))
    decreases Below(|p.insts|) - s.seen
  {
    if pc !in s.seen {
      var inst, s0 := p.insts[pc], s.(seen := s.seen + {pc});
      assert InstOk(inst, |p.insts|) && pc in Below(|p.insts|) - s.seen;
      SeenIsAside(p, given, h, s, s0.seen);
      if inst.Alt? {
        VisitKeeps(p, given, h, s0, FirstLeg(p, s, pc));
        var s1 := Visit(p, given, s0, FirstLeg(p, s, pc));
        VisitKeeps(p, given, h, s1, SecondLeg(p, s, pc));
        MarkedKeeps(p, given, h, Visit(p, given, s1, SecondLeg(p, s, pc)), pc);
      } else if inst.Match? || inst.Fail? {
        MarkedKeeps(p, given, h, s0, pc);
      } else {
        VisitKeeps(p, given, h, s0, inst.out);
        MarkedKeeps(p, given, h, Visit(p, given, s0, inst.out), pc);
      }
    }
  }

  lemma {:induction false} PassesKeep(p: Prog, given: seq<seq<int>>, h: nat, s: Marks, roots: seq<nat>, i: nat)
    requires Targets(p) && InProg(p, roots) && |p.insts| == |given| == |s.first| && ExactBehind(p, given, h, s)
    ensures ExactBehind(p, given, h, Passes(p, given, s, roots, i))
    decreases |p.insts| - i
  {
    if i < |roots| && i < |p.insts| {
      MoreInProg(p, s, roots, roots[i]);
      SeenIsAside(p, given, h, s, {});
      VisitKeeps(p, given, h, s.(seen := {}), roots[i]);
      PassesKeep(p, given, h, Visit(p, given, s.(seen := {}), roots[i]), MoreRoots(p, s, roots, roots[i]), i + 1);
    }
  }

  /** The instructions of the opening are different ones. */
  lemma {:induction false} OpeningFalls(p: Prog, o: Order, hs: seq<nat>, i: nat, j: nat)
    requires Opening(p, o, hs) && i < j < |hs|
    ensures hs[i] != hs[j] && (j < |hs| - 1 ==> Forward(o, hs[i], hs[j]))
    decreases j
  {
    assert IsStraight(p.insts[hs[j - 1]]) && p.insts[hs[j - 1]].out == hs[j - 1 + 1];
    assert Follows(p, hs[j - 1], hs[j]);
    if i < j - 1 { OpeningFalls(p, o, hs, i, j - 1); }
  }

  /** The opening up to number i is the way to it. */
  lemma OpeningWay(p: Prog, o: Order, hs: seq<nat>, i: nat)
    requires Opening(p, o, hs) && i < |hs|
    ensures Way(p, p.start, hs[i], hs[..i + 1])
  {
    forall j | 0 <= j < i ensures Follows(p, hs[j], hs[j + 1]) { assert IsStraight(p.insts[hs[j]]); }
  }

  /** Loops are entered where they return to from every instruction of the opening. */
  lemma LayeredBehind(p: Prog, o: Order, hs: seq<nat>, i: nat)
    requires Layered(p, o, p.start) && Opening(p, o, hs) && i < |hs|
    ensures Layered(p, o, hs[i])
  {
    forall x: nat, y: nat | Follows(p, x, y) ensures LayeredAt(p, o, hs[i], x, y) {
      assert LayeredAt(p, o, p.start, x, y);
      if !Forward(o, x, y) {
        forall q | Way(p, hs[i], x, q) ensures y in q {
          OpeningWay(p, o, hs, i);
          WayJoins(p, p.start, hs[i], x, hs[..i + 1], q);
          var w := hs[..i + 1][..i] + q;
          forall j | 0 <= j < i ensures w[j] != y { assert w[j] == hs[j]; }
          var k :| 0 <= k < |w| && w[k] == y;
          assert y == q[k - i];
        }
      }
    }
  }

  lemma NextRoot(p: Prog, o: Order, hs: seq<nat>, i: nat, s: Marks)
    requires Opening(p, o, hs) && i + 1 < |hs|
    ensures MoreRoots(p, s, hs[..i + 1], hs[i]) == hs[..i + 2]
  {
    assert IsStraight(p.insts[hs[i]]) && p.insts[hs[i]].out == hs[i + 1];
    forall j | 0 <= j < i + 1 ensures hs[j] != hs[i + 1] { OpeningFalls(p, o, hs, j, i + 1); }
  }

  lemma BehindNext(p: Prog, given: seq<seq<int>>, o: Order, hs: seq<nat>, i: nat, n: nat, s: Marks)
    requires Opening(p, o, hs) && i + 1 < |hs| && ExactBelow(p, given, o, hs[i], n, s)
    ensures ExactBelow(p, given, o, hs[i + 1], n, s)
  {
    assert IsStraight(p.insts[hs[i]]) && p.insts[hs[i]].out == hs[i + 1];
    assert Follows(p, hs[i], hs[i + 1]);
    forall x: nat | Reaches(p, hs[i + 1], x) && DepthOf(o, x) < n ensures ExactAt(p, given, s, x) {
      var q :| Way(p, hs[i + 1], x, q);
      assert Way(p, hs[i], hs[i + 1], [hs[i], hs[i + 1]]);
      WayJoins(p, hs[i], hs[i + 1], x, [hs[i], hs[i + 1]], q);
    }
  }

  /** The pass from number i of the opening completes the entries of depth i, and no pass undoes it. */
  lemma {:induction false} PassesExact(p: Prog, given: seq<seq<int>>, o: Order, hs: seq<nat>, i: nat, s: Marks)
    requires Targets(p) && Shallow(p, o, hs) && |p.insts| == |given| == |s.first| && i < |hs|
    requires ExactBelow(p, given, o, hs[i], i, s)
    ensures InProg(p, hs[..i + 1]) && ExactBehind(p, given, hs[|hs| - 1], Passes(p, given, s, hs[..i + 1], i))
    decreases |hs| - i
  {
    var s', roots := Visit(p, given, s.(seen := {}), hs[i]), hs[..i + 1];
    LayeredBehind(p, o, hs, i);
    PassExact(p, given, o, hs[i], i, s);
    MoreInProg(p, s, roots, roots[i]);
    if i + 1 < |hs| {
      NextRoot(p, o, hs, i, s);
      BehindNext(p, given, o, hs, i, i + 1, s');
      PassesExact(p, given, o, hs, i + 1, s');
    } else {
      PassesKeep(p, given, hs[i], s', MoreRoots(p, s, roots, roots[i]), i + 1);
    }
  }

  lemma FirstOfOpening(p: Prog, given: seq<seq<int>>, o: Order, hs: seq<nat>)
    requires Targets(p) && Opening(p, o, hs) && p.start < |p.insts|
    ensures InProg(p, hs[..1]) && Passes(p, given, NoMarks(p), hs[..1], 0) == AllPasses(p, given)
  {
    assert hs[..1] == [p.start];
  }

  lemma SameMarks(p: Prog, given: seq<seq<int>>, h: nat, s: Marks, s': Marks)
    requires ExactBehind(p, given, h, s) && s == s'
    ensures ExactBehind(p, given, h, s')
  {}

  /** Of a shallow program the passes leave exact entries. */
  lemma AllPassesExact(p: Prog, given: seq<seq<int>>, o: Order, hs: seq<nat>)
    requires Targets(p) && Shallow(p, o, hs) && |p.insts| == |given| && p.start < |p.insts|
    ensures ExactBehind(p, given, hs[|hs| - 1], AllPasses(p, given))
  {
    PassesExact(p, given, o, hs, 0, NoMarks(p));
    FirstOfOpening(p, given, o, hs);
    SameMarks(p, given, hs[|hs| - 1], Passes(p, given, NoMarks(p), hs[..1], 0), AllPasses(p, given));
  }

  // ---------------------------------------------------------------------- directed tables

  /** An alternative with an exact entry leads every rune to the leg that begins with it. */
  lemma ExactDirects(p: Prog, given: seq<seq<int>>, t: Tables, seen: seq<nat>, pc: nat)
    requires Runnable(p, given, t) && Good(p, given, t) && pc < |p.insts| && p.insts[pc].Alt? && ClearAt(p, given, pc)
    requires ExactAt(p, given, MarksOf(p, State(t, seen)), pc)
    ensures DirectsAt(p, given, t, pc)
  {
    var i := AltInst(t, pc);
    assert ShapedAt(p, given, t, pc) && LegsAt(p, t, pc) && Apt(p, given, t, pc);
    forall x: nat | Follows(p, pc, x) ensures DirectsTo(p, given, t, pc, x) {
      forall r | Begins(p, given, x, r) ensures NextOf(i, r) == x {
        AheadOne(p, given, pc, x, r);
        var k :| 0 <= k < Pairs(t.runes[pc]) && InPair(t.runes[pc], k, r);
        NextIs(i, r, k);
        assert i.next[k] in {t.cells[pc].out, t.cells[pc].arg} && Begins(p, given, i.next[k], r);
      }
      AheadOne(p, given, pc, x, 0);
      NotCovered(t.runes[pc]);
    }
  }

  lemma {:induction false} BehindOpening(p: Prog, o: Order, hs: seq<nat>, i: nat, x: nat, q: seq<nat>)
    requires Opening(p, o, hs) && i < |hs| && Way(p, hs[i], x, q) && x < |p.insts| && p.insts[x].Alt?
    ensures Reaches(p, hs[|hs| - 1], x)
    decreases |q|
  {
    if i < |hs| - 1 {
      assert IsStraight(p.insts[hs[i]]) && Follows(p, q[0], q[0 + 1]);
      assert Way(p, hs[i + 1], x, q[1..]) by {
        forall j | 0 <= j < |q[1..]| - 1 ensures Follows(p, q[1..][j], q[1..][j + 1]) {
          assert Follows(p, q[j + 1], q[j + 1 + 1]);
        }
      }
      BehindOpening(p, o, hs, i + 1, x, q[1..]);
    }
  }

  ghost function Reached(p: Prog, S: set<nat>): set<nat> { set x | x in S && Reaches(p, p.start, x) }

  lemma ReachedIsFilled(p: Prog, given: seq<seq<int>>, t: Tables, S: set<nat>)
    requires Filled(p, given, t, S)
    ensures Filled(p, given, t, Reached(p, S))
  {
    ReachesItself(p, p.start);
    forall pc, x | pc in Reached(p, S) && Follows(p, pc, x) ensures x in Reached(p, S) {
      ReachesNext(p, p.start, pc, x);
    }
  }

  /** What makeOnePass leaves of a shallow unambiguous program are directed tables. */
  lemma ShallowDirects(p: Prog, given: seq<seq<int>>, o: Order, hs: seq<nat>, t: Tables, seen: seq<nat>, S: set<nat>)
    requires Runnable(p, given, t) && Targets(p) && Good(p, given, t) && Filled(p, given, t, S) && Unambiguous(p, given)
    requires p.start < |p.insts| && Shallow(p, o, hs) && MarksOf(p, State(t, seen)) == AllPasses(p, given)
    ensures Directed(p, given, t, Reached(p, S))
  {
    AllPassesExact(p, given, o, hs);
    ReachedIsFilled(p, given, t, S);
    forall pc | pc in Reached(p, S) ensures pc < |p.insts| && (p.insts[pc].Alt? ==> DirectsAt(p, given, t, pc)) {
      var q :| Way(p, p.start, pc, q);
      InProgram(p, pc, q);
      if p.insts[pc].Alt? {
        BehindOpening(p, o, hs, 0, pc, q);
        ExactDirects(p, given, t, seen, pc);
      }
    }
  }

  lemma InProgram(p: Prog, x: nat, q: seq<nat>)
    requires Targets(p) && p.start < |p.insts| && Way(p, p.start, x, q)
    ensures x < |p.insts|
  {
    if |q| > 1 {
      assert Follows(p, q[|q| - 2], q[|q| - 2 + 1]);
      assert InstOk(p.insts[q[|q| - 2]], |p.insts|);
    }
  }

  // ------------------------------------------------------------------------ end to end

  /** What compileOnePass hands to makeOnePass: p' has been made of p by onePassCopy. */
  ghost predicate Prepared(p: Prog, p': Prog, given: seq<seq<int>>) {
    && WellFormed(p) && Anchored(p) && Guarded(p) && p' == Prog(C.RewrittenFrom(p.insts, 0), p.start)
    && WellFormed(p') && Given(p', given) && ChainsEnd(p')
  }

  /** What makeOnePass leaves when it has accepted an unambiguous program. */
  ghost predicate Left(p: Prog, given: seq<seq<int>>, t: Tables, S: set<nat>) {
    && Runnable(p, given, t) && Good(p, given, t) && Filled(p, given, t, S) && Unambiguous(p, given) && ChainsEnd(p)
    && Targets(p) && exists seen :: MarksOf(p, State(t, seen)) == AllPasses(p, given)
  }

  lemma LeftIsLed(p: Prog, given: seq<seq<int>>, t: Tables, S: set<nat>)
    requires Left(p, given, t, S)
    ensures Led(p, given, t, S)
  {
    forall pc | pc in S && pc < |p.insts| && p.insts[pc].Alt? ensures Parted(p, given, pc) && Apt(p, given, t, pc) {
      assert ClearAt(p, given, pc);
    }
  }

  lemma UnambiguousOneRun(p: Prog, given: seq<seq<int>>, text: Text)
    requires WellFormed(p) && Given(p, given) && Anchored(p) && Guarded(p) && Unambiguous(p, given) && RunesOnly(text)
    ensures OneRun(p, text)
  {
    forall q: seq<Config>, q': seq<Config> | IsRun(p, text, q) && IsRun(p, text, q') ensures q == q' {
      StartsAtZero(p, text, q);
      StartsAtZero(p, text, q');
      Unique(p, given, text, q, q');
    }
  }

  /** What the runner finds. */
  ghost function FoundIn(p: Prog, given: seq<seq<int>>, t: Tables, text: Text, ncap: nat, pos: nat, n: nat)
      : Option<seq<int>>
    requires Runnable(p, given, t) && pos <= |text| && HaltsIn(p, given, t, text, Config(p.start, pos), n)
  {
    var c := Config(p.start, pos);
    if Finds(p, given, t, text, c, n) then Some(Report(p, ncap, Trace(p, given, t, text, c, n))) else None
  }

  /** Whatever the runner finds on such tables is the answer. */
  lemma FoundIsAnswer(p: Prog, p': Prog, given: seq<seq<int>>, t: Tables, S: set<nat>, text: Text, longest: bool,
      ncap: nat, pos: nat, n: nat)
    requires Prepared(p, p', given) && Left(p', given, t, S) && RunesOnly(text) && pos <= |text|
    requires HaltsIn(p', given, t, text, Config(p'.start, pos), n)
    requires FoundIn(p', given, t, text, ncap, pos, n).Some?
    ensures FoundIn(p', given, t, text, ncap, pos, n) == Answer(p, text, longest, ncap, pos)
  {
    var c := Config(p'.start, pos);
    var q := Trace(p', given, t, text, c, n);
    FoundIsRun(p', given, t, text, S, c, n);
    StaysGuarded(p, p');
    UnambiguousOneRun(p', given, text);
    SameAnswer(p, p', text, longest, ncap, pos);
    assert Accepting(p', text, pos, q) && IsRun(p', text, q);
    WantedExists(p', text, longest, pos);
    WantedMeaning(p', text, longest, pos);
    assert IsRun(p', text, Wanted(p', text, longest, pos).value);
  }

  /** On directed tables it finds the answer. */
  lemma AnswerIsFound(p: Prog, p': Prog, given: seq<seq<int>>, t: Tables, S: set<nat>, text: Text, longest: bool,
      ncap: nat, pos: nat, n: nat)
    requires Compiled(p, p', given, t, S) && RunesOnly(text) && pos <= |text|
    requires HaltsIn(p', given, t, text, Config(p'.start, pos), n)
    ensures FoundIn(p', given, t, text, ncap, pos, n) == Answer(p, text, longest, ncap, pos)
  {
    var m := RunAnswers(p, p', given, t, S, text, longest, ncap, pos);
    SameTrace(p', given, t, text, Config(p'.start, pos), m, n);
  }

  /** Checks the program and fills in the tables. */
  method Make(p: Prog, given: seq<seq<int>>) returns (t: Tables, ghost S: set<nat>)
    requires WellFormed(p) && Given(p, given) && ChainsEnd(p)
    requires |p.insts| < MAX_ONE_PASS && Unambiguous(p, given)
    ensures Left(p, given, t, S)
  {
    var b := new Builder(p, given);
    var accepted := b.MakeOnePass();
    t := Tables(b.cells, b.onePassRunes, b.m);
    assert t == b.T() && MarksOf(p, State(t, b.Now().seen)) == AllPasses(p, given);
    S :| Filled(p, given, t, S);
  }

  lemma LeftIsCompiled(p: Prog, p': Prog, given: seq<seq<int>>, o: Order, hs: seq<nat>, t: Tables, S: set<nat>)
    requires Prepared(p, p', given) && Left(p', given, t, S) && Shallow(p', o, hs)
    ensures Compiled(p, p', given, t, Reached(p', S))
  {
    var seen :| MarksOf(p', State(t, seen)) == AllPasses(p', given);
    ShallowDirects(p', given, o, hs, t, seen, S);
  }

  /** What a runner that ends after n turns tells is right, and complete for a shallow program. */
  ghost predicate IsRight(p: Prog, p': Prog, a: Option<seq<int>>, text: Text, longest: bool, ncap: nat, pos: nat)
    requires WellFormed(p) && pos <= |text|
  {
    && (a.Some? ==> a == Answer(p, text, longest, ncap, pos))
    && ((exists o, hs :: Shallow(p', o, hs)) ==> a == Answer(p, text, longest, ncap, pos))
  }

  lemma TellsRight(p: Prog, p': Prog, given: seq<seq<int>>, t: Tables, S: set<nat>, text: Text, longest: bool,
      ncap: nat, pos: nat) returns (n: nat, a: Option<seq<int>>)
    requires Prepared(p, p', given) && Left(p', given, t, S) && RunesOnly(text) && pos <= |text|
    ensures Tells(p', given, t, text, ncap, pos, n, a) && IsRight(p, p', a, text, longest, ncap, pos)
  {
    StaysGuarded(p, p');
    LeftIsLed(p', given, t, S);
    n := HaltsFrom(p', given, t, S, text, Config(p'.start, pos));
    a := FoundIn(p', given, t, text, ncap, pos, n);
    if a.Some? { FoundIsAnswer(p, p', given, t, S, text, longest, ncap, pos, n); }
    if o, hs :| Shallow(p', o, hs) {
      LeftIsCompiled(p, p', given, o, hs, t, S);
      AnswerIsFound(p, p', given, t, Reached(p', S), text, longest, ncap, pos, n);
    }
  }

  /** An unambiguous program, compiled for one pass and run: the runner ends, a match it reports is
      the one that the other engines report, and if the program is shallow it misses none. */
  method CompileAndExecute(p: Prog, p': Prog, given: seq<seq<int>>, text: Text, ghost longest: bool, ncap: nat,
      pos: nat, cond: Option<EmptyOp>, matchcap: array<int>) returns (result: Option<seq<int>>)
    requires Prepared(p, p', given) && |p'.insts| < MAX_ONE_PASS && Unambiguous(p', given)
    requires StartCond(p) == Some(cond) && RunesOnly(text) && pos <= |text| && matchcap.Length != 1
    modifies matchcap
    ensures IsRight(p, p', result, text, longest, if ncap == 0 then 0 else matchcap.Length, pos)
  {
    ghost var S;
    var t;
    t, S := Make(p', given);
    ghost var regs := if ncap == 0 then 0 else matchcap.Length;
    ghost var n, a := TellsRight(p, p', given, t, S, text, longest, regs, pos);
    if cond.None? { NoAnswer(p, text, longest, regs, pos); }
    result := TellAnswer(p', given, t, text, ncap, pos, cond, matchcap, n, a);
  }

  // ------------------------------------------------------------------------- an example

  function LoopsInst(pc: nat): Inst
    requires pc < 9
  {
    match pc
    case 0 => Fail
    case 1 => EmptyWidth(2, {BeginText})
    case 2 => Rune1(6, 122) // z
    case 3 => Rune1(5, 97) // a
    case 4 => Rune1(5, 98) // b
    case 5 => Alt(4, 6)
    case 6 => Alt(3, 7)
    case 7 => EmptyWidth(8, {EndText})
    case _ => Match
  }

  /** The program of ^z(?:ab*)*$. */
  const LOOPS := Prog(seq(9, i requires 0 <= i < 9 => LoopsInst(i)), 1)

  const LOOPS_ORDER := Order([0, 9, 8, 6, 4, 5, 7, 3, 2], [0, 0, 0, 0, 0, 1, 0, 0, 0])

  /** A loop within a loop behind one rune is not too deep. */
  lemma TwoLoopsAreShallow()
    ensures Shallow(LOOPS, LOOPS_ORDER, [1, 2])
  {
    forall x: nat, y: nat | Follows(LOOPS, x, y) ensures LayeredAt(LOOPS, LOOPS_ORDER, 1, x, y) {
      if x == 4 && y == 5 {
        WaysOut(LOOPS, 1, 5, 4, {1, 2, 3, 6, 7, 8});
      } else if x == 5 && y == 6 {
        WaysOut(LOOPS, 1, 6, 5, {1, 2});
      }
    }
    assert forall x: nat :: !Follows(LOOPS, x, 1);
  }
}
