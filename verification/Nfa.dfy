/** The Thompson simulation (src/regexp/exec.go): sparse-array queues of threads, a pool of
    threads to reuse, and capture registers shared between a running thread and `Add`. */
module Nfa {
  import opened Search
  import opened RegexpProg
  import opened Levels
  import opened Simulation
  import opened StepBooks

  /** A thread owns its capture registers: two capture slices alias exactly when their owners are one object. */
  class Thread {
    var inst: nat
    var cap: seq<int>

    constructor (inst: nat, ncap: nat)
      ensures this.inst == inst && |cap| == ncap
    {
      this.inst := inst;
      this.cap := seq(ncap, i => 0);
    }
  }

  /** t == null for a mere placeholder. */
  datatype Entry = Entry(pc: nat, t: Thread?)

  class Queue {
    const sparse: array<nat>
    var dense: seq<Entry>

    constructor (n: nat)
      ensures fresh(sparse) && sparse.Length == n && dense == []
    {
      sparse := new nat[n];
      dense := [];
    }
  }

  /** The threads held by the entries of a queue. */
  ghost function Held(dense: seq<Entry>): set<Thread> {
    if dense == [] then {}
    else
      var e := dense[|dense| - 1];
      Held(dense[..|dense| - 1]) + if e.t == null then {} else {e.t}
  }

  lemma HeldPush(dense: seq<Entry>, e: Entry)
    ensures Held(dense + [e]) == Held(dense) + if e.t == null then {} else {e.t}
  {
    assert (dense + [e])[..|dense|] == dense;
  }

  lemma {:induction false} HeldMember(dense: seq<Entry>, i: nat)
    requires i < |dense| && dense[i].t != null
    ensures dense[i].t in Held(dense)
  {
    if i < |dense| - 1 { HeldMember(dense[..|dense| - 1], i); }
  }

  /** The threads held by the entries from index j on. */
  ghost function HeldFrom(dense: seq<Entry>, j: nat): set<Thread>
    requires j <= |dense|
    decreases |dense| - j
  {
    if j == |dense| then {} else (if dense[j].t == null then {} else {dense[j].t}) + HeldFrom(dense, j + 1)
  }

  lemma {:induction false} HeldFromMember(dense: seq<Entry>, j: nat, u: Thread)
    requires j <= |dense| && u in HeldFrom(dense, j)
    ensures exists i :: j <= i < |dense| && dense[i].t == u
    decreases |dense| - j
  {
    if dense[j].t != u { HeldFromMember(dense, j + 1, u); }
  }

  lemma {:induction false} HeldFromHas(dense: seq<Entry>, j: nat, i: nat)
    requires j <= i < |dense| && dense[i].t != null
    ensures dense[i].t in HeldFrom(dense, j)
    decreases i - j
  {
    if j < i { HeldFromHas(dense, j + 1, i); }
  }

  lemma {:induction false} HeldSplit(dense: seq<Entry>, j: nat)
    requires j <= |dense|
    ensures Held(dense) == Held(dense[..j]) + HeldFrom(dense, j)
    decreases |dense| - j
  {
    if j == |dense| {
      assert dense[..j] == dense;
    } else {
      HeldSplit(dense, j + 1);
      assert dense[..j + 1][..j] == dense[..j];
    }
  }

  // --------------------------------------------------------- exploring one node

  lemma ExploreVisited<N>(g: Graph<N>, t: Trail<N>, L: seq<Trail<N>>)
    requires t.node in Visited(L) || t.node !in g
    ensures Explore(g, [t], L) == L
  {
    assert [t][1..] == [];
  }

  lemma ExploreLeaf<N>(g: Graph<N>, t: Trail<N>, L: seq<Trail<N>>)
    requires t.node in g && t.node !in Visited(L) && g[t.node] == []
    ensures Explore(g, [t], L) == L + [t]
  {
    VisitedGrows(L, t);
    assert Children(g, t) + [t][1..] == [];
  }

  lemma ExploreOne<N>(g: Graph<N>, t: Trail<N>, L: seq<Trail<N>>, d: N)
    requires t.node in g && t.node !in Visited(L) && g[t.node] == [d]
    ensures Explore(g, [t], L) == Explore(g, [Trail(t.Path(), d)], L + [t])
  {
    VisitedGrows(L, t);
    assert Children(g, t) + [t][1..] == [Trail(t.Path(), d)];
  }

  lemma ExploreTwo<N>(g: Graph<N>, t: Trail<N>, L: seq<Trail<N>>, d: N, e: N)
    requires t.node in g && t.node !in Visited(L) && g[t.node] == [d, e]
    ensures Explore(g, [t], L) == Explore(g, [Trail(t.Path(), e)], Explore(g, [Trail(t.Path(), d)], L + [t]))
  {
    VisitedGrows(L, t);
    assert Children(g, t) + [t][1..] == [Trail(t.Path(), d)] + [Trail(t.Path(), e)];
    ExploreConcat(g, [Trail(t.Path(), d)], [Trail(t.Path(), e)], L + [t]);
  }

  /** A queue of distinct pcs below n has room for another one. */
  lemma Room(dense: seq<Entry>, n: nat, pc: nat)
    requires pc < n
    requires forall i :: 0 <= i < |dense| ==> dense[i].pc < n && dense[i].pc != pc
    requires forall i, j :: 0 <= i < j < |dense| ==> dense[i].pc != dense[j].pc
    ensures |dense| < n
  {
    var pcs := seq(|dense|, i requires 0 <= i < |dense| => dense[i].pc);
    DistinctBelow(pcs + [pc], n);
  }

  lemma SomeBelow(s: seq<nat>, n: nat)
    requires s != [] && forall i :: 0 <= i < |s| ==> s[i] < n
    ensures n > 0
  {
    assert s[0] < n;
  }

  lemma {:induction false} DistinctBelow(s: seq<nat>, n: nat)
    requires forall i :: 0 <= i < |s| ==> s[i] < n
    requires forall i, j :: 0 <= i < j < |s| ==> s[i] != s[j]
    ensures |s| <= n
    decreases n
  {
    if s != [] {
      SomeBelow(s, n);
      if k :| 0 <= k < |s| && s[k] == n - 1 {
        var s' := s[..k] + s[k + 1..];
        DistinctBelow(s', n - 1);
      } else {
        DistinctBelow(s, n - 1);
      }
    }
  }

  /** What the loop over the text has in view at a position: the rune there and the one after it,
      with their widths, and the assertions that hold before them. */
  datatype View = View(flag: EmptyOp, r: int, width: nat, r1: int, width1: nat) {
    ghost predicate At(text: Text, pos: nat) {
      && pos <= |text| && flag == Context(text, pos) && r == StepRune(text, pos) && width == StepWidth(text, pos)
      && (pos < |text| ==> r1 == StepRune(text, pos + 1) && width1 == StepWidth(text, pos + 1))
    }

    /** The view from the next position; past the end r1 is left as it is. */
    function Next(text: Text, pos: nat): (v: View)
      requires At(text, pos) && pos < |text|
      ensures v.At(text, pos + 1)
    {
      EmptyOpContextIs(text, pos + 1);
      var flag := EmptyOpContext(r, r1);
      var pos := pos + width;
      if r1 == END_OF_TEXT then View(flag, r1, width1, r1, width1)
      else View(flag, r1, width1, StepRune(text, pos + width1), StepWidth(text, pos + width1))
    }
  }

  function FirstView(text: Text, pos: nat): (v: View)
    requires pos <= |text|
    ensures v.At(text, pos)
  {
    var r, width := StepRune(text, pos), StepWidth(text, pos);
    var flag := if pos == 0 then EmptyOpContext(-1, r) else ContextAt(text, pos);
    if r == END_OF_TEXT then View(flag, r, width, END_OF_TEXT, 0)
    else View(flag, r, width, StepRune(text, pos + width), StepWidth(text, pos + width))
  }

  class Machine {
    const prog: Prog
    const longest: bool
    const ncap: nat
    const q0: Queue
    const q1: Queue
    /** The machine's own registers, m.matchcap. */
    const matchcap: Thread
    var pool: seq<Thread>
    var matched: bool
    /** Every thread ever allocated. */
    ghost var arena: set<Thread>

    constructor (prog: Prog, longest: bool, ncap: nat)
      ensures this.prog == prog && this.longest == longest && this.ncap == ncap
      ensures q0 != q1 && q0.sparse != q1.sparse && fresh(q0) && fresh(q1) && fresh(q0.sparse) && fresh(q1.sparse) &&
        fresh(matchcap)
      ensures q0.sparse.Length == |prog.insts| == q1.sparse.Length && q0.dense == q1.dense == []
      ensures pool == [] && arena == {} && |matchcap.cap| == ncap
    {
      this.prog, this.longest, this.ncap := prog, longest, ncap;
      q0 := new Queue(|prog.insts|);
      q1 := new Queue(|prog.insts|);
      matchcap := new Thread(0, ncap);
      pool, matched, arena := [], false, {};
    }

    /** The entries of q are the trails of L, in order, all at position pos; sparse finds each of them. */
    ghost predicate Lists(q: Queue, L: seq<Trail<Config>>, pos: nat)
      reads q, q.sparse
    {
      && q.sparse.Length == |prog.insts| && |q.dense| == |L|
      && forall i :: 0 <= i < |L| ==> ListsAt(q, L[i], pos, i)
    }

    ghost predicate ListsAt(q: Queue, t: Trail<Config>, pos: nat, i: nat)
      requires i < |q.dense| && q.sparse.Length == |prog.insts|
      reads q, q.sparse
    {
      var e := q.dense[i];
      && t.node == Config(e.pc, pos) && 0 < e.pc < |prog.insts| && q.sparse[e.pc] == i
      && (Waits(prog.insts[e.pc]) <==> e.t != null)
    }

    /** Every queued thread carries the instruction and the registers of its trail; the registers
        of owner, which Add may be changing for a while, are taken to be orig. */
    ghost predicate Carry(q: Queue, L: seq<Trail<Config>>, owner: Thread, orig: seq<int>)
      reads this`arena, q, arena
    {
      |q.dense| == |L| && forall i :: 0 <= i < |L| && q.dense[i].t != null ==>
        q.dense[i].t in arena && Carries(q.dense[i].t, q.dense[i].pc, L[i], owner, orig)
    }

    ghost predicate Carries(u: Thread, pc: nat, t: Trail<Config>, owner: Thread, orig: seq<int>)
      reads u
    {
      u.inst == pc && (if u == owner then orig else u.cap) == RegistersOf(t)
    }

    ghost function RegistersOf(t: Trail<Config>): seq<int> { Registers(prog, ncap, t.Path()[0].pos, t.Path()) }

    /** The pool holds distinct threads with registers of the right number. */
    ghost predicate PoolOk()
      reads this`pool, this`arena, arena
    {
      && (forall i, j :: 0 <= i < j < |pool| ==> pool[i] != pool[j])
      && forall i :: 0 <= i < |pool| ==> pool[i] in arena && |pool[i].cap| == ncap
    }

    ghost function Idle(): set<Thread>
      reads this`pool
    {
      set x | x in pool
    }

    /** Every allocated thread is in exactly one place: an entry of q, the pool, in hand as t, or among others. */
    ghost predicate Custody(q: Queue, t: Thread?, others: set<Thread>)
      reads this`pool, this`arena, q
    {
      var held, hand := Held(q.dense), if t == null then {} else {t};
      && arena == held + Idle() + hand + others
      && held !! Idle() && held !! hand && held !! others && Idle() !! hand && Idle() !! others && hand !! others
    }

    /** Threads are never forgotten, and those that were not there before are new. */
    twostate predicate Grows()
      reads this`arena
    {
      old(arena) <= arena && forall x :: x in arena && x !in old(arena) ==> fresh(x)
    }

    /** Takes a thread from the pool, or allocates one. */
    method Alloc(inst: nat) returns (t: Thread)
      requires PoolOk()
      modifies this`pool, this`arena, if pool == [] then {} else {pool[|pool| - 1]}
      ensures pool == (if old(pool) == [] then [] else old(pool)[..|old(pool)| - 1])
      ensures PoolOk() && t !in pool && t.inst == inst && |t.cap| == ncap
      ensures if old(pool) == [] then fresh(t) && arena == old(arena) + {t}
        else t == old(pool)[|old(pool)| - 1] && arena == old(arena)
    {
      if |pool| > 0 {
        t := pool[|pool| - 1];
        pool := pool[..|pool| - 1];
        t.inst := inst;
      } else {
        t := new Thread(inst, ncap);
        arena := arena + {t};
      }
    }

    /** A queue has room for an instruction that is not in it. */
    lemma RoomFor(q: Queue, pc: nat, pos: nat, L: seq<Trail<Config>>)
      requires Lists(q, L, pos) && pc < |prog.insts| && Config(pc, pos) !in Visited(L)
      ensures |q.dense| < |prog.insts| && forall i :: 0 <= i < |q.dense| ==> q.dense[i].pc != pc
    {
      forall i | 0 <= i < |q.dense| ensures q.dense[i].pc != pc && q.dense[i].pc < |prog.insts| {
        assert ListsAt(q, L[i], pos, i);
        assert L[i].node in Visited(L);
      }
      forall i, j | 0 <= i < j < |q.dense| ensures q.dense[i].pc != q.dense[j].pc {
        assert ListsAt(q, L[i], pos, i) && ListsAt(q, L[j], pos, j);
      }
      Room(q.dense, |prog.insts|, pc);
    }

    /** Pushes a new entry for t0 onto q: dense grows by one, within its capacity, and sparse points at it. */
    method PushEntry(q: Queue, pc: nat, pos: nat, u: Thread?, ghost t0: Trail<Config>, ghost L: seq<Trail<Config>>,
        ghost owner: Thread, ghost orig: seq<int>, ghost others: set<Thread>)
      requires Lists(q, L, pos) && 0 < pc < |prog.insts| && t0.node == Config(pc, pos) && t0.node !in Visited(L)
      requires u != null <==> Waits(prog.insts[pc])
      requires Carry(q, L, owner, orig) && (u != null ==> u in arena && Carries(u, pc, t0, owner, orig))
      modifies q`dense, q.sparse
      ensures q.dense == old(q.dense) + [Entry(pc, u)] && |q.dense| <= q.sparse.Length
      ensures Lists(q, L + [t0], pos) && Carry(q, L + [t0], owner, orig)
      ensures old(Custody(q, u, others)) ==> Custody(q, null, others)
    {
      HeldPush(q.dense, Entry(pc, u));
      RoomFor(q, pc, pos, L);
      q.sparse[pc] := |q.dense|;
      q.dense := q.dense + [Entry(pc, u)];
      forall i | 0 <= i < |L + [t0]| ensures ListsAt(q, (L + [t0])[i], pos, i) {
        if i < |L| { assert old(ListsAt(q, L[i], pos, i)); }
      }
    }

    /** Whether q has an entry for pc; sparse may hold anything for a pc that is not there. */
    method Contains(q: Queue, pc: nat, pos: nat, ghost L: seq<Trail<Config>>) returns (found: bool)
      requires Lists(q, L, pos) && pc < |prog.insts|
      ensures found <==> Config(pc, pos) in Visited(L)
    {
      var j := q.sparse[pc];
      found := j < |q.dense| && q.dense[j].pc == pc;
      if found {
        assert ListsAt(q, L[j], pos, j);
      }
    }

    ghost predicate Ready(q: Queue, L: seq<Trail<Config>>, pos: nat, owner: Thread, orig: seq<int>, t: Thread?,
        others: set<Thread>)
      reads this, q, q.sparse, arena, owner
    {
      && WellFormed(prog) && Lists(q, L, pos) && Carry(q, L, owner, orig) && PoolOk() && Custody(q, t, others)
      && owner !in Idle() && matchcap !in arena && |owner.cap| == ncap
      && (t != null ==> t == owner && owner.cap == orig)
    }

    /** The thread in hand is the owner itself. */
    method TakeOwn(q: Queue, pc: nat, pos: nat, owner: Thread, ghost orig: seq<int>, ghost t0: Trail<Config>,
        ghost L: seq<Trail<Config>>, ghost others: set<Thread>) returns (u: Thread)
      requires Ready(q, L, pos, owner, orig, owner, others) && owner.cap == RegistersOf(t0)
      modifies owner`inst
      ensures u == owner && owner.inst == pc
      ensures Carry(q, L, owner, orig) && PoolOk()
    {
      u := owner;
      u.inst := pc;
      forall i | 0 <= i < |L| && q.dense[i].t != null ensures Carries(q.dense[i].t, q.dense[i].pc, L[i], owner, orig) {
        HeldMember(q.dense, i);
        assert old(Carries(q.dense[i].t, q.dense[i].pc, L[i], owner, orig));
      }
    }

    /** A thread from the pool, or a new one, with a copy of the owner's registers. */
    method TakeSpare(q: Queue, pc: nat, pos: nat, owner: Thread, ghost orig: seq<int>, ghost t0: Trail<Config>,
        ghost L: seq<Trail<Config>>, ghost others: set<Thread>) returns (u: Thread)
      requires Ready(q, L, pos, owner, orig, null, others) && owner.cap == RegistersOf(t0)
      modifies this`pool, this`arena, pool
      ensures PoolOk() && u in arena && u != owner && u.inst == pc && u.cap == owner.cap == old(owner.cap) &&
        owner.inst == old(owner.inst)
      ensures Carry(q, L, owner, orig)
      ensures if old(pool) == [] then pool == [] && fresh(u) && arena == old(arena) + {u}
              else pool == old(pool)[..|old(pool)| - 1] && u == old(pool)[|old(pool)| - 1] && arena == old(arena)
    {
      if pool != [] { assert pool[|pool| - 1] in Idle(); }
      u := Alloc(pc);
      if ncap > 0 {
        u.cap := owner.cap;
      }
      forall i | 0 <= i < |L| && q.dense[i].t != null ensures Carries(q.dense[i].t, q.dense[i].pc, L[i], owner, orig) {
        HeldMember(q.dense, i);
        assert old(Carries(q.dense[i].t, q.dense[i].pc, L[i], owner, orig));
      }
    }

    /** Taking the last thread of the pool in hand. */
    lemma LastOfPool(before: seq<Thread>, u: Thread)
      requires before != [] && u == before[|before| - 1] && forall i, j :: 0 <= i < j < |before| ==>
        before[i] != before[j]
      ensures var after := before[..|before| - 1];
        (set x | x in before) == (set x | x in after) + {u} && u !in after
    {
      assert before == before[..|before| - 1] + [u];
    }

    /** Gives the entry being added a thread: t if the caller handed its own over, else one from
        Alloc with a copy of the registers. */
    method TakeThread(q: Queue, pc: nat, pos: nat, owner: Thread, t: Thread?, ghost orig: seq<int>,
        ghost t0: Trail<Config>, ghost L: seq<Trail<Config>>, ghost others: set<Thread>) returns (u: Thread)
      requires Ready(q, L, pos, owner, orig, t, others) && owner.cap == RegistersOf(t0)
      modifies this`pool, this`arena, owner`inst, pool
      ensures Carry(q, L, owner, orig) && PoolOk() && Custody(q, u, others) && u in arena &&
        Carries(u, pc, t0, owner, orig)
      ensures owner !in Idle() && matchcap !in arena
      ensures owner.cap == old(owner.cap) && (t == null ==> owner.inst == old(owner.inst))
      ensures Grows() && Idle() <= old(Idle())
    {
      if t != null {
        u := TakeOwn(q, pc, pos, owner, orig, t0, L, others);
      } else {
        ghost var before := pool;
        u := TakeSpare(q, pc, pos, owner, orig, t0, L, others);
        if before != [] { LastOfPool(before, u); }
      }
    }

    /** Enters a waiting instruction with its thread. */
    method AddThread(q: Queue, pc: nat, pos: nat, owner: Thread, t: Thread?, ghost orig: seq<int>,
        ghost t0: Trail<Config>, ghost L: seq<Trail<Config>>, ghost others: set<Thread>)
      requires Ready(q, L, pos, owner, orig, t, others)
      requires 0 < pc < |prog.insts| && Waits(prog.insts[pc]) && t0.node == Config(pc, pos) && t0.node !in Visited(L)
      requires owner.cap == RegistersOf(t0)
      modifies this`pool, this`arena, q`dense, q.sparse, owner`inst, pool
      ensures Ready(q, L + [t0], pos, owner, orig, null, others) && |q.dense| == |old(q.dense)| + 1 &&
        |q.dense| <= |prog.insts|
      ensures owner.cap == old(owner.cap) && (t == null ==> owner.inst == old(owner.inst))
      ensures Grows() && Idle() <= old(Idle())
    {
      var u := TakeThread(q, pc, pos, owner, t, orig, t0, L, others);
      PushEntry(q, pc, pos, u, t0, L, owner, orig, others);
    }

    /** Enters a placeholder for an instruction that only has empty transitions. */
    method AddPlace(q: Queue, pc: nat, pos: nat, owner: Thread, t: Thread?, ghost orig: seq<int>,
        ghost t0: Trail<Config>, ghost L: seq<Trail<Config>>, ghost others: set<Thread>)
      requires Ready(q, L, pos, owner, orig, t, others)
      requires 0 < pc < |prog.insts| && !Waits(prog.insts[pc]) && t0.node == Config(pc, pos) && t0.node !in Visited(L)
      modifies q`dense, q.sparse
      ensures Ready(q, L + [t0], pos, owner, orig, t, others) && |q.dense| == |old(q.dense)| + 1 &&
        |q.dense| <= |prog.insts|
    {
      PushEntry(q, pc, pos, null, t0, L, owner, orig, others);
      HeldPush(old(q.dense), Entry(pc, null));
    }

    /** Adds entries for everything reachable from pc by empty transitions under cond; hands t back unless an entry
        took it. */
    method Add(q: Queue, pc: nat, pos: nat, owner: Thread, cond: EmptyOp, t: Thread?, ghost orig: seq<int>,
        ghost prefix: seq<Config>, ghost L: seq<Trail<Config>>, ghost others: set<Thread>)
        returns (r: Thread?, ghost L': seq<Trail<Config>>)
      requires Ready(q, L, pos, owner, orig, t, others) && pc < |prog.insts|
      requires owner.cap == RegistersBefore(Trail(prefix, Config(pc, pos))) && |q.dense| <= |prog.insts|
      modifies this`pool, this`arena, q`dense, q.sparse, owner, pool
      ensures L' == Explore(Level(prog, pos, cond), [Trail(prefix, Config(pc, pos))], L)
      ensures Ready(q, L', pos, owner, orig, r, others) && (r == null || r == t)
      ensures owner.cap == old(owner.cap) && (t == null ==> owner.inst == old(owner.inst))
      ensures Grows() && Idle() <= old(Idle())
      ensures |old(q.dense)| <= |q.dense| <= |prog.insts|
      decreases |prog.insts| - |q.dense|, 1
    {
      ghost var g, t0 := Level(prog, pos, cond), Trail(prefix, Config(pc, pos));
      LevelDomain(prog, pos, cond);
      if pc == 0 {
        ExploreVisited(g, t0, L);
        return t, L;
      }
      var found := Contains(q, pc, pos, L);
      if found {
        ExploreVisited(g, t0, L);
        return t, L;
      }
      r, L' := AddNew(q, pc, pos, owner, cond, t, orig, t0, L, others);
    }

    /** Enters pc, which is not yet in the queue. */
    method AddNew(q: Queue, pc: nat, pos: nat, owner: Thread, cond: EmptyOp, t: Thread?, ghost orig: seq<int>,
        ghost t0: Trail<Config>, ghost L: seq<Trail<Config>>, ghost others: set<Thread>)
        returns (r: Thread?, ghost L': seq<Trail<Config>>)
      requires Ready(q, L, pos, owner, orig, t, others) && 0 < pc < |prog.insts|
      requires t0.node == Config(pc, pos) && t0.node !in Visited(L)
      requires owner.cap == RegistersBefore(t0) && |q.dense| <= |prog.insts|
      modifies this`pool, this`arena, q`dense, q.sparse, owner, pool
      ensures L' == Explore(Level(prog, pos, cond), [t0], L)
      ensures Ready(q, L', pos, owner, orig, r, others) && (r == null || r == t)
      ensures owner.cap == old(owner.cap) && (t == null ==> owner.inst == old(owner.inst))
      ensures Grows() && Idle() <= old(Idle())
      ensures |old(q.dense)| < |q.dense| <= |prog.insts|
      decreases |prog.insts| - |q.dense|, 0
    {
      if Waits(prog.insts[pc]) {
        LevelDomain(prog, pos, cond);
        RegistersStep(prog, ncap, t0.Path()[0].pos, t0);
        ExploreLeaf(Level(prog, pos, cond), t0, L);
        AddThread(q, pc, pos, owner, t, orig, t0, L, others);
        return null, L + [t0];
      }
      AddPlace(q, pc, pos, owner, t, orig, t0, L, others);
      r, L' := AddEmpty(q, pc, pos, owner, cond, t, orig, t0, L, others);
    }

    /** The registers of a trail before its last instruction has run. */
    ghost function RegistersBefore(t: Trail<Config>): seq<int> { Registers(prog, ncap, t.Path()[0].pos, t.prefix) }

    /** Follows the empty transitions of t0, which has just been entered. */
    method AddEmpty(q: Queue, pc: nat, pos: nat, owner: Thread, cond: EmptyOp, t: Thread?, ghost orig: seq<int>,
        ghost t0: Trail<Config>, ghost L: seq<Trail<Config>>, ghost others: set<Thread>)
        returns (r: Thread?, ghost L': seq<Trail<Config>>)
      requires Ready(q, L + [t0], pos, owner, orig, t, others) && 0 < pc < |prog.insts| && !Waits(prog.insts[pc])
      requires t0.node == Config(pc, pos) && t0.node !in Visited(L)
      requires owner.cap == RegistersBefore(t0) && |q.dense| <= |prog.insts|
      modifies this`pool, this`arena, q`dense, q.sparse, owner, pool
      ensures L' == Explore(Level(prog, pos, cond), [t0], L)
      ensures Ready(q, L', pos, owner, orig, r, others) && (r == null || r == t)
      ensures owner.cap == old(owner.cap) && (t == null ==> owner.inst == old(owner.inst))
      ensures Grows() && Idle() <= old(Idle())
      ensures |old(q.dense)| <= |q.dense| <= |prog.insts|
      decreases |prog.insts| - |q.dense|, 3
    {
      ghost var g := Level(prog, pos, cond);
      LevelDomain(prog, pos, cond);
      var i := prog.insts[pc];
      assert InstOk(i, |prog.insts|);
      RegistersStep(prog, ncap, t0.Path()[0].pos, t0);
      r, L' := t, L + [t0];
      if i.Alt? {
        r, L' := AddLegs(q, i.out, i.arg, pos, owner, cond, t, orig, t0, L, others);
      } else if i.Capture? && i.reg < |owner.cap| {
        ExploreOne(g, t0, L, Config(i.out, pos));
        L' := AddCapture(q, i.out, i.reg, pos, owner, cond, t, orig, t0.Path(), L', others);
      } else if i.Capture? || i.Nop? || (i.EmptyWidth? && Satisfied(i.cond, cond)) {
        r, L' := AddOut(q, i.out, pos, owner, cond, t, orig, t0, L, others);
      } else {
        ExploreLeaf(g, t0, L);
      }
    }

    /** Adds the only successor of t0. */
    method AddOut(q: Queue, out: nat, pos: nat, owner: Thread, cond: EmptyOp, t: Thread?, ghost orig: seq<int>,
        ghost t0: Trail<Config>, ghost L: seq<Trail<Config>>, ghost others: set<Thread>)
        returns (r: Thread?, ghost L': seq<Trail<Config>>)
      requires Ready(q, L + [t0], pos, owner, orig, t, others) && out < |prog.insts| && t0.node !in Visited(L)
      requires t0.node in Level(prog, pos, cond) && Level(prog, pos, cond)[t0.node] == [Config(out, pos)]
      requires owner.cap == RegistersOf(t0) && |q.dense| <= |prog.insts|
      modifies this`pool, this`arena, q`dense, q.sparse, owner, pool
      ensures L' == Explore(Level(prog, pos, cond), [t0], L)
      ensures Ready(q, L', pos, owner, orig, r, others) && (r == null || r == t)
      ensures owner.cap == old(owner.cap) && (t == null ==> owner.inst == old(owner.inst))
      ensures Grows() && Idle() <= old(Idle())
      ensures |old(q.dense)| <= |q.dense| <= |prog.insts|
      decreases |prog.insts| - |q.dense|, 2
    {
      ExploreOne(Level(prog, pos, cond), t0, L, Config(out, pos));
      r, L' := Add(q, out, pos, owner, cond, t, orig, t0.Path(), L + [t0], others);
    }

    /** Adds both successors of t0, the preferred one first. */
    method AddLegs(q: Queue, out: nat, arg: nat, pos: nat, owner: Thread, cond: EmptyOp, t: Thread?,
        ghost orig: seq<int>, ghost t0: Trail<Config>, ghost L: seq<Trail<Config>>, ghost others: set<Thread>)
        returns (r: Thread?, ghost L': seq<Trail<Config>>)
      requires Ready(q, L + [t0], pos, owner, orig, t, others) && out < |prog.insts| && arg < |prog.insts|
      requires t0.node in Level(prog, pos, cond) && t0.node !in Visited(L)
      requires Level(prog, pos, cond)[t0.node] == [Config(out, pos), Config(arg, pos)]
      requires owner.cap == RegistersOf(t0) && |q.dense| <= |prog.insts|
      modifies this`pool, this`arena, q`dense, q.sparse, owner, pool
      ensures L' == Explore(Level(prog, pos, cond), [t0], L)
      ensures Ready(q, L', pos, owner, orig, r, others) && (r == null || r == t)
      ensures owner.cap == old(owner.cap) && (t == null ==> owner.inst == old(owner.inst))
      ensures Grows() && Idle() <= old(Idle())
      ensures |old(q.dense)| <= |q.dense| <= |prog.insts|
      decreases |prog.insts| - |q.dense|, 2
    {
      ExploreTwo(Level(prog, pos, cond), t0, L, Config(out, pos), Config(arg, pos));
      r, L' := Add(q, out, pos, owner, cond, t, orig, t0.Path(), L + [t0], others);
      r, L' := Add(q, arg, pos, owner, cond, r, orig, t0.Path(), L', others);
    }

    /** Adds what follows an InstCapture with the register set, and puts the register back. The
        thread in hand stays in hand: entries below need registers of their own. */
    method AddCapture(q: Queue, out: nat, reg: nat, pos: nat, owner: Thread, cond: EmptyOp, t: Thread?,
        ghost orig: seq<int>, ghost P: seq<Config>, ghost L: seq<Trail<Config>>, ghost others: set<Thread>)
        returns (ghost L': seq<Trail<Config>>)
      requires Ready(q, L, pos, owner, orig, t, others) && out < |prog.insts| && reg < |owner.cap|
      requires owner.cap[reg := pos] == RegistersBefore(Trail(P, Config(out, pos))) && |q.dense| <= |prog.insts|
      modifies this`pool, this`arena, q`dense, q.sparse, owner, pool
      ensures L' == Explore(Level(prog, pos, cond), [Trail(P, Config(out, pos))], L)
      ensures Ready(q, L', pos, owner, orig, t, others)
      ensures owner.cap == old(owner.cap) && owner.inst == old(owner.inst)
      ensures Grows() && Idle() <= old(Idle())
      ensures |old(q.dense)| <= |q.dense| <= |prog.insts|
      decreases |prog.insts| - |q.dense|, 2
    {
      ghost var aside := others + if t == null then {} else {t};
      var opos := owner.cap[reg];
      SetRegister(q, reg, pos, owner, t, null, pos, L, orig, others, aside);
      var r;
      r, L' := Add(q, out, pos, owner, cond, null, orig, P, L, aside);
      SetRegister(q, reg, opos, owner, null, t, pos, L', orig, aside, others);
    }

    /** Sets a register of owner; the queue does not see it. The thread in hand is put aside,
        or, once the registers are the original ones again, taken back. */
    method SetRegister(q: Queue, reg: nat, v: int, owner: Thread, t: Thread?, ghost t': Thread?, ghost pos: nat,
        ghost L: seq<Trail<Config>>, ghost orig: seq<int>, ghost others: set<Thread>, ghost others': set<Thread>)
      requires Ready(q, L, pos, owner, orig, t, others) && reg < |owner.cap|
      requires others + (if t == null then {} else {t}) == others' + (if t' == null then {} else {t'})
      requires t' != null ==> t' !in others' && t' == owner && owner.cap[reg := v] == orig
      modifies owner`cap
      ensures owner.cap == old(owner.cap)[reg := v]
      ensures Ready(q, L, pos, owner, orig, t', others')
    {
      owner.cap := owner.cap[reg := v];
    }

    /** In the middle of a step: the threads of runq from j on still have to run, nextq holds those of N. */
    ghost predicate Busy(runq: Queue, nextq: Queue, L: seq<Trail<Config>>, N: seq<Trail<Config>>, j: nat, pos: nat,
        nextPos: nat)
      reads this, runq, runq.sparse, nextq, nextq.sparse, arena, matchcap
    {
      && WellFormed(prog) && runq != nextq && runq.sparse != nextq.sparse
      && Lists(runq, L, pos) && j <= |runq.dense| && Loaded(runq, L, j)
      && Lists(nextq, N, nextPos) && Loaded(nextq, N, 0) && |nextq.dense| <= |prog.insts|
      && PoolOk() && Custody(nextq, null, HeldFrom(runq.dense, j))
      && matchcap !in arena && |matchcap.cap| == ncap
    }

    /** Every thread from entry j on carries the instruction and the registers of its trail. */
    ghost predicate Loaded(q: Queue, L: seq<Trail<Config>>, j: nat)
      reads this`arena, q, arena
    {
      |q.dense| == |L| && forall i :: j <= i < |L| && q.dense[i].t != null ==>
        q.dense[i].t in arena && q.dense[i].t.inst == q.dense[i].pc && q.dense[i].t.cap == RegistersOf(L[i])
    }

    /** Puts a thread in hand back into the pool. */
    method Free(q: Queue, t: Thread, ghost others: set<Thread>)
      requires PoolOk() && Custody(q, t, others) && |t.cap| == ncap
      modifies this`pool
      ensures pool == old(pool) + [t] && PoolOk() && Custody(q, null, others)
    {
      pool := pool + [t];
      assert Idle() == old(Idle()) + {t};
    }

    /** Threads of one queue differ, because their instructions do. */
    lemma ThreadsDiffer(q: Queue, L: seq<Trail<Config>>, j: nat, pos: nat)
      requires Lists(q, L, pos) && j < |q.dense| && Loaded(q, L, j) && q.dense[j].t != null
      ensures q.dense[j].t !in HeldFrom(q.dense, j + 1)
    {
      if q.dense[j].t in HeldFrom(q.dense, j + 1) {
        HeldFromMember(q.dense, j + 1, q.dense[j].t);
      }
    }

    /** Takes the thread of entry j in hand. */
    lemma InHand(runq: Queue, nextq: Queue, L: seq<Trail<Config>>, N: seq<Trail<Config>>, j: nat, pos: nat,
        nextPos: nat)
      requires Busy(runq, nextq, L, N, j, pos, nextPos) && j < |runq.dense| && runq.dense[j].t != null
      ensures var t := runq.dense[j].t; var others := HeldFrom(runq.dense, j + 1);
        && Ready(nextq, N, nextPos, t, t.cap, t, others) && t.inst == runq.dense[j].pc && t.cap == RegistersOf(L[j])
        && t.inst < |prog.insts| && Waits(prog.insts[t.inst]) && L[j].node == Config(t.inst, pos)
        && forall i :: j < i < |runq.dense| && runq.dense[i].t != null ==>
          runq.dense[i].t in others && runq.dense[i].t !in Idle() && runq.dense[i].t != t
    {
      ThreadsDiffer(runq, L, j, pos);
      assert ListsAt(runq, L[j], pos, j);
      forall i | j < i < |runq.dense| && runq.dense[i].t != null
        ensures runq.dense[i].t in HeldFrom(runq.dense, j + 1) {
        HeldFromHas(runq.dense, j + 1, i);
      }
    }

    /** q is in order and no thread is in hand. */
    ghost predicate AtRest(q: Queue, L: seq<Trail<Config>>, pos: nat, others: set<Thread>)
      reads this, q, q.sparse, arena
    {
      && WellFormed(prog) && Lists(q, L, pos) && Loaded(q, L, 0) && |q.dense| <= |prog.insts|
      && PoolOk() && Custody(q, null, others) && matchcap !in arena
    }

    /** Moves the thread in hand to where its instruction leads, and what Add does not keep to the pool. */
    method MoveThread(q: Queue, t: Thread, go: bool, out: nat, pos: nat, cond: EmptyOp, ghost P: seq<Config>,
        ghost N: seq<Trail<Config>>, ghost others: set<Thread>) returns (ghost N': seq<Trail<Config>>)
      requires Ready(q, N, pos, t, t.cap, t, others) && out < |prog.insts| && |q.dense| <= |prog.insts|
      requires go ==> t.cap == RegistersBefore(Trail(P, Config(out, pos)))
      modifies this`pool, this`arena, q`dense, q.sparse, t, pool
      ensures AtRest(q, N', pos, others) && Grows()
      ensures N' == if go then Explore(Level(prog, pos, cond), [Trail(P, Config(out, pos))], N) else N
    {
      N' := N;
      var rest: Thread? := t;
      if go {
        rest, N' := Add(q, out, pos, t, cond, t, t.cap, P, N, others);
      }
      if rest != null {
        Free(q, rest, others);
      }
    }

    /** Moves thread j out of the run queue. */
    method MoveOn(runq: Queue, nextq: Queue, j: nat, go: bool, out: nat, ghost pos: nat, nextPos: nat,
        nextCond: EmptyOp, ghost P: seq<Config>, ghost L: seq<Trail<Config>>, ghost N: seq<Trail<Config>>)
        returns (ghost N': seq<Trail<Config>>)
      requires Busy(runq, nextq, L, N, j, pos, nextPos) && j < |runq.dense| && runq.dense[j].t != null
      requires out < |prog.insts| && (go ==> RegistersOf(L[j]) == RegistersBefore(Trail(P, Config(out, nextPos))))
      modifies this`pool, this`arena, nextq`dense, nextq.sparse, runq.dense[j].t, pool
      ensures Busy(runq, nextq, L, N', j + 1, pos, nextPos) && Grows() && matchcap.cap == old(matchcap.cap)
      ensures N' == if go then Explore(Level(prog, nextPos, nextCond), [Trail(P, Config(out, nextPos))], N) else N
    {
      InHand(runq, nextq, L, N, j, pos, nextPos);
      N' := MoveThread(nextq, runq.dense[j].t, go, out, nextPos, nextCond, P, N, HeldFrom(runq.dense, j + 1));
    }

    /** Runs thread j, which waits at a rune instruction: on to nextq with its registers, or back to the pool. */
    method RunRune(runq: Queue, nextq: Queue, j: nat, c: int, pos: nat, nextPos: nat, nextCond: EmptyOp,
        ghost g: Terms, ghost L: seq<Trail<Config>>, ghost N: seq<Trail<Config>>)
        returns (ghost N': seq<Trail<Config>>)
      requires Busy(runq, nextq, L, N, j, pos, nextPos) && j < |runq.dense| && runq.dense[j].t != null
      requires g.prog == prog && nextPos == pos + StepWidth(g.text, pos) && c == StepRune(g.text, pos)
      requires L[j].node.pc == runq.dense[j].pc < |prog.insts| && Waits(prog.insts[L[j].node.pc]) &&
        !prog.insts[L[j].node.pc].Match?
      modifies this`pool, this`arena, nextq`dense, nextq.sparse, runq.dense[j].t, pool
      ensures Busy(runq, nextq, L, N', j + 1, pos, nextPos) && Grows() && matchcap.cap == old(matchcap.cap)
      ensures N' == AfterRune(g, pos, L[j], N, nextCond)
    {
      InHand(runq, nextq, L, N, j, pos, nextPos);
      var inst := prog.insts[runq.dense[j].t.inst];
      assert InstOk(inst, |prog.insts|);
      BehindPath(L[j], Config(inst.out, nextPos));
      N' := MoveOn(runq, nextq, j, Passes(inst, c), inst.out, pos, nextPos, nextCond, L[j].Path(), L, N);
      RuneMoved(g, pos, L[j], N, nextCond, N');
    }

    lemma BehindPath(t: Trail<Config>, d: Config)
      ensures RegistersOf(t) == RegistersBefore(Trail(t.Path(), d))
    {
      assert (t.Path() + [d])[0] == t.Path()[0];
    }

    /** Every thread is in the pool, among the busy ones or among the kept ones. */
    ghost predicate Parted(busy: set<Thread>, kept: set<Thread>)
      reads this`pool, this`arena
    {
      arena == busy + Idle() + kept && busy !! Idle() && busy !! kept && Idle() !! kept
    }

    /** Puts the threads of q from entry j on into the pool. */
    method FreeFrom(q: Queue, j: nat, ghost pos: nat, ghost L: seq<Trail<Config>>, ghost kept: set<Thread>)
      requires Lists(q, L, pos) && j <= |q.dense| && Loaded(q, L, j) && PoolOk() && Parted(HeldFrom(q.dense, j), kept)
      modifies this`pool
      ensures PoolOk() && Parted({}, kept)
    {
      var k := j;
      while k < |q.dense|
        invariant j <= k <= |q.dense| && PoolOk() && Parted(HeldFrom(q.dense, k), kept)
      {
        if q.dense[k].t != null {
          ThreadsDiffer(q, L, k, pos);
          ghost var was := Idle();
          pool := pool + [q.dense[k].t];
          assert Idle() == was + {q.dense[k].t};
        }
        k := k + 1;
      }
    }

    /** Frees thread j without running it. */
    method Discard(runq: Queue, nextq: Queue, j: nat, pos: nat, nextPos: nat, ghost L: seq<Trail<Config>>,
        ghost N: seq<Trail<Config>>)
      requires Busy(runq, nextq, L, N, j, pos, nextPos) && j < |runq.dense| && runq.dense[j].t != null
      modifies this`pool
      ensures Busy(runq, nextq, L, N, j + 1, pos, nextPos)
    {
      InHand(runq, nextq, L, N, j, pos, nextPos);
      Free(nextq, runq.dense[j].t, HeldFrom(runq.dense, j + 1));
    }

    /** Records the match at which t has arrived, unless a longer one is on record. */
    method Record(t: Thread, pos: nat)
      requires |t.cap| == ncap == |matchcap.cap| && ncap != 1 && t != matchcap
      modifies this`matched, t`cap, matchcap`cap
      ensures matched && |t.cap| == ncap
      ensures var record := ncap > 0 && (!longest || !old(matched) || old(matchcap.cap[1]) < pos);
        matchcap.cap == if record then old(t.cap)[1 := pos] else old(matchcap.cap)
    {
      if |t.cap| > 0 && (!longest || !matched || matchcap.cap[1] < pos) {
        t.cap := t.cap[1 := pos];
        matchcap.cap := t.cap;
      }
      matched := true;
    }

    /** As Busy from j + 1 on, with the thread of entry j in hand. */
    ghost predicate BusyHand(runq: Queue, nextq: Queue, L: seq<Trail<Config>>, N: seq<Trail<Config>>, j: nat, pos: nat,
        nextPos: nat)
      reads this, runq, runq.sparse, nextq, nextq.sparse, arena, matchcap
    {
      && WellFormed(prog) && runq != nextq && runq.sparse != nextq.sparse
      && Lists(runq, L, pos) && j < |runq.dense| && Loaded(runq, L, j + 1)
      && Lists(nextq, N, nextPos) && Loaded(nextq, N, 0) && |nextq.dense| <= |prog.insts|
      && runq.dense[j].t != null && runq.dense[j].t in arena && |runq.dense[j].t.cap| == ncap
      && PoolOk() && Custody(nextq, runq.dense[j].t, HeldFrom(runq.dense, j + 1))
      && matchcap !in arena && |matchcap.cap| == ncap
    }

    /** Takes thread j in hand and records its match. */
    method RecordAt(runq: Queue, nextq: Queue, j: nat, pos: nat, nextPos: nat, ghost L: seq<Trail<Config>>,
        ghost N: seq<Trail<Config>>)
      requires Busy(runq, nextq, L, N, j, pos, nextPos) && j < |runq.dense| && runq.dense[j].t != null && ncap != 1
      modifies this`matched, runq.dense[j].t, matchcap
      ensures matched && BusyHand(runq, nextq, L, N, j, pos, nextPos)
      ensures var record := ncap > 0 && (!longest || !old(matched) || old(matchcap.cap[1]) < pos);
        matchcap.cap == if record then RegistersOf(L[j])[1 := pos] else old(matchcap.cap)
    {
      InHand(runq, nextq, L, N, j, pos, nextPos);
      forall i | 0 <= i < |nextq.dense| && nextq.dense[i].t != null
        ensures nextq.dense[i].t in Held(nextq.dense) { HeldMember(nextq.dense, i); }
      Record(runq.dense[j].t, pos);
    }

    /** First-match mode: frees every thread behind j, then the thread of entry j. */
    method CutOff(runq: Queue, nextq: Queue, j: nat, pos: nat, nextPos: nat, ghost L: seq<Trail<Config>>,
        ghost N: seq<Trail<Config>>)
      requires BusyHand(runq, nextq, L, N, j, pos, nextPos)
      modifies this`pool, runq`dense
      ensures runq.dense == [] && Busy(runq, nextq, [], N, 0, pos, nextPos)
    {
      var t := runq.dense[j].t;
      FreeFrom(runq, j + 1, pos, L, {t} + Held(nextq.dense));
      runq.dense := [];
      Free(nextq, t, {});
    }

    /** Longest mode: only the thread of entry j is done. */
    method FreeHand(runq: Queue, nextq: Queue, j: nat, pos: nat, nextPos: nat, ghost L: seq<Trail<Config>>,
        ghost N: seq<Trail<Config>>)
      requires BusyHand(runq, nextq, L, N, j, pos, nextPos)
      modifies this`pool
      ensures Busy(runq, nextq, L, N, j + 1, pos, nextPos)
    {
      Free(nextq, runq.dense[j].t, HeldFrom(runq.dense, j + 1));
    }

    /** Runs thread j, which waits at InstMatch; in first-match mode cuts off all threads behind it. */
    method RunMatch(runq: Queue, nextq: Queue, j: nat, pos: nat, nextPos: nat, ghost L: seq<Trail<Config>>,
        ghost N: seq<Trail<Config>>)
      requires Busy(runq, nextq, L, N, j, pos, nextPos) && j < |runq.dense| && runq.dense[j].t != null && ncap != 1
      modifies this`pool, this`matched, runq.dense[j].t, matchcap, runq`dense
      ensures matched
      ensures longest ==> Busy(runq, nextq, L, N, j + 1, pos, nextPos) && runq.dense == old(runq.dense)
      ensures !longest ==> runq.dense == [] && Busy(runq, nextq, [], N, 0, pos, nextPos)
      ensures var record := ncap > 0 && (!longest || !old(matched) || old(matchcap.cap[1]) < pos);
        matchcap.cap == if record then RegistersOf(L[j])[1 := pos] else old(matchcap.cap)
    {
      RecordAt(runq, nextq, j, pos, nextPos, L, N);
      if !longest {
        CutOff(runq, nextq, j, pos, nextPos, L, N);
      } else {
        FreeHand(runq, nextq, j, pos, nextPos, L, N);
      }
    }

    /** What the machine's registers hold: the match on record, or -1 everywhere but in register 0. */
    ghost predicate Kept(best: seq<Config>)
      reads this`matched, matchcap
    {
      && |matchcap.cap| == ncap
      && if matched then ncap > 0 ==> best != [] && matchcap.cap == Report(prog, ncap, best)
         else forall k :: 1 <= k < ncap ==> matchcap.cap[k] == -1
    }

    /** The machine searches what g says. */
    ghost predicate Searches(g: Terms) { g.prog == prog && g.longest == longest && g.ncap == ncap && Fair(g) }

    /** A placeholder has nothing to run. */
    lemma SkipEntry(runq: Queue, nextq: Queue, L: seq<Trail<Config>>, N: seq<Trail<Config>>, j: nat, pos: nat,
        nextPos: nat)
      requires Busy(runq, nextq, L, N, j, pos, nextPos) && j < |runq.dense| && runq.dense[j].t == null
      ensures Busy(runq, nextq, L, N, j + 1, pos, nextPos)
    {
      assert HeldFrom(runq.dense, j) == HeldFrom(runq.dense, j + 1);
    }

    /** The books after entry j has been dealt with: the rest of L still to run, or, cut off, nothing. */
    ghost predicate Goes(runq: Queue, nextq: Queue, g: Terms, L: seq<Trail<Config>>, N: seq<Trail<Config>>, j: nat,
        pos: nat, nextPos: nat, best: seq<Config>)
      reads this, runq, runq.sparse, nextq, nextq.sparse, arena, matchcap
    {
      && Searches(g) && Kept(best) && NextOk(g, pos, N) && AllRuns(prog, g.text, g.lo, pos, pos, L)
      && Busy(runq, nextq, L, N, j, pos, nextPos) && Books(g, pos, L[j..], N, matched, best)
    }

    /** The trail of entry j is the first of those still to run. */
    lemma Current(runq: Queue, L: seq<Trail<Config>>, j: nat, pos: nat, text: Text, lo: nat)
      requires Lists(runq, L, pos) && j < |L| && AllRuns(prog, text, lo, pos, pos, L)
      ensures L[j..][0] == L[j] && L[j..][1..] == L[j + 1..]
      ensures RunTrail(prog, text, lo, pos, pos, L[j]) && L[j].node == Config(runq.dense[j].pc, pos) &&
        0 < runq.dense[j].pc < |prog.insts|
      ensures Waits(prog.insts[runq.dense[j].pc]) <==> runq.dense[j].t != null
    {
      assert ListsAt(runq, L[j], pos, j);
    }

    /** Runs the thread of entry j, as the body of the loop in step does. */
    method RunThread(runq: Queue, nextq: Queue, j: nat, pos: nat, nextPos: nat, c: int, nextCond: EmptyOp,
        ghost g: Terms, ghost L: seq<Trail<Config>>, ghost N: seq<Trail<Config>>, ghost best: seq<Config>)
        returns (ghost L': seq<Trail<Config>>, ghost N': seq<Trail<Config>>, ghost best': seq<Config>)
      requires pos <= |g.text| && nextPos == pos + StepWidth(g.text, pos) && c == StepRune(g.text, pos)
      requires pos < |g.text| ==> nextCond == Context(g.text, pos + 1)
      requires Goes(runq, nextq, g, L, N, j, pos, nextPos, best) && j < |runq.dense|
      modifies this`pool, this`arena, this`matched, nextq`dense, nextq.sparse, runq`dense, matchcap, arena
      ensures Grows()
      ensures Goes(runq, nextq, g, L', N', if L' == [] then 0 else j + 1, pos, nextPos, best')
      ensures L' != [] ==> L' == L && runq.dense == old(runq.dense)
    {
      L', N', best' := L, N, best;
      Current(runq, L, j, pos, g.text, g.lo);
      var t := runq.dense[j].t;
      if t == null {
        SkipEntry(runq, nextq, L, N, j, pos, nextPos);
        SkipPlace(g, pos, L[j..], N, matched, best);
        return;
      }
      assert t in arena && t.inst == runq.dense[j].pc && t.cap == RegistersOf(L[j]);
      if longest && matched && |t.cap| > 0 && matchcap.cap[0] < t.cap[0] {
        DropThread(runq, nextq, j, pos, nextPos, g, L, N, best);
      } else if prog.insts[t.inst].Match? {
        L', best' := RunAtMatch(runq, nextq, j, pos, nextPos, g, L, N, best);
      } else {
        N' := RunAtRune(runq, nextq, j, pos, nextPos, c, nextCond, g, L, N, best);
      }
    }

    /** Longest mode: frees a thread that started to the right of the match on record. */
    method DropThread(runq: Queue, nextq: Queue, j: nat, pos: nat, nextPos: nat, ghost g: Terms,
        ghost L: seq<Trail<Config>>, ghost N: seq<Trail<Config>>, ghost best: seq<Config>)
      requires Goes(runq, nextq, g, L, N, j, pos, nextPos, best) && j < |runq.dense| && runq.dense[j].t != null
      requires longest && matched && ncap > 0 && matchcap.cap[0] < RegistersOf(L[j])[0]
      modifies this`pool
      ensures Goes(runq, nextq, g, L, N, j + 1, pos, nextPos, best)
    {
      Current(runq, L, j, pos, g.text, g.lo);
      OwnRegisters(prog, ncap, L[j].Path()[0].pos, L[j].Path());
      OwnReport(prog, ncap, best);
      DropLate(g, pos, L[j..], N, best);
      Discard(runq, nextq, j, pos, nextPos, L, N);
    }

    method RunAtRune(runq: Queue, nextq: Queue, j: nat, pos: nat, nextPos: nat, c: int, nextCond: EmptyOp,
        ghost g: Terms, ghost L: seq<Trail<Config>>, ghost N: seq<Trail<Config>>, ghost best: seq<Config>)
        returns (ghost N': seq<Trail<Config>>)
      requires pos <= |g.text| && nextPos == pos + StepWidth(g.text, pos) && c == StepRune(g.text, pos)
      requires pos < |g.text| ==> nextCond == Context(g.text, pos + 1)
      requires Goes(runq, nextq, g, L, N, j, pos, nextPos, best) && j < |runq.dense| && runq.dense[j].t != null
      requires !prog.insts[runq.dense[j].pc].Match?
      modifies this`pool, this`arena, nextq`dense, nextq.sparse, runq.dense[j].t, pool
      ensures Goes(runq, nextq, g, L, N', j + 1, pos, nextPos, best) && Grows()
    {
      Current(runq, L, j, pos, g.text, g.lo);
      RuneStep(g, pos, L[j..], N, nextCond, matched, best);
      N' := RunRune(runq, nextq, j, c, pos, nextPos, nextCond, g, L, N);
    }

    method RunAtMatch(runq: Queue, nextq: Queue, j: nat, pos: nat, nextPos: nat, ghost g: Terms,
        ghost L: seq<Trail<Config>>, ghost N: seq<Trail<Config>>, ghost best: seq<Config>)
        returns (ghost L': seq<Trail<Config>>, ghost best': seq<Config>)
      requires pos <= |g.text|
      requires Goes(runq, nextq, g, L, N, j, pos, nextPos, best) && j < |runq.dense| && runq.dense[j].t != null
      requires prog.insts[runq.dense[j].pc].Match?
      requires longest && matched && ncap > 0 ==> RegistersOf(L[j])[0] <= matchcap.cap[0]
      modifies this`pool, this`matched, runq`dense, matchcap, runq.dense[j].t
      ensures Goes(runq, nextq, g, L', N, if L' == [] then 0 else j + 1, pos, nextPos, best')
      ensures L' != [] ==> L' == L && runq.dense == old(runq.dense)
    {
      ghost var R, P := L[j..], L[j].Path();
      Current(runq, L, j, pos, g.text, g.lo);
      if longest {
        if matched && ncap > 0 {
          OwnReport(prog, ncap, best);
          OwnRegisters(prog, ncap, P[0].pos, P);
        }
        LongestMatchStep(g, pos, R, N, matched, best);
        L', best' := L, if !matched || best == [] || best[|best| - 1].pos < pos then P else best;
      } else {
        FirstMatchStep(g, pos, R, N, matched, best);
        L', best' := [], P;
      }
      RunMatch(runq, nextq, j, pos, nextPos, L, N);
    }

    /** Runs every thread of runq on the rune at pos, in order; those behind a match may be cut off. */
    method RunAll(runq: Queue, nextq: Queue, pos: nat, nextPos: nat, c: int, nextCond: EmptyOp, ghost g: Terms,
        ghost L: seq<Trail<Config>>, ghost best: seq<Config>)
        returns (ghost R: seq<Trail<Config>>, ghost i: nat, ghost N: seq<Trail<Config>>, ghost best': seq<Config>)
      requires pos <= |g.text| && nextPos == pos + StepWidth(g.text, pos) && c == StepRune(g.text, pos)
      requires pos < |g.text| ==> nextCond == Context(g.text, pos + 1)
      requires Goes(runq, nextq, g, L, [], 0, pos, nextPos, best)
      modifies this`pool, this`arena, this`matched, nextq`dense, nextq.sparse, runq`dense, matchcap, arena
      ensures Goes(runq, nextq, g, R, N, i, pos, nextPos, best') && Grows() && i >= |runq.dense|
    {
      N, best', R := [], best, L;
      var j := 0;
      while j < |runq.dense|
        invariant R != [] ==> R == L && j <= |L|
        invariant Goes(runq, nextq, g, R, N, if R == [] then 0 else j, pos, nextPos, best') && Grows()
        decreases |L| - j
      {
        ghost var R0 := R;
        R, N, best' := RunThread(runq, nextq, j, pos, nextPos, c, nextCond, g, R0, N, best');
        j := j + 1;
      }
      i := if R == [] then 0 else j;
    }

    /** One step: the threads of runq on the rune at pos leave the threads for nextPos in nextq. */
    method Step(runq: Queue, nextq: Queue, pos: nat, nextPos: nat, c: int, nextCond: EmptyOp, ghost g: Terms,
        ghost L: seq<Trail<Config>>, ghost best: seq<Config>)
        returns (ghost N: seq<Trail<Config>>, ghost best': seq<Config>)
      requires pos <= |g.text| && nextPos == pos + StepWidth(g.text, pos) && c == StepRune(g.text, pos)
      requires pos < |g.text| ==> nextCond == Context(g.text, pos + 1)
      requires Goes(runq, nextq, g, L, [], 0, pos, nextPos, best)
      modifies this`pool, this`arena, this`matched, nextq`dense, nextq.sparse, runq`dense, matchcap, arena
      ensures runq.dense == [] && AtRest(nextq, N, nextPos, {}) && Grows()
      ensures Searches(g) && Kept(best') && NextOk(g, pos, N) && Books(g, pos, [], N, matched, best')
    {
      ghost var R, i;
      R, i, N, best' := RunAll(runq, nextq, pos, nextPos, c, nextCond, g, L, best);
      runq.dense := [];
    }

    /** Frees all threads on q. */
    method Clear(q: Queue, ghost pos: nat, ghost N: seq<Trail<Config>>)
      requires AtRest(q, N, pos, {})
      modifies this`pool, q`dense
      ensures q.dense == [] && Rested()
    {
      HeldSplit(q.dense, 0);
      FreeFrom(q, 0, pos, N, {});
      q.dense := [];
    }

    /** Between searches every thread is in the pool. */
    ghost predicate Rested()
      reads this`pool, this`arena, arena
    {
      PoolOk() && arena == Idle() && matchcap !in arena
    }

    /** Between two steps: runq holds the threads of L, nextq none. */
    ghost predicate Top(runq: Queue, nextq: Queue, g: Terms, L: seq<Trail<Config>>, pos: nat, best: seq<Config>)
      reads this, runq, runq.sparse, nextq, arena, matchcap
    {
      && Searches(g) && Kept(best) && AtRest(runq, L, pos, {})
      && runq != nextq && runq.sparse != nextq.sparse && nextq.sparse.Length == |prog.insts| && nextq.dense == []
      && TopBooks(g, pos, L, matched, best)
    }

    /** Adds a thread for the start instruction, with the machine's own registers. */
    method AddStart(runq: Queue, pos: nat, flag: EmptyOp, ghost L: seq<Trail<Config>>)
        returns (ghost L': seq<Trail<Config>>)
      requires AtRest(runq, L, pos, {}) && |matchcap.cap| == ncap && forall k :: 1 <= k < ncap ==> matchcap.cap[k] == -1
      modifies this`pool, this`arena, runq`dense, runq.sparse, matchcap, pool
      ensures AtRest(runq, L', pos, {}) && Grows()
      ensures |matchcap.cap| == ncap && forall k :: 1 <= k < ncap ==> matchcap.cap[k] == -1
      ensures L' == Explore(Level(prog, pos, flag), [StartTrail(prog, pos)], L)
    {
      if |matchcap.cap| > 0 {
        matchcap.cap := matchcap.cap[0 := pos];
      }
      assert matchcap.cap == Registers(prog, ncap, pos, []);
      var r;
      r, L' := Add(runq, prog.start, pos, matchcap, flag, null, matchcap.cap, [], L, {});
    }

    /** Adds a start thread unless a match is on record, and hands the queue over to the step. */
    method Begin(runq: Queue, nextq: Queue, pos: nat, flag: EmptyOp, ghost nextPos: nat, ghost g: Terms,
        ghost L: seq<Trail<Config>>, ghost best: seq<Config>) returns (ghost L': seq<Trail<Config>>)
      requires Top(runq, nextq, g, L, pos, best) && flag == Context(g.text, pos)
      modifies this`pool, this`arena, runq`dense, runq.sparse, matchcap, pool
      ensures Goes(runq, nextq, g, L', [], 0, pos, nextPos, best) && Grows()
    {
      L' := L;
      BeginBooks(g, pos, L, matched, best);
      if !matched {
        L' := AddStart(runq, pos, flag, L);
      }
      HeldSplit(runq.dense, 0);
    }

    /** Between searches: the queues are empty and every thread is in the pool. */
    ghost predicate Set()
      reads this, q0, q1, matchcap, arena
    {
      && q0 != q1 && q0.sparse != q1.sparse && q0.sparse.Length == |prog.insts| == q1.sparse.Length
      && q0.dense == [] && q1.dense == [] && Rested() && |matchcap.cap| == ncap
    }

    /** The search is over; nextq may still hold threads. */
    ghost predicate Over(runq: Queue, nextq: Queue, g: Terms, N: seq<Trail<Config>>, pos: nat, best: seq<Config>)
      reads this, runq, nextq, nextq.sparse, arena, matchcap
    {
      && Searches(g) && Kept(best) && runq.dense == [] && AtRest(nextq, N, pos, {}) && Answers(g, matched, best)
    }

    /** A step from its start thread to the end of the run queue. */
    method Turn(runq: Queue, nextq: Queue, pos: nat, nextPos: nat, c: int, flag: EmptyOp, nextCond: EmptyOp,
        ghost g: Terms, ghost L: seq<Trail<Config>>, ghost best: seq<Config>)
        returns (ghost N: seq<Trail<Config>>, ghost best': seq<Config>)
      requires Top(runq, nextq, g, L, pos, best) && flag == Context(g.text, pos)
      requires nextPos == pos + StepWidth(g.text, pos) && c == StepRune(g.text, pos) &&
        (pos < |g.text| ==> nextCond == Context(g.text, pos + 1))
      modifies this`pool, this`arena, this`matched, nextq`dense, nextq.sparse, runq`dense, runq.sparse, matchcap, arena
      ensures Searches(g) && Kept(best') && Grows() && runq.dense == [] && AtRest(nextq, N, nextPos, {})
      ensures if pos < |g.text| then Top(nextq, runq, g, N, nextPos, best') else Answers(g, matched, best')
      ensures ncap == 0 && matched ==> Over(runq, nextq, g, N, nextPos, best')
    {
      ghost var L' := Begin(runq, nextq, pos, flag, nextPos, g, L, best);
      N, best' := Step(runq, nextq, pos, nextPos, c, nextCond, g, L', best);
      if pos < |g.text| {
        EndBooks(g, pos, nextPos, N, matched, best');
      } else {
        CloseAtEnd(g, N, matched, best');
      }
    }

    /** Forgets the last match. */
    method Prepare(ghost g: Terms)
      requires Set() && Searches(g)
      modifies this`matched, matchcap
      ensures Top(q0, q1, g, [], g.lo, []) && !matched
    {
      matched := false;
      matchcap.cap := seq(|matchcap.cap|, i => -1);
      OpenBooks(g);
    }

    /** With an empty run queue, past the beginning of an anchored text or with a match on record. */
    lemma Stops(runq: Queue, nextq: Queue, g: Terms, pos: nat, nextPos: nat, L: seq<Trail<Config>>, best: seq<Config>,
        cond: EmptyOp)
      requires Top(runq, nextq, g, L, pos, best) && runq.dense == [] && StartCond(prog) == Some(Some(cond))
      requires matched || (BeginText in cond && pos > 0)
      ensures Over(runq, nextq, g, [], nextPos, best)
    {
      assert L == [];
      if matched { CloseMatched(g, pos, best); } else { CloseAnchored(g, pos, matched, best, cond); }
    }

    /** One turn of the loop: stop is set where the source breaks out of it. */
    method Cycle(runq: Queue, nextq: Queue, pos: nat, cond: EmptyOp, view: View, ghost g: Terms,
        ghost L: seq<Trail<Config>>, ghost best: seq<Config>)
        returns (stop: bool, pos': nat, ghost N: seq<Trail<Config>>, ghost best': seq<Config>)
      requires Top(runq, nextq, g, L, pos, best) && view.At(g.text, pos) && StartCond(prog) == Some(Some(cond))
      modifies this`pool, this`arena, this`matched, nextq`dense, nextq.sparse, runq`dense, runq.sparse, matchcap, arena
      ensures Grows() && pos' == pos + view.width
      ensures if stop then Over(runq, nextq, g, N, pos', best')
        else pos < |g.text| && Top(nextq, runq, g, N, pos', best')
    {
      pos' := pos + view.width;
      N, best' := [], best;
      if |runq.dense| == 0 {
        if BeginText in cond && pos != 0 {
          Stops(runq, nextq, g, pos, pos', L, best, cond);
          return true, pos', [], best;
        }
        if matched {
          Stops(runq, nextq, g, pos, pos', L, best, cond);
          return true, pos', [], best;
        }
      }
      if pos < |g.text| { EmptyOpContextIs(g.text, pos + 1); }
      N, best' := Turn(runq, nextq, pos, pos', view.r, view.flag, EmptyOpContext(view.r, view.r1), g, L, best);
      stop := view.width == 0 || (|matchcap.cap| == 0 && matched);
    }

    /** One turn of the loop and the view from the next position. */
    method CycleOn(runq: Queue, nextq: Queue, pos: nat, cond: EmptyOp, view: View, text: Text, ghost g: Terms,
        ghost L: seq<Trail<Config>>, ghost best: seq<Config>)
        returns (stop: bool, pos': nat, view': View, ghost N: seq<Trail<Config>>, ghost best': seq<Config>)
      requires Top(runq, nextq, g, L, pos, best) && view.At(text, pos) && StartCond(prog) == Some(Some(cond))
      requires g.text == text
      modifies this`pool, this`arena, this`matched, nextq`dense, nextq.sparse, runq`dense, runq.sparse, matchcap, arena
      ensures Grows()
      ensures stop ==> Over(runq, nextq, g, N, pos', best')
      ensures !stop ==> pos < pos' <= |text| && view'.At(text, pos') && Top(nextq, runq, g, N, pos', best')
    {
      stop, pos', N, best' := Cycle(runq, nextq, pos, cond, view, g, L, best);
      view' := view;
      if !stop {
        view' := view.Next(text, pos);
      }
    }

    /** The loop over the text: step by step from position g.lo, until a step says stop. */
    method Drive(cond: EmptyOp, text: Text, from: nat, ghost g: Terms)
        returns (runq: Queue, nextq: Queue, ghost N: seq<Trail<Config>>, ghost at: nat, ghost best: seq<Config>)
      requires Top(q0, q1, g, [], from, []) && StartCond(prog) == Some(Some(cond)) && g.text == text && from == g.lo
      modifies this`pool, this`arena, this`matched, q0`dense, q0.sparse, q1`dense, q1.sparse, matchcap, arena
      ensures Grows() && Over(runq, nextq, g, N, at, best)
      ensures (runq == q0 && nextq == q1) || (runq == q1 && nextq == q0)
    {
      runq, nextq := q0, q1;
      var pos := from;
      var view := FirstView(text, pos);
      N, best := [], [];
      while true
        invariant (runq == q0 && nextq == q1) || (runq == q1 && nextq == q0)
        invariant Grows() && view.At(text, pos) && Top(runq, nextq, g, N, pos, best)
        decreases |text| - pos
      {
        var stop;
        stop, pos, view, N, best := CycleOn(runq, nextq, pos, cond, view, text, g, N, best);
        if stop {
          at := pos;
          return;
        }
        runq, nextq := nextq, runq;
      }
    }

    /** Runs the machine over text from position from; cond are the leading conditions of the program. */
    method Match(text: Text, from: nat, cond: Option<EmptyOp>) returns (found: bool)
      requires WellFormed(prog) && StartCond(prog) == Some(cond) && from <= |text| && ncap != 1
      requires Set()
      modifies this`pool, this`arena, this`matched, q0`dense, q0.sparse, q1`dense, q1.sparse, matchcap, arena
      ensures Set() && (found <==> Wanted(prog, text, longest, from).Some?)
      ensures found && ncap > 0 ==>
        var w := Wanted(prog, text, longest, from).value; w != [] && matchcap.cap == Report(prog, ncap, w)
    {
      ghost var T := Identified(prog, text, longest, from);
      ghost var g := Terms(prog, text, longest, ncap, from, T, Wanted(prog, text, longest, from));
      if cond.None? {
        CloseImpossible(g);
        return false;
      }
      Prepare(g);
      ghost var N, at, best;
      var runq, nextq;
      runq, nextq, N, at, best := Drive(cond.value, text, from, g);
      Clear(nextq, at, N);
      return matched;
    }
  }
}
