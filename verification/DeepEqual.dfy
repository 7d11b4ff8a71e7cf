/** Deep equality over a heap of reflected values (src/reflect/deepequal.go). */
module DeepEqual {
  import opened Search

  type Node = nat

  /** What a value is made of. A nil pointer or interface has no element; keys of maps are compared with ==. */
  datatype Shape =
    | Basic(value: int)
    | Array(elems: seq<Node>)
    | Struct(fields: seq<Node>)
    | Slice(isNil: bool, pointer: nat, items: seq<Node>)
    | Interface(elem: Option<Node>)
    | Ptr(elem: Option<Node>)
    | Map(isNil: bool, pointer: nat, entries: map<int, Node>)
    | Func(isNil: bool)

  datatype Value = Value(typ: nat, canAddr: bool, addr: nat, shape: Shape)

  /** Every value that can be reached, by number. */
  type Heap = seq<Value>

  predicate Hard(shape: Shape) { shape.Array? || shape.Map? || shape.Slice? || shape.Struct? }

  predicate IsChild(shape: Shape, c: Node) {
    match shape
    case Array(elems) => c in elems
    case Struct(fields) => c in fields
    case Slice(_, _, items) => c in items
    case Interface(elem) => elem == Some(c)
    case Ptr(elem) => elem == Some(c)
    case Map(_, _, entries) => c in entries.Values
    case _ => false
  }

  /** Whether an element of v can be addressed. */
  predicate ChildAddressable(v: Value) {
    v.shape.Ptr? || v.shape.Slice? || ((v.shape.Array? || v.shape.Struct?) && v.canAddr)
  }

  /** Values of one type have one kind, and arrays and structs of one type one length. */
  predicate SameKind(s: Shape, t: Shape) {
    match s
    case Basic(_) => t.Basic?
    case Array(elems) => t.Array? && |elems| == |t.elems|
    case Struct(fields) => t.Struct? && |fields| == |t.fields|
    case Slice(_, _, _) => t.Slice?
    case Interface(_) => t.Interface?
    case Ptr(_) => t.Ptr?
    case Map(_, _, _) => t.Map?
    case Func(_) => t.Func?
  }

  ghost predicate ChildrenOk(h: Heap) {
    forall a: nat, c: nat {:trigger IsChild(h[a].shape, c)} :: a < |h| && IsChild(h[a].shape, c) ==>
      c < |h| && h[c].canAddr == ChildAddressable(h[a])
  }

  ghost predicate TypesOk(h: Heap) {
    forall a, b :: 0 <= a < |h| && 0 <= b < |h| && h[a].typ == h[b].typ ==> SameKind(h[a].shape, h[b].shape)
  }

  /** An address and a type make a value; a pointer and a length make a slice, a pointer a map. */
  ghost predicate MemoryOk(h: Heap) {
    && (forall a, b ::
          (0 <= a < |h| && 0 <= b < |h| && h[a].typ == h[b].typ && Recorded(h[a]) && Recorded(h[b]) &&
           h[a].addr == h[b].addr) ==>
          a == b)
    && forall a, b :: 0 <= a < |h| && 0 <= b < |h| && h[a].typ == h[b].typ ==> Shared(h[a].shape, h[b].shape)
  }

  predicate Shared(s: Shape, t: Shape) {
    && (s.Slice? && t.Slice? && s.pointer == t.pointer && |s.items| == |t.items| ==> s.items == t.items)
    && (s.Map? && t.Map? && s.pointer == t.pointer ==> s.entries == t.entries)
  }

  ghost predicate WellFormed(h: Heap) { ChildrenOk(h) && TypesOk(h) && MemoryOk(h) }

  /** Comparisons of such values are remembered. */
  predicate Recorded(v: Value) { v.canAddr && Hard(v.shape) }

  // ------------------------------------------------------------------- the meaning

  type Relation = set<(Node, Node)>

  /** a and b are the same memory, as far as the comparison looks. */
  predicate SameMemory(v: Value, w: Value) { Recorded(v) && Recorded(w) && v.addr == w.addr }

  predicate Either(R: Relation, a: Node, b: Node) { (a, b) in R || (b, a) in R }

  predicate AllEither(R: Relation, xs: seq<Node>, ys: seq<Node>)
    requires |xs| <= |ys|
  {
    forall i :: 0 <= i < |xs| ==> Either(R, xs[i], ys[i])
  }

  predicate BothEither(R: Relation, a: Option<Node>, b: Option<Node>) {
    if a.Some? && b.Some? then Either(R, a.value, b.value) else a.None? && b.None?
  }

  /** Equal so far as a and b themselves go, provided that R relates their elements. With
      identity, comparing something with itself is left at that. */
  predicate Similar(h: Heap, identity: bool, R: Relation, a: Node, b: Node)
    requires a < |h| && b < |h|
  {
    h[a].typ == h[b].typ && ((identity && SameMemory(h[a], h[b])) || SimilarShapes(identity, R, h[a].shape, h[b].shape))
  }

  predicate SimilarShapes(identity: bool, R: Relation, s: Shape, t: Shape) {
    match (s, t)
    case (Basic(v), Basic(w)) => v == w
    case (Array(xs), Array(ys)) => |xs| == |ys| && AllEither(R, xs, ys)
    case (Struct(xs), Struct(ys)) => |xs| == |ys| && AllEither(R, xs, ys)
    case (Slice(n, p, xs), Slice(m, q, ys)) => n == m && |xs| == |ys| && ((identity && p == q) || AllEither(R, xs, ys))
    case (Interface(x), Interface(y)) => BothEither(R, x, y)
    case (Ptr(x), Ptr(y)) => BothEither(R, x, y)
    case (Map(n, p, xs), Map(m, q, ys)) =>
      n == m && |xs| == |ys| && ((identity && p == q) || forall k :: k in xs ==> k in ys && Either(R, xs[k], ys[k]))
    case (Func(n), Func(m)) => n && m
    case _ => false
  }

  /** R, read both ways, only relates values that are similar under R: a bisimulation, and with
      identity a bisimulation up to identity. */
  ghost predicate Bisimulation(h: Heap, identity: bool, R: Relation) {
    forall a, b :: (a, b) in R ==> a < |h| && b < |h| && Similar(h, identity, R, a, b)
  }

  lemma SimilarMore(h: Heap, identity: bool, R: Relation, S: Relation, a: Node, b: Node)
    requires a < |h| && b < |h| && R <= S && Similar(h, identity, R, a, b)
    ensures Similar(h, identity, S, a, b)
  {
  }

  lemma SimilarSwap(h: Heap, identity: bool, R: Relation, a: Node, b: Node)
    requires a < |h| && b < |h| && Similar(h, identity, R, a, b)
    ensures Similar(h, identity, R, b, a)
  {
    match (h[a].shape, h[b].shape) {
      case (Map(_, _, xs), Map(_, _, ys)) =>
        if |xs| == |ys| && forall k :: k in xs ==> k in ys && Either(R, xs[k], ys[k]) {
          SameKeys(xs, ys);
        }
      case _ =>
    }
  }

  lemma SameKeys(xs: map<int, Node>, ys: map<int, Node>)
    requires |xs| == |ys| && forall k :: k in xs ==> k in ys
    ensures xs.Keys == ys.Keys
  {
    assert forall k :: k in xs.Keys ==> k in ys.Keys;
    SubsetSameSize(xs.Keys, ys.Keys);
  }

  lemma {:induction false} SubsetSameSize<T>(a: set<T>, b: set<T>)
    requires a <= b && |a| == |b|
    ensures a == b
  {
    if a != {} {
      var x :| x in a;
      assert x in b && a - {x} <= b - {x};
      assert |b - {x}| == |b| - 1;
      SubsetSameSize(a - {x}, b - {x});
    }
  }

  /** What a bisimulation says about a pair that it relates, in either order. */
  lemma EitherSimilar(h: Heap, identity: bool, R: Relation, a: Node, b: Node)
    requires Bisimulation(h, identity, R) && Either(R, a, b)
    ensures a < |h| && b < |h| && Similar(h, identity, R, a, b)
  {
    if (a, b) !in R { SimilarSwap(h, identity, R, b, a); }
  }

  // ----------------------------------------------------------------- the algorithm

  /** A comparison that has been started, the lower address first. */
  datatype Visit = Visit(a1: nat, a2: nat, typ: nat)

  function VisitOf(v: Value, w: Value): Visit {
    if v.addr > w.addr then Visit(w.addr, v.addr, v.typ) else Visit(v.addr, w.addr, v.typ)
  }

  /** x and y stand in the same place of s and t, and comparing s with t goes on to compare them. */
  ghost predicate Opposite(s: Shape, t: Shape, x: Node, y: Node) {
    match (s, t)
    case (Array(xs), Array(ys)) => exists i :: 0 <= i < |xs| && i < |ys| && (x, y) == (xs[i], ys[i])
    case (Struct(xs), Struct(ys)) => exists i :: 0 <= i < |xs| && i < |ys| && (x, y) == (xs[i], ys[i])
    case (Slice(n, p, xs), Slice(m, q, ys)) =>
      n == m && p != q && |xs| == |ys| && exists i :: 0 <= i < |xs| && (x, y) == (xs[i], ys[i])
    case (Interface(v), Interface(w)) => v == Some(x) && w == Some(y)
    case (Ptr(v), Ptr(w)) => v == Some(x) && w == Some(y)
    case (Map(n, p, xs), Map(m, q, ys)) =>
      n == m && p != q && |xs| == |ys| && exists k :: k in xs && k in ys && (x, y) == (xs[k], ys[k])
    case _ => false
  }

  /** Ranks of pairs to be compared. */
  type Ranking = map<(Node, Node), nat>

  ghost predicate Falls(h: Heap, rank: Ranking, a: Node, b: Node)
    requires a < |h| && b < |h| && (a, b) in rank
  {
    forall x: nat, y: nat :: Opposite(h[a].shape, h[b].shape, x, y) ==>
      (x, y) in rank && (!(Recorded(h[a]) && Recorded(h[b])) ==> rank[(x, y)] < rank[(a, b)])
  }

  /** The pairs that a comparison can come to are ranked, and no cycle of pairs goes past
      everything that is remembered: along such steps the rank falls. */
  ghost predicate Ranked(h: Heap, rank: Ranking) {
    forall a: nat, b: nat :: (a, b) in rank ==>
      a < |h| && b < |h| && (h[a].typ == h[b].typ && !SameMemory(h[a], h[b]) ==> Falls(h, rank, a, b))
  }

  ghost function Ceiling(rank: Ranking): (m: nat)
    ensures forall p :: p in rank ==> rank[p] < m
    decreases |rank|
  {
    if rank == map[] then 0
    else
      var p :| p in rank;
      var m := Ceiling(rank - {p});
      assert forall q :: q in rank && q != p ==> q in rank - {p} && rank[q] == (rank - {p})[q];
      if rank[p] < m then m else rank[p] + 1
  }

  /** All visits there can be. */
  ghost function AllVisits(h: Heap, n: nat): set<Visit>
    requires n <= |h|
  {
    if n == 0 then {} else AllVisits(h, n - 1) + VisitsWith(h, n - 1, |h|)
  }

  ghost function VisitsWith(h: Heap, a: nat, n: nat): set<Visit>
    requires a < |h| && n <= |h|
  {
    if n == 0 then {} else VisitsWith(h, a, n - 1) + {VisitOf(h[a], h[n - 1])}
  }

  lemma {:induction false} VisitListed(h: Heap, n: nat, a: nat, b: nat)
    requires n <= |h| && a < n && b < |h|
    ensures VisitOf(h[a], h[b]) in AllVisits(h, n)
  {
    if a == n - 1 { VisitListedWith(h, a, |h|, b); } else { VisitListed(h, n - 1, a, b); }
  }

  lemma {:induction false} VisitListedWith(h: Heap, a: nat, n: nat, b: nat)
    requires a < |h| && b < n <= |h|
    ensures VisitOf(h[a], h[b]) in VisitsWith(h, a, n)
  {
    if b < n - 1 { VisitListedWith(h, a, n - 1, b); }
  }

  /** A visit says which two values are compared. */
  lemma VisitDetermines(h: Heap, a: nat, b: nat, x: nat, y: nat)
    requires MemoryOk(h) && a < |h| && b < |h| && x < |h| && y < |h|
    requires Recorded(h[a]) && Recorded(h[b]) && Recorded(h[x]) && Recorded(h[y])
    requires h[a].typ == h[b].typ && h[x].typ == h[y].typ && VisitOf(h[a], h[b]) == VisitOf(h[x], h[y])
    ensures (x == a && y == b) || (x == b && y == a)
  {}

  /** Some element of a set, as a range loop delivers the keys of a map in no particular order. */
  method AnyOf<T(==)>(s: set<T>) returns (x: T)
    requires s != {}
    ensures x in s
  {
    x :| x in s;
  }

  /** A ranking of the pairs, if there is one. */
  ghost predicate RankedIf(h: Heap, rank: Option<Ranking>) { rank.Some? ==> Ranked(h, rank.value) }

  ghost predicate InRank(rank: Option<Ranking>, a: Node, b: Node) { rank.Some? ==> (a, b) in rank.value }

  ghost function RankOf(rank: Option<Ranking>, a: Node, b: Node): nat
    requires InRank(rank, a, b)
  {
    if rank.Some? then rank.value[(a, b)] else 0
  }

  ghost function Top(rank: Option<Ranking>): nat { if rank.Some? then Ceiling(rank.value) else 0 }

  ghost predicate RanksBelow(rank: Option<Ranking>, x: Node, y: Node, bound: nat) {
    rank.Some? ==> (x, y) in rank.value && rank.value[(x, y)] < bound
  }

  lemma {:induction false} FewerLeft<T>(a: set<T>, b: set<T>)
    requires a <= b
    ensures |a| <= |b| && (a != b ==> |a| < |b|)
  {
    if a != {} {
      var x :| x in a;
      assert x in b && a - {x} <= b - {x};
      assert a - {x} + {x} == a && b - {x} + {x} == b;
      FewerLeft(a - {x}, b - {x});
    }
  }

  /** Calls nested in one another while visits are left and the rank falls. */
  function Calls(left: nat, top: nat, rank: nat): nat { left * (top + 1) + rank + 1 }

  lemma CallsMore(left: nat, more: nat, top: nat, rank: nat)
    requires left < more
    ensures Calls(left, top, top) <= Calls(more, top, rank)
  {
    Times(left + 1, more, top + 1);
    OneMoreTime(left, top + 1);
  }

  lemma OneMoreTime(a: nat, c: nat)
    ensures (a + 1) * c == a * c + c
  {}

  lemma {:induction false} Times(a: nat, b: nat, c: nat)
    requires a <= b
    ensures a * c <= b * c
  {
    if a < b {
      Times(a, b - 1, c);
      OneMoreTime(b - 1, c);
    }
  }

  class Comparison {
    const heap: Heap
    /** How many calls the stack has room for. */
    const limit: nat
    var visited: set<Visit>
    /** The pairs taken to be equal so far. */
    ghost var claims: Relation

    constructor (heap: Heap, limit: nat)
      ensures this.heap == heap && this.limit == limit && visited == {} && claims == {}
    {
      this.heap, this.limit := heap, limit;
      visited, claims := {}, {};
    }

    ghost predicate Valid()
      reads this
    {
      && WellFormed(heap)
      && (forall a, b :: (a, b) in claims ==> a < |heap| && b < |heap|)
      && forall a: nat, b: nat {:trigger Remembers(a, b)} :: a < |heap| && b < |heap| && Remembers(a, b) ==>
        Either(claims, a, b)
    }

    ghost predicate Remembers(a: nat, b: nat)
      requires a < |heap| && b < |heap|
      reads this
    {
      Recorded(heap[a]) && Recorded(heap[b]) && heap[a].typ == heap[b].typ && VisitOf(heap[a], heap[b]) in visited
    }

    /** What has been claimed beyond before is borne out by the claims. */
    ghost predicate Founded(before: Relation)
      requires Valid()
      reads this
    {
      before <= claims && forall a, b :: (a, b) in claims && (a, b) !in before ==> Similar(heap, true, claims, a, b)
    }

    /** Two values that may be compared: both are in the heap and addressable alike. */
    ghost predicate Comparable(a: Node, b: Node) { a < |heap| && b < |heap| && heap[a].canAddr == heap[b].canAddr }

    ghost function Budget(): set<Visit>
      reads this
    {
      AllVisits(heap, |heap|) - visited
    }

    /** There is a ranking, and the stack has room for comparing pairs of rank below bound. */
    ghost predicate Room(rank: Option<Ranking>, bound: nat, depth: nat)
      reads this
    {
      rank.Some? && depth + Calls(|Budget()|, Top(rank), bound) <= limit
    }

    /** It does not get less while comparisons are remembered. */
    lemma RoomStays(rank: Option<Ranking>, bound: nat, depth: nat, budget: set<Visit>)
      requires Budget() <= budget
      ensures rank.Some? && depth + Calls(|budget|, Top(rank), bound) <= limit ==> Room(rank, bound, depth)
    {
      FewerLeft(Budget(), budget);
      Times(|Budget()|, |budget|, Top(rank) + 1);
    }

    /** Claims that a and b are equal. */
    ghost method Claim(a: Node, b: Node)
      requires Valid() && a < |heap| && b < |heap|
      modifies this`claims
      ensures Valid() && claims == old(claims) + {(a, b)}
    {
      claims := claims + {(a, b)};
      forall x: nat, y: nat | x < |heap| && y < |heap| && Remembers(x, y)
        ensures Either(claims, x, y) { assert old(Remembers(x, y)); }
    }

    /** Remembers the comparison of a and b. */
    method Remember(a: Node, b: Node, v: Visit)
      requires Valid() && a < |heap| && b < |heap| && heap[a].typ == heap[b].typ && Recorded(heap[a]) &&
        Recorded(heap[b])
      requires Either(claims, a, b) && v == VisitOf(heap[a], heap[b]) && v !in visited
      modifies this`visited
      ensures Valid() && visited == old(visited) + {v} && Budget() < old(Budget())
    {
      VisitListed(heap, |heap|, a, b);
      visited := visited + {v};
      forall x: nat, y: nat | x < |heap| && y < |heap| && Remembers(x, y) ensures Either(claims, x, y) {
        if VisitOf(heap[x], heap[y]) == VisitOf(heap[a], heap[b]) {
          VisitDetermines(heap, a, b, x, y);
        } else {
          assert old(Remembers(x, y));
          assert Either(old(claims), x, y);
        }
      }
      assert forall x: nat, y: nat {:trigger Remembers(x, y)} :: x < |heap| && y < |heap| && Remembers(x, y) ==>
        Either(claims, x, y);
    }

    /** Compares the elements xs and ys in turn, with calls at this depth. */
    method EqualElements(xs: seq<Node>, ys: seq<Node>, depth: nat, ghost rank: Option<Ranking>, ghost bound: nat,
        ghost S: Relation) returns (equal: Option<bool>)
      requires Valid() && RankedIf(heap, rank) && Bisimulation(heap, true, S) && depth <= limit
      requires |xs| == |ys| && forall i :: 0 <= i < |xs| ==>
        Comparable(xs[i], ys[i]) && RanksBelow(rank, xs[i], ys[i], bound)
      modifies this`visited, this`claims
      ensures Valid() && old(visited) <= visited && old(claims) <= claims
      ensures equal == Some(true) ==> Founded(old(claims)) && AllEither(claims, xs, ys)
      ensures AllEither(S, xs, ys) ==> equal != Some(false)
      ensures old(Room(rank, bound, depth)) ==> equal.Some?
      decreases limit - depth, 1
    {
      ghost var budget := Budget();
      var i := 0;
      while i < |xs|
        invariant 0 <= i <= |xs| && Valid() && old(visited) <= visited && Founded(old(claims))
        invariant AllEither(claims, xs[..i], ys[..i])
      {
        ghost var before := claims;
        RoomStays(rank, bound, depth, budget);
        equal := DeepValueEqual(Some(xs[i]), Some(ys[i]), depth, rank, S);
        if equal != Some(true) {
          return;
        }
        StillFounded(old(claims), before);
        i := i + 1;
      }
      assert xs[..i] == xs && ys[..i] == ys;
      return Some(true);
    }

    predicate SameEntries(R: Relation, xs: map<int, Node>, ys: map<int, Node>, keys: set<int>)
      requires keys <= xs.Keys
    {
      forall k :: k in keys ==> k in ys && Either(R, xs[k], ys[k])
    }

    /** Compares the entries of two maps, key by key in any order; a key that is missing in ys has the invalid value
        there. */
    method EqualEntries(xs: map<int, Node>, ys: map<int, Node>, depth: nat, ghost rank: Option<Ranking>,
        ghost bound: nat, ghost S: Relation) returns (equal: Option<bool>)
      requires Valid() && RankedIf(heap, rank) && Bisimulation(heap, true, S) && depth <= limit
      requires forall k :: k in xs ==> xs[k] < |heap|
      requires forall k :: k in xs && k in ys ==> Comparable(xs[k], ys[k]) && RanksBelow(rank, xs[k], ys[k], bound)
      requires forall k :: k in ys ==> ys[k] < |heap|
      modifies this`visited, this`claims
      ensures Valid() && old(visited) <= visited && old(claims) <= claims
      ensures equal == Some(true) ==> Founded(old(claims)) && SameEntries(claims, xs, ys, xs.Keys)
      ensures SameEntries(S, xs, ys, xs.Keys) ==> equal != Some(false)
      ensures old(Room(rank, bound, depth)) ==> equal.Some?
      decreases limit - depth, 1
    {
      ghost var budget := Budget();
      var left := xs.Keys;
      while left != {}
        invariant left <= xs.Keys && Valid() && old(visited) <= visited && Founded(old(claims))
        invariant SameEntries(claims, xs, ys, xs.Keys - left)
        decreases left
      {
        var k := AnyOf(left);
        ghost var before := claims;
        RoomStays(rank, bound, depth, budget);
        equal := DeepValueEqual(Some(xs[k]), if k in ys then Some(ys[k]) else None, depth, rank, S);
        if equal != Some(true) {
          return;
        }
        StillFounded(old(claims), before);
        left := left - {k};
      }
      assert xs.Keys - left == xs.Keys;
      return Some(true);
    }

    /** What was borne out stays so when more is claimed. */
    lemma StillFounded(first: Relation, before: Relation)
      requires Valid() && Founded(before) && first <= before
      requires forall a, b :: (a, b) in before && (a, b) !in first ==>
        a < |heap| && b < |heap| && Similar(heap, true, before, a, b)
      ensures Founded(first)
    {
      forall a, b | (a, b) in claims && (a, b) !in first ensures Similar(heap, true, claims, a, b) {
        if (a, b) in before { SimilarMore(heap, true, before, claims, a, b); }
      }
    }

    /** Whether a and b are identical or their comparison has been started; it is, otherwise. */
    method Shortcut(a: Node, b: Node) returns (known: bool)
      requires Valid() && Comparable(a, b) && heap[a].typ == heap[b].typ
      modifies this`visited, this`claims
      ensures Valid() && old(visited) <= visited && Either(claims, a, b)
      ensures known ==> Founded(old(claims))
      ensures !known ==> claims == old(claims) + {(a, b)} && !SameMemory(heap[a], heap[b])
      ensures !known && Recorded(heap[a]) ==> Budget() < old(Budget())
    {
      var v1, v2 := heap[a], heap[b];
      assert SameKind(v1.shape, v2.shape);
      var hard := match v1.shape
        case Array(_) => true
        case Map(_, _, _) => true
        case Slice(_, _, _) => true
        case Struct(_) => true
        case _ => false;
      if v1.canAddr && v2.canAddr && hard {
        var addr1, addr2 := v1.addr, v2.addr;
        if addr1 > addr2 {
          addr1, addr2 := addr2, addr1;
        }
        if addr1 == addr2 {
          Claim(a, b);
          return true;
        }
        var v := Visit(addr1, addr2, v1.typ);
        if v in visited {
          assert Remembers(a, b);
          return true;
        }
        Claim(a, b);
        Remember(a, b, v);
      } else {
        Claim(a, b);
      }
      return false;
    }

    lemma SimilarIf(S: Relation, a: Node, b: Node)
      requires Bisimulation(heap, true, S)
      ensures Either(S, a, b) ==> a < |heap| && b < |heap| && Similar(heap, true, S, a, b)
    {
      if Either(S, a, b) { EitherSimilar(heap, true, S, a, b); }
    }

    /** Whether a and b are equal, taking for granted that those in progress are; None if the
        stack overflows. rank and S only serve the proof: rank shows that the recursion ends, if
        there is one, S is any bisimulation. */
    method DeepValueEqual(a: Option<Node>, b: Option<Node>, depth: nat, ghost rank: Option<Ranking>, ghost S: Relation)
        returns (equal: Option<bool>)
      requires Valid() && RankedIf(heap, rank) && Bisimulation(heap, true, S) && depth <= limit
      requires (a.Some? ==> a.value < |heap|) && (b.Some? ==> b.value < |heap|)
      requires a.Some? && b.Some? ==> Comparable(a.value, b.value) && InRank(rank, a.value, b.value)
      modifies this`visited, this`claims
      ensures Valid() && old(visited) <= visited && old(claims) <= claims
      ensures equal == Some(true) ==> Founded(old(claims)) && BothEither(claims, a, b)
      ensures BothEither(S, a, b) ==> equal != Some(false)
      ensures old(Room(rank, if a.Some? && b.Some? then RankOf(rank, a.value, b.value) + 1 else 0, depth)) ==>
        equal.Some?
      decreases limit - depth, 0
    {
      if depth == limit {
        return None;
      }
      if a.None? || b.None? {
        return Some(a.None? && b.None?);
      }
      var v1, v2 := heap[a.value], heap[b.value];
      SimilarIf(S, a.value, b.value);
      if v1.typ != v2.typ {
        return Some(false);
      }
      var known := Shortcut(a.value, b.value);
      if known {
        return Some(true);
      }
      ghost var before := claims;
      ghost var bound := if Recorded(v1) then Top(rank) else RankOf(rank, a.value, b.value);
      ContentsComparable(a.value, b.value, rank, bound);
      RoomWithin(rank, a.value, b.value, depth, bound, old(Budget()));
      equal := EqualContents(v1.shape, v2.shape, depth + 1, rank, bound, S);
      if equal == Some(true) {
        NowFounded(old(claims), before, a.value, b.value);
      }
    }

    /** For the contents there is room, too: a visit has been used up or the rank falls. */
    lemma RoomWithin(rank: Option<Ranking>, a: Node, b: Node, depth: nat, bound: nat, budget: set<Visit>)
      requires InRank(rank, a, b) && Budget() <= budget
      requires (bound == RankOf(rank, a, b)) || (bound == Top(rank) && Budget() < budget)
      ensures rank.Some? && depth + Calls(|budget|, Top(rank), RankOf(rank, a, b) + 1) <= limit ==>
        Room(rank, bound, depth + 1)
    {
      FewerLeft(Budget(), budget);
      Times(|Budget()|, |budget|, Top(rank) + 1);
      if Budget() < budget { CallsMore(|Budget()|, |budget|, Top(rank), RankOf(rank, a, b)); }
    }

    /** The claim about a and b is borne out once their contents have been compared. */
    lemma NowFounded(first: Relation, before: Relation, a: Node, b: Node)
      requires Valid() && Founded(before) && before == first + {(a, b)} && a < |heap| && b < |heap|
      requires Similar(heap, true, claims, a, b)
      ensures Founded(first)
    {}

    /** The switch on the kind. */
    method EqualContents(s: Shape, t: Shape, depth: nat, ghost rank: Option<Ranking>, ghost bound: nat,
        ghost S: Relation) returns (equal: Option<bool>)
      requires Valid() && RankedIf(heap, rank) && Bisimulation(heap, true, S) && SameKind(s, t) && depth <= limit
      requires ComparableContents(s, t, rank, bound)
      modifies this`visited, this`claims
      ensures Valid() && old(visited) <= visited && old(claims) <= claims
      ensures equal == Some(true) ==> Founded(old(claims)) && SimilarShapes(true, claims, s, t)
      ensures SimilarShapes(true, S, s, t) ==> equal != Some(false)
      ensures old(Room(rank, bound, depth)) ==> equal.Some?
      decreases limit - depth, 2
    {
      ContentsListed(s, t, rank, bound);
      match s {
        case Basic(value) => equal := Some(value == t.value);
        case Array(elems) => equal := EqualElements(elems, t.elems, depth, rank, bound, S);
        case Struct(fields) => equal := EqualElements(fields, t.fields, depth, rank, bound, S);
        case Slice(isNil, pointer, items) =>
          if isNil != t.isNil || |items| != |t.items| {
            return Some(false);
          }
          if pointer == t.pointer {
            return Some(true);
          }
          equal := EqualElements(items, t.items, depth, rank, bound, S);
        case Interface(elem) =>
          if elem.None? || t.elem.None? {
            return Some(elem.None? && t.elem.None?);
          }
          equal := DeepValueEqual(elem, t.elem, depth, rank, S);
        case Ptr(elem) => equal := DeepValueEqual(elem, t.elem, depth, rank, S);
        case Map(isNil, pointer, entries) =>
          if isNil != t.isNil || |entries| != |t.entries| {
            return Some(false);
          }
          if pointer == t.pointer {
            return Some(true);
          }
          equal := EqualEntries(entries, t.entries, depth, rank, bound, S);
        case Func(isNil) => equal := Some(isNil && t.isNil);
      }
    }

    /** The same, part by part. */
    lemma ContentsListed(s: Shape, t: Shape, rank: Option<Ranking>, bound: nat)
      requires ComparableContents(s, t, rank, bound) && SameKind(s, t)
      ensures s.Array? ==> forall i :: 0 <= i < |s.elems| ==>
        Comparable(s.elems[i], t.elems[i]) && RanksBelow(rank, s.elems[i], t.elems[i], bound)
      ensures s.Struct? ==> forall i :: 0 <= i < |s.fields| ==>
        Comparable(s.fields[i], t.fields[i]) && RanksBelow(rank, s.fields[i], t.fields[i], bound)
      ensures s.Slice? && s.isNil == t.isNil && s.pointer != t.pointer && |s.items| == |t.items| ==>
        forall i :: 0 <= i < |s.items| ==>
          Comparable(s.items[i], t.items[i]) && RanksBelow(rank, s.items[i], t.items[i], bound)
      ensures (s.Interface? || s.Ptr?) && s.elem.Some? ==> s.elem.value < |heap|
      ensures (s.Interface? || s.Ptr?) && t.elem.Some? ==> t.elem.value < |heap|
      ensures (s.Interface? || s.Ptr?) && s.elem.Some? && t.elem.Some? ==>
        Comparable(s.elem.value, t.elem.value) && RanksBelow(rank, s.elem.value, t.elem.value, bound)
      ensures s.Map? ==> EntriesListed(s, t, rank, bound)
    {
      if s.Interface? || s.Ptr? {
        if s.elem.Some? { assert IsChild(s, s.elem.value); }
        if t.elem.Some? { assert IsChild(t, t.elem.value); }
        if s.elem.Some? && t.elem.Some? { assert Opposite(s, t, s.elem.value, t.elem.value); }
      } else if s.Array? {
        forall i | 0 <= i < |s.elems|
          ensures Comparable(s.elems[i], t.elems[i]) && RanksBelow(rank, s.elems[i], t.elems[i], bound)
        {
          assert IsChild(s, s.elems[i]) && IsChild(t, t.elems[i]) && Opposite(s, t, s.elems[i], t.elems[i]);
        }
      } else if s.Struct? {
        forall i | 0 <= i < |s.fields|
          ensures Comparable(s.fields[i], t.fields[i]) && RanksBelow(rank, s.fields[i], t.fields[i], bound)
        {
          assert IsChild(s, s.fields[i]) && IsChild(t, t.fields[i]) && Opposite(s, t, s.fields[i], t.fields[i]);
        }
      } else if s.Slice? && s.isNil == t.isNil && s.pointer != t.pointer && |s.items| == |t.items| {
        forall i | 0 <= i < |s.items|
          ensures Comparable(s.items[i], t.items[i]) && RanksBelow(rank, s.items[i], t.items[i], bound)
        {
          assert IsChild(s, s.items[i]) && IsChild(t, t.items[i]) && Opposite(s, t, s.items[i], t.items[i]);
        }
      } else if s.Map? {
        MapListed(s, t, rank, bound);
      }
    }

    ghost predicate EntriesListed(s: Shape, t: Shape, rank: Option<Ranking>, bound: nat)
      requires s.Map? && t.Map?
    {
      && (forall k :: k in s.entries ==> s.entries[k] < |heap|)
      && (forall k :: k in t.entries ==> t.entries[k] < |heap|)
      && (s.isNil == t.isNil && s.pointer != t.pointer && |s.entries| == |t.entries| ==>
          forall k :: k in s.entries && k in t.entries ==>
            Comparable(s.entries[k], t.entries[k]) && RanksBelow(rank, s.entries[k], t.entries[k], bound))
    }

    lemma MapListed(s: Shape, t: Shape, rank: Option<Ranking>, bound: nat)
      requires ComparableContents(s, t, rank, bound) && s.Map? && t.Map?
      ensures EntriesListed(s, t, rank, bound)
    {
      forall k | k in s.entries ensures s.entries[k] < |heap| { assert IsChild(s, s.entries[k]); }
      forall k | k in t.entries ensures t.entries[k] < |heap| { assert IsChild(t, t.entries[k]); }
      if s.isNil == t.isNil && s.pointer != t.pointer && |s.entries| == |t.entries| {
        forall k | k in s.entries && k in t.entries
          ensures Comparable(s.entries[k], t.entries[k]) && RanksBelow(rank, s.entries[k], t.entries[k], bound)
        {
          assert IsChild(s, s.entries[k]) && IsChild(t, t.entries[k]) && Opposite(s, t, s.entries[k], t.entries[k]);
        }
      }
    }

    /** The contents of two values of one type that are addressable alike. */
    lemma ContentsComparable(a: Node, b: Node, rank: Option<Ranking>, bound: nat)
      requires WellFormed(heap) && RankedIf(heap, rank) && InRank(rank, a, b) && Comparable(a, b) &&
        heap[a].typ == heap[b].typ
      requires !SameMemory(heap[a], heap[b])
      requires bound == (if Recorded(heap[a]) then Top(rank) else RankOf(rank, a, b))
      ensures ComparableContents(heap[a].shape, heap[b].shape, rank, bound)
    {
      var s, t := heap[a].shape, heap[b].shape;
      forall x: nat | IsChild(s, x) ensures x < |heap| && heap[x].canAddr == ChildAddressable(heap[a]) {}
      forall y: nat | IsChild(t, y) ensures y < |heap| && heap[y].canAddr == ChildAddressable(heap[b]) {}
      assert SameKind(s, t);
      if rank.Some? { assert Falls(heap, rank.value, a, b); }
    }

    /** The parts of s may be compared with those of t, and the recursion into them ends. */
    ghost predicate ComparableContents(s: Shape, t: Shape, rank: Option<Ranking>, bound: nat) {
      && (forall x: nat :: IsChild(s, x) ==> x < |heap|)
      && (forall y: nat :: IsChild(t, y) ==> y < |heap|)
      && (forall x: nat, y: nat :: IsChild(s, x) && IsChild(t, y) ==> Comparable(x, y))
      && forall x: nat, y: nat :: Opposite(s, t, x, y) ==> RanksBelow(rank, x, y, bound)
    }
  }

  /** Some bisimulation up to identity relates a and b. */
  ghost predicate Related(h: Heap, identity: bool, a: Node, b: Node) {
    exists R: Relation :: Bisimulation(h, identity, R) && Either(R, a, b)
  }

  /** The two values may be compared by this ranking: every cycle of pairs that the comparison can
      come to passes one that is remembered. */
  ghost predicate Bounded(h: Heap, rank: Ranking, a: Option<Node>, b: Option<Node>) {
    && Ranked(h, rank)
    && (a.Some? && b.Some? && a.value < |h| && b.value < |h| && h[a.value].typ == h[b.value].typ ==>
          (a.value, b.value) in rank)
  }

  /** Calls nested in one another at most. */
  ghost function MostCalls(h: Heap, rank: Ranking): nat {
    Calls(|AllVisits(h, |h|)|, Ceiling(rank), Ceiling(rank) + 1)
  }

  ghost predicate Answers(h: Heap, a: Option<Node>, b: Option<Node>, equal: bool) {
    equal <==> if a.Some? && b.Some? then Related(h, true, a.value, b.value) else a.None? && b.None?
  }

  /** A comparison from the beginning. */
  method Compare(heap: Heap, a: Node, b: Node, limit: nat, ghost rank: Option<Ranking>, ghost S: Relation)
      returns (equal: Option<bool>, ghost claims: Relation)
    requires WellFormed(heap) && RankedIf(heap, rank) && Bisimulation(heap, true, S)
    requires a < |heap| && b < |heap| && heap[a].canAddr == heap[b].canAddr && InRank(rank, a, b)
    ensures equal == Some(true) ==> Bisimulation(heap, true, claims) && Either(claims, a, b)
    ensures Either(S, a, b) ==> equal != Some(false)
    ensures rank.Some? && MostCalls(heap, rank.value) <= limit ==> equal.Some?
  {
    var c := new Comparison(heap, limit);
    ghost var before := c.claims;
    assert c.Budget() == AllVisits(heap, |heap|);
    equal := c.DeepValueEqual(Some(a), Some(b), 0, rank, S);
    claims := c.claims;
    if equal == Some(true) {
      assert c.Founded(before) && before == {};
      forall x, y | (x, y) in claims ensures x < |heap| && y < |heap| && Similar(heap, true, claims, x, y) {
        assert (x, y) !in before;
      }
    }
  }

  /** DeepEqual of two interface values, nil or holding values of their own, on a stack with room
      for limit calls; None if it overflows. The answer is right, true exactly when some
      bisimulation up to identity relates the two, and there is one if every cycle of pairs that
      the comparison can come to passes one that is remembered and the stack is large enough. */
  method DeepEqual(heap: Heap, a: Option<Node>, b: Option<Node>, limit: nat, ghost rank: Option<Ranking>)
      returns (equal: Option<bool>)
    requires WellFormed(heap) && (rank.Some? ==> Bounded(heap, rank.value, a, b))
    requires (a.Some? ==> a.value < |heap| && !heap[a.value].canAddr) &&
      (b.Some? ==> b.value < |heap| && !heap[b.value].canAddr)
    ensures equal.Some? ==> Answers(heap, a, b, equal.value)
    ensures rank.Some? && MostCalls(heap, rank.value) <= limit ==> equal.Some?
  {
    if a.None? || b.None? {
      return Some(a.None? && b.None?);
    }
    if heap[a.value].typ != heap[b.value].typ {
      if R: Relation :| Bisimulation(heap, true, R) && Either(R, a.value, b.value) {
        EitherSimilar(heap, true, R, a.value, b.value);
      }
      return Some(false);
    }
    ghost var S: Relation := {};
    if R: Relation :| Bisimulation(heap, true, R) && Either(R, a.value, b.value) {
      S := R;
    }
    ghost var claims;
    equal, claims := Compare(heap, a.value, b.value, limit, rank, S);
  }

  // ------------------------------------------------------------------ the meaning of identity

  ghost predicate Descends(h: Heap, a: Node, x: Node, q: seq<Node>) {
    q != [] && q[0] == a && q[|q| - 1] == x && (forall i :: 0 <= i < |q| ==> q[i] < |h|) &&
    forall i :: 0 <= i < |q| - 1 ==> IsChild(h[q[i]].shape, q[i + 1])
  }

  /** x is a, or an element of it, or an element of that, and so on. */
  ghost predicate Reaches(h: Heap, a: Node, x: Node) { exists q :: Descends(h, a, x, q) }

  /** A function that is not nil. */
  predicate IsFunc(s: Shape) { s.Func? && !s.isNil }

  ghost predicate ReachesFunc(h: Heap, a: Node) { exists x: nat :: x < |h| && Reaches(h, a, x) && IsFunc(h[x].shape) }

  lemma ChildReached(h: Heap, a: Node, x: Node, c: Node)
    requires ChildrenOk(h) && Reaches(h, a, x) && x < |h| && IsChild(h[x].shape, c)
    ensures c < |h| && Reaches(h, a, c)
  {
    var q :| Descends(h, a, x, q);
    var r := q + [c];
    forall i | 0 <= i < |r| - 1 ensures IsChild(h[r[i]].shape, r[i + 1]) {
      if i < |q| - 1 { assert r[i + 1] == q[i + 1]; }
    }
    assert Descends(h, a, c, r);
  }

  /** What is related without regard to identity is related down to the leaves. */
  lemma {:induction false} RelatedBelow(h: Heap, R: Relation, a: Node, b: Node, x: Node, q: seq<Node>) returns (y: Node)
    requires WellFormed(h) && Bisimulation(h, false, R) && Either(R, a, b) && Descends(h, a, x, q)
    ensures Either(R, x, y)
    decreases |q|
  {
    if |q| == 1 {
      y := b;
    } else {
      var p := q[..|q| - 1];
      var w := p[|p| - 1];
      assert IsChild(h[w].shape, x);
      var v := RelatedBelow(h, R, a, b, w, p);
      EitherSimilar(h, false, R, w, v);
      y := ElementRelated(R, h[w].shape, h[v].shape, x);
    }
  }

  lemma ElementRelated(R: Relation, s: Shape, t: Shape, x: Node) returns (y: Node)
    requires SimilarShapes(false, R, s, t) && IsChild(s, x)
    ensures Either(R, x, y)
  {
    match s {
      case Array(xs) => var i :| 0 <= i < |xs| && xs[i] == x; y := t.elems[i];
      case Struct(xs) => var i :| 0 <= i < |xs| && xs[i] == x; y := t.fields[i];
      case Slice(_, _, xs) => var i :| 0 <= i < |xs| && xs[i] == x; y := t.items[i];
      case Interface(_) => y := t.elem.value;
      case Ptr(_) => y := t.elem.value;
      case Map(_, _, xs) =>
        var k := KeyOf(xs, x);
        y := t.entries[k];
      case _ =>
    }
  }

  lemma KeyOf<K, V>(m: map<K, V>, v: V) returns (k: K)
    requires v in m.Values
    ensures k in m && m[k] == v
  {
    k :| k in m && m[k] == v;
  }

  function Swapped(R: Relation): (S: Relation)
    ensures forall x: nat, y: nat :: (x, y) in S <==> (y, x) in R
  {
    var S := set p | p in R :: (p.1, p.0);
    assert forall p :: p in R ==> (p.1, p.0) in S;
    S
  }

  ghost function Diagonal(n: nat): (R: Relation)
    ensures forall x: nat, y: nat :: (x, y) in R <==> x == y < n
  {
    if n == 0 then {} else Diagonal(n - 1) + {(n - 1, n - 1)}
  }

  /** What R relates, read both ways, and equality, for the values that a reaches. */
  ghost function Below(h: Heap, R: Relation, a: Node): (S: Relation)
    ensures forall x: nat, y: nat :: (x, y) in S <==> (Either(R, x, y) || x == y < |h|) && Reaches(h, a, x)
  {
    set p | p in R + Swapped(R) + Diagonal(|h|) && Reaches(h, a, p.0)
  }

  /** The elements of a reached value are related in the same way as the elements of another. */
  lemma BelowSelf(h: Heap, R: Relation, a: Node, x: Node)
    requires WellFormed(h) && x < |h| && Reaches(h, a, x) && !IsFunc(h[x].shape)
    ensures SimilarShapes(false, Below(h, R, a), h[x].shape, h[x].shape)
  {
    var S := Below(h, R, a);
    forall c: nat | IsChild(h[x].shape, c) ensures Either(S, c, c) {
      ChildReached(h, a, x, c);
      assert (c, c) in S;
    }
    SelfSimilarShape(S, h[x].shape);
  }

  lemma SelfSimilarShape(R: Relation, s: Shape)
    requires forall c: nat :: IsChild(s, c) ==> Either(R, c, c)
    requires !IsFunc(s)
    ensures SimilarShapes(false, R, s, s)
  {
    match s {
      case Array(xs) => forall i | 0 <= i < |xs| ensures Either(R, xs[i], xs[i]) { assert IsChild(s, xs[i]); }
      case Struct(xs) => forall i | 0 <= i < |xs| ensures Either(R, xs[i], xs[i]) { assert IsChild(s, xs[i]); }
      case Slice(_, _, xs) => forall i | 0 <= i < |xs| ensures Either(R, xs[i], xs[i]) { assert IsChild(s, xs[i]); }
      case Interface(x) => if x.Some? { assert IsChild(s, x.value); }
      case Ptr(x) => if x.Some? { assert IsChild(s, x.value); }
      case Map(_, _, xs) => forall k | k in xs ensures Either(R, xs[k], xs[k]) { assert IsChild(s, xs[k]); }
      case _ =>
    }
  }

  /** Without the shortcuts, and with other relations for the elements. */
  lemma ShapesPlainly(R: Relation, S: Relation, s: Shape, t: Shape)
    requires SimilarShapes(true, R, s, t) && Shared(s, t) && SimilarShapes(false, S, s, s)
    requires forall c: nat, d: nat :: IsChild(s, c) && Either(R, c, d) ==> Either(S, c, d)
    ensures SimilarShapes(false, S, s, t)
  {
    match s {
      case Array(xs) => forall i | 0 <= i < |xs| ensures Either(S, xs[i], t.elems[i]) { assert IsChild(s, xs[i]); }
      case Struct(xs) => forall i | 0 <= i < |xs| ensures Either(S, xs[i], t.fields[i]) { assert IsChild(s, xs[i]); }
      case Slice(_, p, xs) =>
        if p != t.pointer {
          forall i | 0 <= i < |xs| ensures Either(S, xs[i], t.items[i]) { assert IsChild(s, xs[i]); }
        }
      case Interface(x) => if x.Some? { assert IsChild(s, x.value); }
      case Ptr(x) => if x.Some? { assert IsChild(s, x.value); }
      case Map(_, p, xs) =>
        if p != t.pointer { forall k | k in xs ensures Either(S, xs[k], t.entries[k]) { assert IsChild(s, xs[k]); } }
      case _ =>
    }
  }

  lemma PlainlySimilar(h: Heap, R: Relation, a: Node, x: Node, y: Node)
    requires WellFormed(h) && Bisimulation(h, true, R) && !ReachesFunc(h, a)
    requires Reaches(h, a, x) && (Either(R, x, y) || x == y < |h|)
    ensures x < |h| && y < |h| && Similar(h, false, Below(h, R, a), x, y)
  {
    var S := Below(h, R, a);
    if Either(R, x, y) { EitherSimilar(h, true, R, x, y); }
    BelowSelf(h, R, a, x);
    if x != y {
      assert !SameMemory(h[x], h[y]);
      forall c: nat, d: nat | IsChild(h[x].shape, c) && Either(R, c, d) ensures Either(S, c, d) {
        ChildReached(h, a, x, c);
        assert (c, d) in S;
      }
      ShapesPlainly(R, S, h[x].shape, h[y].shape);
    }
  }

  /** What the shortcuts for identical memory change: two values are related without them iff they
      are related with them and no function other than nil can be reached from the first. So
      DeepEqual decides bisimilarity proper exactly where no such function is found. */
  lemma IdentityMatters(h: Heap, a: Node, b: Node)
    requires WellFormed(h) && a < |h| && b < |h|
    ensures Related(h, false, a, b) <==> Related(h, true, a, b) && !ReachesFunc(h, a)
  {
    if R: Relation :| Bisimulation(h, false, R) && Either(R, a, b) {
      assert Bisimulation(h, true, R);
      if x: nat :| x < |h| && Reaches(h, a, x) && IsFunc(h[x].shape) {
        var q :| Descends(h, a, x, q);
        var y := RelatedBelow(h, R, a, b, x, q);
        EitherSimilar(h, false, R, x, y);
      }
    }
    if R: Relation :| Bisimulation(h, true, R) && Either(R, a, b) && !ReachesFunc(h, a) {
      assert Descends(h, a, a, [a]);
      var S := Below(h, R, a);
      forall x, y | (x, y) in S ensures x < |h| && y < |h| && Similar(h, false, S, x, y) {
        PlainlySimilar(h, R, a, x, y);
      }
      assert Bisimulation(h, false, S) && (a, b) in S;
    }
  }

  /** With a function it does matter: a pointer to a struct with a function in field k is equal to
      itself, although no bisimulation relates the function to itself. */
  lemma FunctionBehindPointer(h: Heap, a: Node, b: Node, k: nat)
    requires a < |h| && b < |h| && h[a].shape == Ptr(Some(b)) && Recorded(h[b]) && h[b].shape.Struct? &&
      k < |h[b].shape.fields|
    requires h[b].shape.fields[k] < |h| && h[h[b].shape.fields[k]].shape == Func(false)
    ensures Related(h, true, a, a) && !Related(h, false, a, a)
  {
    var R: Relation := {(a, a), (b, b)};
    assert Either(R, b, b);
    assert Bisimulation(h, true, R) && Either(R, a, a);
    forall S: Relation | Bisimulation(h, false, S) ensures !Either(S, a, a) {
      var f := h[b].shape.fields[k];
      if Either(S, a, a) && Either(S, b, b) && Either(S, f, f) {}
    }
  }

  /** A pointer to a struct whose only field holds a function. */
  const POINTER_HEAP: Heap := [Value(0, false, 0, Ptr(Some(1))), Value(1, true, 0, Struct([2])),
    Value(2, true, 0, Func(false))]

  const POINTER_RANK: Ranking := map[(0, 0) := 1, (1, 1) := 0]

  lemma PointerChild(a: nat, c: nat)
    requires a < 3 && IsChild(POINTER_HEAP[a].shape, c)
    ensures c < 3 && POINTER_HEAP[c].canAddr == ChildAddressable(POINTER_HEAP[a])
  {
    if a == 0 { assert c == 1; } else { assert a == 1 && c == 2; }
  }

  lemma PointerHeapIsOk()
    ensures WellFormed(POINTER_HEAP)
  {
    var h := POINTER_HEAP;
    assert |h| == 3 && h[0].typ == 0 && h[1].typ == 1 && h[2].typ == 2;
    forall a: nat, c: nat | a < |h| && IsChild(h[a].shape, c)
      ensures c < |h| && h[c].canAddr == ChildAddressable(h[a]) {
      PointerChild(a, c);
    }
    forall a, b | 0 <= a < |h| && 0 <= b < |h| && h[a].typ == h[b].typ ensures a == b {}
  }

  lemma PointerHeapIsRanked()
    ensures Ranked(POINTER_HEAP, POINTER_RANK)
  {
    assert Falls(POINTER_HEAP, POINTER_RANK, 0, 0);
    assert SameMemory(POINTER_HEAP[1], POINTER_HEAP[1]);
  }

  /** DeepEqual takes it to be equal to itself, which it is not without the shortcuts. */
  method PointerToFunction(limit: nat) returns (equal: Option<bool>)
    requires MostCalls(POINTER_HEAP, POINTER_RANK) <= limit
    ensures equal == Some(true) && !Related(POINTER_HEAP, false, 0, 0)
  {
    PointerHeapIsOk();
    PointerHeapIsRanked();
    FunctionBehindPointer(POINTER_HEAP, 0, 1, 0);
    equal := DeepEqual(POINTER_HEAP, Some(0), Some(0), limit, Some(POINTER_RANK));
  }
}
