/** Ordered depth-first search, as a specification and as a memoised worklist.

    A graph maps every node to its successors in priority order. `Naive` is the
    plain backtracking search: no table of visited nodes, only the rule that a
    path may not repeat a node. `Explore` is the same search with a table. The
    regular-expression machines are proved against these two functions. */
module Search {

  datatype Option<+T> = None | Some(value: T)

  type Graph<N> = map<N, seq<N>>

  /** A node together with the path that led to it. */
  datatype Trail<N> = Trail(prefix: seq<N>, node: N) {
    function Path(): seq<N> { prefix + [node] }
  }

  ghost function Nodes<N>(p: seq<N>): set<N> { set i | 0 <= i < |p| :: p[i] }

  // ------------------------------------------------------------ specification

  /** The first path a backtracking search from c finds to a node of T, when it
      tries successors in order and never enters a node of avoid or of its own path. */
  ghost function Naive<N>(g: Graph<N>, T: set<N>, avoid: set<N>, c: N): Option<seq<N>>
    decreases g.Keys - avoid, 0
  {
    if c in avoid || c !in g then None
    else if c in T then Some([c])
    else match NaiveFirst(g, T, avoid + {c}, g[c]) {
      case None => None
      case Some(r) => Some([c] + r)
    }
  }

  /** The same search from each of cs in turn, stopping at the first success. */
  ghost function NaiveFirst<N>(g: Graph<N>, T: set<N>, avoid: set<N>, cs: seq<N>): Option<seq<N>>
    decreases g.Keys - avoid, |cs| + 1
  {
    if cs == [] then None
    else match Naive(g, T, avoid, cs[0]) {
      case Some(r) => Some(r)
      case None => NaiveFirst(g, T, avoid, cs[1..])
    }
  }

  /** Backtracking search from a list of pending trails. */
  ghost function FirstNaive<N>(g: Graph<N>, T: set<N>, todo: seq<Trail<N>>): Option<seq<N>> {
    if todo == [] then None
    else match Naive(g, T, Nodes(todo[0].prefix), todo[0].node) {
      case Some(r) => Some(todo[0].prefix + r)
      case None => FirstNaive(g, T, todo[1..])
    }
  }

  ghost predicate IsPath<N>(g: Graph<N>, p: seq<N>) {
    p == [] || (p[0] in g && (|p| > 1 ==> p[1] in g[p[0]]) && IsPath(g, p[1..]))
  }

  ghost predicate Simple<N>(p: seq<N>) {
    forall i, j :: 0 <= i < j < |p| ==> p[i] != p[j]
  }

  /** p is a path from c to T. */
  ghost predicate Leads<N>(g: Graph<N>, T: set<N>, c: N, p: seq<N>) {
    |p| > 0 && IsPath(g, p) && p[0] == c && p[|p| - 1] in T
  }

  ghost predicate Reaches<N(!new)>(g: Graph<N>, T: set<N>, c: N) {
    exists p :: Leads(g, T, c, p)
  }

  /** p comes no later than q in priority order: they agree up to some node,
      where p takes an earlier successor. */
  ghost predicate NoLater<N>(g: Graph<N>, p: seq<N>, q: seq<N>)
    decreases |p|
  {
    p == q ||
    (|p| > 1 && |q| > 1 && p[0] == q[0] && p[0] in g &&
     if p[1] == q[1] then NoLater(g, p[1..], q[1..])
     else exists i :: 0 <= i < |g[p[0]]| && g[p[0]][i] == p[1] && q[1] !in g[p[0]][..i])
  }

  lemma {:induction false} NaiveSound<N>(g: Graph<N>, T: set<N>, avoid: set<N>, c: N)
    ensures var r := Naive(g, T, avoid, c);
      r.Some? ==> Leads(g, T, c, r.value) && Simple(r.value) && Nodes(r.value) !! avoid
    decreases g.Keys - avoid, 0
  {
    var r := Naive(g, T, avoid, c);
    if r.Some? && c !in T {
      NaiveFirstSound(g, T, avoid + {c}, g[c]);
      var s := NaiveFirst(g, T, avoid + {c}, g[c]).value;
      assert r.value == [c] + s;
      assert c !in Nodes(s);
      assert forall i :: 0 <= i < |s| ==> s[i] in Nodes(s);
      assert r.value[1..] == s;
    }
  }

  lemma {:induction false} NaiveFirstSound<N>(g: Graph<N>, T: set<N>, avoid: set<N>, cs: seq<N>)
    ensures var r := NaiveFirst(g, T, avoid, cs);
      r.Some? ==> |r.value| > 0 && r.value[0] in cs && Leads(g, T, r.value[0], r.value)
                  && Simple(r.value) && Nodes(r.value) !! avoid
    decreases g.Keys - avoid, |cs| + 1
  {
    if cs != [] {
      NaiveSound(g, T, avoid, cs[0]);
      NaiveFirstSound(g, T, avoid, cs[1..]);
    }
  }

  lemma {:induction false} NaiveFirstFinds<N>(g: Graph<N>, T: set<N>, avoid: set<N>, cs: seq<N>, i: nat)
    requires i < |cs| && Naive(g, T, avoid, cs[i]).Some?
    ensures NaiveFirst(g, T, avoid, cs).Some?
  {
    if i > 0 { NaiveFirstFinds(g, T, avoid, cs[1..], i - 1); }
  }

  lemma {:induction false} PathSuffix<N>(g: Graph<N>, p: seq<N>, i: nat)
    requires IsPath(g, p) && i <= |p|
    ensures IsPath(g, p[i..])
  {
    if i > 0 {
      PathSuffix(g, p[1..], i - 1);
      assert p[1..][i - 1..] == p[i..];
    } else {
      assert p[0..] == p;
    }
  }

  /** The no-repeat rule loses nothing: any path at all that keeps out of avoid makes the search succeed. */
  lemma {:induction false} NaiveComplete<N>(g: Graph<N>, T: set<N>, avoid: set<N>, c: N, p: seq<N>)
    requires Leads(g, T, c, p) && Nodes(p) !! avoid
    ensures Naive(g, T, avoid, c).Some?
    decreases |p|
  {
    assert p[0] in Nodes(p);
    if c !in T {
      if i :| 0 < i < |p| && p[i] == c {
        PathSuffix(g, p, i);
        NaiveComplete(g, T, avoid, c, p[i..]);
      } else {
        var i :| 0 <= i < |g[c]| && g[c][i] == p[1];
        NaiveComplete(g, T, avoid + {c}, p[1], p[1..]);
        NaiveFirstFinds(g, T, avoid + {c}, g[c], i);
      }
    }
  }

  /** Backtracking succeeds exactly when T can be reached. */
  lemma NaiveDecides<N(!new)>(g: Graph<N>, T: set<N>, c: N)
    ensures Naive(g, T, {}, c).Some? <==> Reaches(g, T, c)
  {
    NaiveSound(g, T, {}, c);
    if p :| Leads(g, T, c, p) { NaiveComplete(g, T, {}, c, p); }
  }

  /** What the search returns precedes every simple path to T in priority order. */
  lemma {:induction false} NaiveIsFirst<N>(g: Graph<N>, T: set<N>, avoid: set<N>, c: N, q: seq<N>)
    requires Leads(g, T, c, q) && Simple(q) && Nodes(q) !! avoid
    requires forall i :: 0 <= i < |q| - 1 ==> q[i] !in T
    ensures var r := Naive(g, T, avoid, c); r.Some? && NoLater(g, r.value, q)
    decreases |q|
  {
    NaiveComplete(g, T, avoid, c, q);
    var r := Naive(g, T, avoid, c).value;
    if |q| == 1 {
      assert q == [c];
    } else {
      assert q[0] == c && c !in T;
      var q' := q[1..];
      var i :| 0 <= i < |g[c]| && g[c][i] == q[1] && forall j :: 0 <= j < i ==> g[c][j] != q[1] by {
        FirstIndex(g[c], q[1]);
      }
      assert Nodes(q') !! (avoid + {c});
      NaiveIsFirst(g, T, avoid + {c}, q[1], q');
      var j := NaiveFirstAt(g, T, avoid + {c}, g[c], i);
      var s := NaiveFirst(g, T, avoid + {c}, g[c]).value;
      NaiveSound(g, T, avoid + {c}, g[c][j]);
      assert r[1..] == s && r[1] == g[c][j];
      if r[1] == q[1] {
        assert NoLater(g, s, q');
      } else {
        assert q[1] !in g[c][..j];
      }
    }
  }

  lemma {:induction false} FirstIndex<N>(s: seq<N>, x: N)
    requires x in s
    ensures exists i :: 0 <= i < |s| && s[i] == x && forall j :: 0 <= j < i ==> s[j] != x
  {
    if s[0] != x {
      FirstIndex(s[1..], x);
      var i :| 0 <= i < |s[1..]| && s[1..][i] == x && forall j :: 0 <= j < i ==> s[1..][j] != x;
      assert s[i + 1] == x;
      assert forall j :: 0 < j < i + 1 ==> s[j] == s[1..][j - 1];
    }
  }

  /** The alternative that NaiveFirst settles on is no later than any successful one. */
  lemma {:induction false} NaiveFirstAt<N>(g: Graph<N>, T: set<N>, avoid: set<N>, cs: seq<N>, i: nat) returns (j: nat)
    requires i < |cs| && Naive(g, T, avoid, cs[i]).Some?
    ensures j <= i && Naive(g, T, avoid, cs[j]).Some? && NaiveFirst(g, T, avoid, cs) == Naive(g, T, avoid, cs[j])
  {
    if Naive(g, T, avoid, cs[0]).Some? {
      j := 0;
    } else {
      j := NaiveFirstAt(g, T, avoid, cs[1..], i - 1);
      j := j + 1;
    }
  }

  // ------------------------------------------------------- memoised exploration

  ghost function Visited<N>(L: seq<Trail<N>>): set<N> { set i | 0 <= i < |L| :: L[i].node }

  ghost function Children<N>(g: Graph<N>, t: Trail<N>): seq<Trail<N>>
    requires t.node in g
  {
    seq(|g[t.node]|, i requires 0 <= i < |g[t.node]| => Trail(t.Path(), g[t.node][i]))
  }

  /** Depth-first exploration: the nodes first reached from todo, in the order they
      are reached, each with the path that reached it, appended to those in L. */
  ghost function Explore<N>(g: Graph<N>, todo: seq<Trail<N>>, L: seq<Trail<N>>): seq<Trail<N>>
    decreases g.Keys - Visited(L), |todo|
  {
    if todo == [] then L
    else
      var t := todo[0];
      if t.node in Visited(L) || t.node !in g then Explore(g, todo[1..], L)
      else
        VisitedGrows(L, t);
        Explore(g, Children(g, t) + todo[1..], L + [t])
  }

  lemma VisitedGrows<N>(L: seq<Trail<N>>, t: Trail<N>)
    ensures Visited(L + [t]) == Visited(L) + {t.node}
  {
    var M := L + [t];
    forall n | n in Visited(L) + {t.node} ensures n in Visited(M) {
      if n in Visited(L) {
        var i :| 0 <= i < |L| && L[i].node == n;
        assert M[i].node == n;
      } else {
        assert M[|L|].node == n;
      }
    }
  }

  lemma {:induction false} ExploreExtends<N>(g: Graph<N>, todo: seq<Trail<N>>, L: seq<Trail<N>>)
    ensures L <= Explore(g, todo, L)
    decreases g.Keys - Visited(L), |todo|
  {
    if todo != [] {
      var t := todo[0];
      if t.node in Visited(L) || t.node !in g {
        ExploreExtends(g, todo[1..], L);
      } else {
        VisitedGrows(L, t);
        ExploreExtends(g, Children(g, t) + todo[1..], L + [t]);
      }
    }
  }

  lemma {:induction false} ExploreConcat<N>(g: Graph<N>, A: seq<Trail<N>>, B: seq<Trail<N>>, L: seq<Trail<N>>)
    ensures Explore(g, A + B, L) == Explore(g, B, Explore(g, A, L))
    decreases g.Keys - Visited(L), |A|
  {
    if A == [] {
      assert A + B == B;
    } else {
      var t := A[0];
      assert (A + B)[1..] == A[1..] + B;
      if t.node in Visited(L) || t.node !in g {
        ExploreConcat(g, A[1..], B, L);
      } else {
        VisitedGrows(L, t);
        assert Children(g, t) + (A + B)[1..] == (Children(g, t) + A[1..]) + B;
        ExploreConcat(g, Children(g, t) + A[1..], B, L + [t]);
      }
    }
  }

  /** The first trail of L whose node is in T. */
  ghost function FirstIn<N>(T: set<N>, L: seq<Trail<N>>): Option<seq<N>> {
    if L == [] then None
    else if L[0].node in T then Some(L[0].Path())
    else FirstIn(T, L[1..])
  }

  lemma {:induction false} FirstInConcat<N>(T: set<N>, A: seq<Trail<N>>, B: seq<Trail<N>>)
    ensures FirstIn(T, A + B) == if FirstIn(T, A).Some? then FirstIn(T, A) else FirstIn(T, B)
  {
    if A == [] {
      assert A + B == B;
    } else {
      assert (A + B)[1..] == A[1..] + B;
      FirstInConcat(T, A[1..], B);
    }
  }

  lemma {:induction false} FirstInNone<N>(T: set<N>, L: seq<Trail<N>>)
    ensures FirstIn(T, L).None? <==> Visited(L) !! T
  {
    if L != [] {
      FirstInNone(T, L[1..]);
      assert Visited(L) == {L[0].node} + Visited(L[1..]) by {
        assert L == [L[0]] + L[1..];
        forall n | n in Visited(L[1..]) ensures n in Visited(L) {
          var i :| 0 <= i < |L[1..]| && L[1..][i].node == n;
          assert L[i + 1].node == n;
        }
        assert L[0].node in Visited(L);
      }
    }
  }

  /** Pending trails are nested as on a depth-first stack; the nodes of g they lead through are visited. */
  ghost predicate Nested<N>(g: Graph<N>, todo: seq<Trail<N>>, L: seq<Trail<N>>) {
    && (forall i, j :: 0 <= i < j < |todo| ==> todo[j].prefix <= todo[i].prefix)
    && forall i :: 0 <= i < |todo| ==> Nodes(todo[i].prefix) * g.Keys <= Visited(L)
  }

  /** Every successor of a visited node is visited or still pending under it. */
  ghost predicate Tracked<N>(g: Graph<N>, todo: seq<Trail<N>>, L: seq<Trail<N>>) {
    forall b, s :: b in Visited(L) && b in g && s in g[b] && s in g ==>
      s in Visited(L) || exists k :: 0 <= k < |todo| && todo[k].node == s && PendsUnder(todo[k], b)
  }

  ghost predicate PendsUnder<N>(t: Trail<N>, b: N) {
    |t.prefix| > 0 && t.prefix[|t.prefix| - 1] == b
  }

  lemma TrackedSkip<N>(g: Graph<N>, todo: seq<Trail<N>>, L: seq<Trail<N>>)
    requires todo != [] && Tracked(g, todo, L) && Nested(g, todo, L)
    requires todo[0].node in Visited(L) || todo[0].node !in g
    ensures Tracked(g, todo[1..], L) && Nested(g, todo[1..], L)
  {
    forall b, s | b in Visited(L) && b in g && s in g[b] && s in g && s !in Visited(L)
      ensures exists k :: 0 <= k < |todo[1..]| && todo[1..][k].node == s && PendsUnder(todo[1..][k], b)
    {
      var k :| 0 <= k < |todo| && todo[k].node == s && PendsUnder(todo[k], b);
      assert todo[1..][k - 1] == todo[k];
    }
  }

  lemma TrackedVisit<N>(g: Graph<N>, todo: seq<Trail<N>>, L: seq<Trail<N>>)
    requires todo != [] && Tracked(g, todo, L) && Nested(g, todo, L)
    requires todo[0].node !in Visited(L) && todo[0].node in g
    ensures var t := todo[0]; var todo' := Children(g, t) + todo[1..];
      Tracked(g, todo', L + [t]) && Nested(g, todo', L + [t])
  {
    var t := todo[0];
    var ch := Children(g, t);
    var todo' := ch + todo[1..];
    VisitedGrows(L, t);
    forall b, s | b in Visited(L + [t]) && b in g && s in g[b] && s in g && s !in Visited(L + [t])
      ensures exists k :: 0 <= k < |todo'| && todo'[k].node == s && PendsUnder(todo'[k], b)
    {
      if b == t.node {
        var i :| 0 <= i < |g[b]| && g[b][i] == s;
        assert todo'[i] == Trail(t.Path(), s);
      } else {
        var k :| 0 <= k < |todo| && todo[k].node == s && PendsUnder(todo[k], b);
        assert k > 0;
        assert todo'[|ch| + k - 1] == todo[k];
      }
    }
    forall i | 0 <= i < |todo'| ensures Nodes(todo'[i].prefix) * g.Keys <= Visited(L + [t]) {
      if i < |ch| {
        NodesAppend(t.prefix, t.node);
        assert todo'[i].prefix == t.Path() && Nodes(t.prefix) * g.Keys <= Visited(L);
      } else { assert todo'[i] == todo[i - |ch| + 1]; }
    }
    forall i, j | 0 <= i < j < |todo'| ensures todo'[j].prefix <= todo'[i].prefix {
      if j >= |ch| {
        assert todo'[j] == todo[j - |ch| + 1];
        if i >= |ch| { assert todo'[i] == todo[i - |ch| + 1]; }
        else { assert todo'[j].prefix <= t.prefix <= t.Path(); }
      }
    }
  }

  /** A visited node from which nothing of T was found cannot lead to T without
      going back through the current path: this is why it may be skipped. */
  lemma {:induction false} Blocked<N>(g: Graph<N>, T: set<N>, V: set<N>, avoid: set<N>, c: N)
    requires c in V && V !! T
    requires forall b, s :: b in V && b !in avoid && b in g && s in g[b] && s in g ==> s in V
    ensures Naive(g, T, avoid, c).None?
  {
    NaiveSound(g, T, avoid, c);
    var r := Naive(g, T, avoid, c);
    if r.Some? { Confined(g, V, avoid, r.value); }
  }

  lemma {:induction false} Confined<N>(g: Graph<N>, V: set<N>, avoid: set<N>, p: seq<N>)
    requires |p| > 0 && IsPath(g, p) && Nodes(p) !! avoid && p[0] in V
    requires forall b, s :: b in V && b !in avoid && b in g && s in g[b] && s in g ==> s in V
    ensures p[|p| - 1] in V
  {
    if |p| > 1 {
      assert p[0] in Nodes(p);
      assert IsPath(g, p[1..]);
      Confined(g, V, avoid, p[1..]);
    }
  }

  lemma {:induction false} FirstNaiveConcat<N>(g: Graph<N>, T: set<N>, A: seq<Trail<N>>, B: seq<Trail<N>>)
    ensures FirstNaive(g, T, A + B) == if FirstNaive(g, T, A).Some? then FirstNaive(g, T, A) else FirstNaive(g, T, B)
  {
    if A == [] {
      assert A + B == B;
    } else {
      assert (A + B)[1..] == A[1..] + B;
      FirstNaiveConcat(g, T, A[1..], B);
    }
  }

  lemma NodesAppend<N>(p: seq<N>, c: N)
    ensures Nodes(p + [c]) == Nodes(p) + {c}
  {
    var q := p + [c];
    forall n | n in Nodes(p) + {c} ensures n in Nodes(q) {
      if n in Nodes(p) {
        var i :| 0 <= i < |p| && p[i] == n;
        assert q[i] == n;
      } else {
        assert q[|p|] == n;
      }
    }
  }

  lemma {:induction false} FirstNaiveChildren<N>(g: Graph<N>, T: set<N>, t: Trail<N>, k: nat)
    requires t.node in g && k <= |g[t.node]|
    ensures FirstNaive(g, T, Children(g, t)[k..]) ==
      match NaiveFirst(g, T, Nodes(t.prefix) + {t.node}, g[t.node][k..]) {
        case None => None
        case Some(r) => Some(t.Path() + r)
      }
    decreases |g[t.node]| - k
  {
    NodesAppend(t.prefix, t.node);
    if k < |g[t.node]| {
      FirstNaiveChildren(g, T, t, k + 1);
      assert Children(g, t)[k..][1..] == Children(g, t)[k + 1..];
      assert g[t.node][k..][1..] == g[t.node][k + 1..];
      assert Children(g, t)[k..][0] == Trail(t.Path(), g[t.node][k]);
      assert Nodes(t.Path()) == Nodes(t.prefix) + {t.node};
    }
  }

  lemma SkipLosesNothing<N>(g: Graph<N>, T: set<N>, todo: seq<Trail<N>>, L: seq<Trail<N>>)
    requires todo != [] && Nested(g, todo, L) && Tracked(g, todo, L) && Visited(L) !! T
    requires todo[0].node in Visited(L) || todo[0].node !in g
    ensures Naive(g, T, Nodes(todo[0].prefix), todo[0].node).None?
  {
    var avoid := Nodes(todo[0].prefix);
    forall b, s | b in Visited(L) && b !in avoid && b in g && s in g[b] && s in g ensures s in Visited(L) {
    }
    if todo[0].node in g { Blocked(g, T, Visited(L), avoid, todo[0].node); }
  }

  lemma NaiveOfTrail<N>(g: Graph<N>, T: set<N>, t: Trail<N>)
    requires t.node in g && t.node !in T && t.node !in Nodes(t.prefix)
    ensures FirstNaive(g, T, Children(g, t)) ==
      match Naive(g, T, Nodes(t.prefix), t.node) {
        case None => None
        case Some(r) => Some(t.prefix + r)
      }
  {
    FirstNaiveChildren(g, T, t, 0);
    assert Children(g, t)[0..] == Children(g, t) && g[t.node][0..] == g[t.node];
    var inner := NaiveFirst(g, T, Nodes(t.prefix) + {t.node}, g[t.node]);
    if inner.Some? { assert t.prefix + ([t.node] + inner.value) == t.Path() + inner.value; }
  }

  /** The table changes no answer: whatever T is, the first node of T that the memoised
      exploration reaches is reached along the very path plain backtracking finds. */
  lemma {:induction false} ExploreFindsNaive<N>(g: Graph<N>, T: set<N>, todo: seq<Trail<N>>, L: seq<Trail<N>>)
    requires Nested(g, todo, L) && Tracked(g, todo, L) && Visited(L) !! T
    ensures L <= Explore(g, todo, L)
    ensures FirstIn(T, Explore(g, todo, L)[|L|..]) == FirstNaive(g, T, todo)
    decreases g.Keys - Visited(L), |todo|
  {
    ExploreExtends(g, todo, L);
    var E := Explore(g, todo, L);
    if todo != [] {
      var t := todo[0];
      if t.node in Visited(L) || t.node !in g {
        SkipLosesNothing(g, T, todo, L);
        TrackedSkip(g, todo, L);
        ExploreFindsNaive(g, T, todo[1..], L);
      } else {
        var L' := L + [t];
        var rest := Children(g, t) + todo[1..];
        VisitedGrows(L, t);
        ExploreExtends(g, rest, L');
        assert E[|L|..] == [t] + E[|L'|..];
        assert E[|L|..][0] == t && E[|L|..][1..] == E[|L'|..];
        if t.node !in T {
          TrackedVisit(g, todo, L);
          ExploreFindsNaive(g, T, rest, L');
          FirstNaiveConcat(g, T, Children(g, t), todo[1..]);
          NaiveOfTrail(g, T, t);
        }
      }
    }
  }

  /** When nothing is pending any more, the visited nodes are closed under successors. */
  lemma {:induction false} ExploreTracks<N>(g: Graph<N>, todo: seq<Trail<N>>, L: seq<Trail<N>>)
    requires Nested(g, todo, L) && Tracked(g, todo, L)
    ensures Tracked(g, [], Explore(g, todo, L))
    decreases g.Keys - Visited(L), |todo|
  {
    if todo != [] {
      var t := todo[0];
      if t.node in Visited(L) || t.node !in g {
        TrackedSkip(g, todo, L);
        ExploreTracks(g, todo[1..], L);
      } else {
        TrackedVisit(g, todo, L);
        VisitedGrows(L, t);
        ExploreTracks(g, Children(g, t) + todo[1..], L + [t]);
      }
    }
  }

  lemma {:induction false} ExploreStaysIn<N>(g: Graph<N>, todo: seq<Trail<N>>, L: seq<Trail<N>>)
    requires Visited(L) <= g.Keys
    ensures Visited(Explore(g, todo, L)) <= g.Keys
    decreases g.Keys - Visited(L), |todo|
  {
    if todo != [] {
      var t := todo[0];
      if t.node in Visited(L) || t.node !in g {
        ExploreStaysIn(g, todo[1..], L);
      } else {
        VisitedGrows(L, t);
        ExploreStaysIn(g, Children(g, t) + todo[1..], L + [t]);
      }
    }
  }

  ghost predicate Rooted<N>(c: N, L: seq<Trail<N>>) {
    forall i :: 0 <= i < |L| ==> L[i].Path()[0] == c
  }

  lemma {:induction false} ExploreRooted<N>(g: Graph<N>, todo: seq<Trail<N>>, L: seq<Trail<N>>, c: N)
    requires Rooted(c, todo)
    ensures L <= Explore(g, todo, L) && Rooted(c, Explore(g, todo, L)[|L|..])
    decreases g.Keys - Visited(L), |todo|
  {
    ExploreExtends(g, todo, L);
    if todo != [] {
      var t := todo[0];
      if t.node in Visited(L) || t.node !in g {
        ExploreRooted(g, todo[1..], L, c);
      } else {
        VisitedGrows(L, t);
        var rest := Children(g, t) + todo[1..];
        forall i | 0 <= i < |rest| ensures rest[i].Path()[0] == c {
          if i < |Children(g, t)| { assert rest[i].prefix == t.Path(); }
        }
        ExploreRooted(g, rest, L + [t], c);
        var E := Explore(g, todo, L);
        assert E[|L|..] == [t] + E[|L + [t]|..];
      }
    }
  }

  ghost predicate Distinct<N>(L: seq<Trail<N>>) {
    forall i, j :: 0 <= i < j < |L| ==> L[i].node != L[j].node
  }

  /** The table admits every node at most once. */
  lemma {:induction false} ExploreDistinct<N>(g: Graph<N>, todo: seq<Trail<N>>, L: seq<Trail<N>>)
    requires Distinct(L)
    ensures Distinct(Explore(g, todo, L))
    decreases g.Keys - Visited(L), |todo|
  {
    if todo != [] {
      var t := todo[0];
      if t.node in Visited(L) || t.node !in g {
        ExploreDistinct(g, todo[1..], L);
      } else {
        VisitedGrows(L, t);
        forall i | 0 <= i < |L| ensures L[i].node != t.node { assert L[i].node in Visited(L); }
        ExploreDistinct(g, Children(g, t) + todo[1..], L + [t]);
      }
    }
  }

  lemma {:induction false} DistinctSize<N>(L: seq<Trail<N>>)
    requires Distinct(L)
    ensures |Visited(L)| == |L|
  {
    if L != [] {
      var L', t := L[..|L| - 1], L[|L| - 1];
      assert L == L' + [t];
      VisitedGrows(L', t);
      DistinctSize(L');
      assert t.node !in Visited(L');
    }
  }
}
