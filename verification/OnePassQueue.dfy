/** The sparse set that onepass.go uses as a queue (src/regexp/onepass.go:89-142). The entries
    of sparse that no element of dense points back to may hold anything. */
module OnePassQueue {

  class QueueOnePass {
    const sparse: array<nat>
    const dense: array<nat>
    var size: nat
    var nextIndex: nat

    ghost predicate Valid()
      reads this, sparse, dense
    {
      sparse != dense && sparse.Length == dense.Length && size <= dense.Length &&
      forall i :: 0 <= i < size ==> dense[i] < sparse.Length && sparse[dense[i]] == i
    }

    /** What has been inserted, in order. */
    ghost function Elements(): seq<nat>
      requires Valid()
      reads this, sparse, dense
    {
      dense[..size]
    }

    /** newQueue; nothing depends on what the arrays hold. */
    constructor (n: nat)
      ensures Valid() && fresh(sparse) && fresh(dense) && Elements() == [] && nextIndex == 0 && sparse.Length == n
    {
      sparse := new nat[n];
      dense := new nat[n];
      size, nextIndex := 0, 0;
    }

    method Empty() returns (r: bool)
      requires Valid()
      ensures r <==> nextIndex >= |Elements()|
    {
      r := nextIndex >= size;
    }

    method Next() returns (n: nat)
      requires Valid() && nextIndex < |Elements()|
      modifies this`nextIndex
      ensures Valid() && n == Elements()[old(nextIndex)] && nextIndex == old(nextIndex) + 1
    {
      n := dense[nextIndex];
      nextIndex := nextIndex + 1;
    }

    method Clear()
      requires Valid()
      modifies this`size, this`nextIndex
      ensures Valid() && Elements() == [] && nextIndex == 0
    {
      size, nextIndex := 0, 0;
    }

    method Reset()
      requires Valid()
      modifies this`nextIndex
      ensures Valid() && nextIndex == 0
    {
      nextIndex := 0;
    }

    method Contains(u: nat) returns (r: bool)
      requires Valid()
      ensures r <==> u in Elements()
    {
      if u >= sparse.Length {
        return false;
      }
      r := sparse[u] < size && dense[sparse[u]] == u;
      assert r ==> Elements()[sparse[u]] == u;
    }

    /** Inserts u unless it is there already; numbers out of range are ignored. */
    method Insert(u: nat)
      requires Valid()
      modifies this`size, sparse, dense
      ensures Valid()
      ensures Elements() == old(Elements()) + if u in old(Elements()) || u >= sparse.Length then [] else [u]
    {
      var there := Contains(u);
      if !there {
        InsertNew(u);
      }
    }

    method InsertNew(u: nat)
      requires Valid() && u !in Elements()
      modifies this`size, sparse, dense
      ensures Valid()
      ensures Elements() == old(Elements()) + if u >= sparse.Length then [] else [u]
    {
      if u >= sparse.Length {
        return;
      }
      HasRoom(Elements(), sparse.Length, u);
      ghost var was := Elements();
      sparse[u] := size;
      dense[size] := u;
      size := size + 1;
      assert dense[..size] == was + [u];
      assert forall i :: 0 <= i < size - 1 ==> dense[i] == was[i] && dense[i] != u;
    }
  }

  ghost predicate DistinctBelow(s: seq<nat>, n: nat) {
    (forall i :: 0 <= i < |s| ==> s[i] < n) && (forall i, j :: 0 <= i < j < |s| ==> s[i] != s[j])
  }

  /** Distinct numbers below n that leave one out are fewer than n. */
  lemma {:induction false} HasRoom(s: seq<nat>, n: nat, u: nat)
    requires DistinctBelow(s, n) && u < n && u !in s
    ensures |s| < n
  {
    var top := n - 1;
    if top !in s {
      if s != [] && u < top { HasRoom(s, top, u); } else if s != [] { FewerBelow(s, top); }
    } else {
      var i :| 0 <= i < |s| && s[i] == top;
      var rest := s[..i] + s[i + 1..];
      assert u != top;
      HasRoom(rest, top, u);
    }
  }

  lemma {:induction false} FewerBelow(s: seq<nat>, n: nat)
    requires DistinctBelow(s, n)
    ensures |s| <= n
    decreases n
  {
    if s != [] { assert s[0] < n; }
    if n > 0 {
      if n - 1 in s {
        var i :| 0 <= i < |s| && s[i] == n - 1;
        FewerBelow(s[..i] + s[i + 1..], n - 1);
      } else {
        FewerBelow(s, n - 1);
      }
    }
  }
}
