/** Preparing a program for one-pass execution (src/regexp/onepass.go): the rewrites of
    onePassCopy, the merging of rune sets, and the dispatch on the merged set. */
module OnePass {
  import opened Search
  import opened RegexpProg

  // ------------------------------------------------------------------------ rune sets

  /** Ordered, non-intersecting pairs of a lowest and a highest rune. */
  predicate Ordered(runes: seq<int>) {
    |runes| % 2 == 0 &&
    (forall i :: 0 <= i < Pairs(runes) ==> Low(runes, i) <= High(runes, i)) &&
    (forall i, j :: 0 <= i < j < Pairs(runes) ==> High(runes, i) < Low(runes, j))
  }

  function Pairs(runes: seq<int>): nat { |runes| / 2 }

  function Low(runes: seq<int>, i: nat): int
    requires i < Pairs(runes)
  {
    runes[2 * i]
  }

  function High(runes: seq<int>, i: nat): int
    requires i < Pairs(runes)
  {
    runes[2 * i + 1]
  }

  predicate InPair(runes: seq<int>, i: nat, r: int)
    requires i < Pairs(runes)
  {
    Low(runes, i) <= r <= High(runes, i)
  }

  ghost predicate Covers(runes: seq<int>, r: int) { exists i :: 0 <= i < Pairs(runes) && InPair(runes, i, r) }

  ghost predicate Disjoint(left: seq<int>, right: seq<int>) { forall r :: !(Covers(left, r) && Covers(right, r)) }

  const NO_MATCH := -1

  /** Inst.MatchRunePos: for a single rune whether it is r, or r is one of folds, the other runes
      of its case folding if the instruction ignores case; for a class the pair that holds r. */
  method MatchRunePos(runes: seq<int>, folds: seq<int>, r: int) returns (pos: int)
    requires |runes| != 1 ==> Ordered(runes)
    ensures |runes| == 1 ==> pos == if r == runes[0] || r in folds then 0 else NO_MATCH
    ensures |runes| != 1 && pos == NO_MATCH ==> !Covers(runes, r)
    ensures |runes| != 1 && pos != NO_MATCH ==> 0 <= pos < Pairs(runes) && InPair(runes, pos, r)
  {
    if |runes| == 1 {
      if r == runes[0] {
        return 0;
      }
      var i := 0;
      while i < |folds|
        invariant 0 <= i <= |folds| && r !in folds[..i]
      {
        if r == folds[i] {
          return 0;
        }
        i := i + 1;
      }
      return NO_MATCH;
    }
    pos := FindPair(runes, r);
  }

  /** A look at the first few pairs, then binary search. */
  method FindPair(runes: seq<int>, r: int) returns (pos: int)
    requires Ordered(runes)
    ensures pos == NO_MATCH ==> !Covers(runes, r)
    ensures pos != NO_MATCH ==> 0 <= pos < Pairs(runes) && InPair(runes, pos, r)
  {
    var j := 0;
    while j < |runes| && j <= 8
      invariant 0 <= j <= |runes| && j % 2 == 0
      invariant forall i :: 0 <= i < j / 2 ==> High(runes, i) < r
      decreases |runes| - j
    {
      assert Low(runes, j / 2) == runes[j] && High(runes, j / 2) == runes[j + 1];
      if r < runes[j] {
        BelowPair(runes, j / 2, r);
        return NO_MATCH;
      }
      if r <= runes[j + 1] {
        return j / 2;
      }
      j := j + 2;
    }
    var lo, hi := 0, |runes| / 2;
    while lo < hi
      invariant 0 <= lo <= hi <= Pairs(runes)
      invariant forall i :: 0 <= i < lo ==> High(runes, i) < r
      invariant forall i :: hi <= i < Pairs(runes) ==> r < Low(runes, i)
    {
      var m := lo + (hi - lo) / 2;
      if runes[2 * m] <= r {
        if r <= runes[2 * m + 1] {
          return m;
        }
        AbovePair(runes, m, r);
        lo := m + 1;
      } else {
        UnderPair(runes, m, r);
        hi := m;
      }
    }
    return NO_MATCH;
  }

  lemma BelowPair(runes: seq<int>, j: nat, r: int)
    requires Ordered(runes) && j < Pairs(runes) && r < Low(runes, j)
    requires forall i :: 0 <= i < j ==> High(runes, i) < r
    ensures !Covers(runes, r)
  {
    UnderPair(runes, j, r);
  }

  lemma UnderPair(runes: seq<int>, j: nat, r: int)
    requires Ordered(runes) && j < Pairs(runes) && r < Low(runes, j)
    ensures forall i :: j <= i < Pairs(runes) ==> r < Low(runes, i)
  {
    forall i | j < i < Pairs(runes) ensures r < Low(runes, i) { assert High(runes, j) < Low(runes, i); }
  }

  lemma AbovePair(runes: seq<int>, j: nat, r: int)
    requires Ordered(runes) && j < Pairs(runes) && High(runes, j) < r
    ensures forall i :: 0 <= i <= j ==> High(runes, i) < r
  {
    forall i | 0 <= i < j ensures High(runes, i) < r { assert High(runes, i) < Low(runes, j); }
  }

  // ------------------------------------------------------------------------- merging

  datatype Merge = Panics | Fails | Merged(runes: seq<int>, next: seq<nat>)

  /** The first n pairs of one side are in runes, marked as coming from there. */
  ghost predicate Taken(from: seq<int>, n: nat, side: bool, runes: seq<int>, origin: seq<bool>)
    requires n <= Pairs(from) && |origin| == Pairs(runes)
  {
    forall i {:trigger HasPair(runes, origin, Low(from, i), High(from, i), side)} ::
      0 <= i < n ==> HasPair(runes, origin, Low(from, i), High(from, i), side)
  }

  ghost predicate HasPair(runes: seq<int>, origin: seq<bool>, low: int, high: int, side: bool)
    requires |origin| == Pairs(runes)
  {
    exists k :: 0 <= k < Pairs(runes) && Low(runes, k) == low && High(runes, k) == high && origin[k] == side
  }

  /** Pair k is one of the first n pairs of a set. */
  ghost predicate CameFrom(from: seq<int>, n: nat, runes: seq<int>, k: nat)
    requires n <= Pairs(from) && k < Pairs(runes)
  {
    exists i :: 0 <= i < n && Low(from, i) == Low(runes, k) && High(from, i) == High(runes, k)
  }

  ghost predicate Sourced(from: seq<int>, n: nat, side: bool, runes: seq<int>, origin: seq<bool>)
    requires n <= Pairs(from) && |origin| == Pairs(runes)
  {
    forall k {:trigger CameFrom(from, n, runes, k)} ::
      0 <= k < Pairs(runes) && origin[k] == side ==> CameFrom(from, n, runes, k)
  }

  /** The last pair starts no later than what is still to come from one side. */
  ghost predicate StartsBy(from: seq<int>, n: nat, runes: seq<int>) {
    n < Pairs(from) && Pairs(runes) > 0 ==> Low(runes, Pairs(runes) - 1) <= Low(from, n)
  }

  /** One side after n of its pairs have been merged. */
  ghost predicate Side(from: seq<int>, n: nat, side: bool, runes: seq<int>, origin: seq<bool>) {
    n <= Pairs(from) && |origin| == Pairs(runes) &&
    Taken(from, n, side, runes, origin) && Sourced(from, n, side, runes, origin) && StartsBy(from, n, runes)
  }

  lemma TakePair(from: seq<int>, n: nat, side: bool, runes: seq<int>, origin: seq<bool>)
    requires Ordered(from) && Ordered(runes) && n < Pairs(from) && Side(from, n, side, runes, origin)
    ensures Side(from, n + 1, side, runes + [Low(from, n), High(from, n)], origin + [side])
  {
    var longer, marks := runes + [Low(from, n), High(from, n)], origin + [side];
    LongerPairs(runes, Low(from, n), High(from, n));
    forall i | 0 <= i < n + 1 ensures HasPair(longer, marks, Low(from, i), High(from, i), side) {
      if i < n {
        assert HasPair(runes, origin, Low(from, i), High(from, i), side);
        var k :| 0 <= k < Pairs(runes) && Low(runes, k) == Low(from, i) && High(runes, k) == High(from, i) &&
          origin[k] == side;
        assert Low(longer, k) == Low(from, i) && marks[k] == side;
      } else {
        assert marks[Pairs(runes)] == side;
      }
    }
    forall k | 0 <= k < Pairs(longer) && marks[k] == side ensures CameFrom(from, n + 1, longer, k) {
      if k < Pairs(runes) {
        assert CameFrom(from, n, runes, k);
      } else {
        assert Low(from, n) == Low(longer, k);
      }
    }
  }

  /** The other side is not disturbed. */
  lemma KeepSide(from: seq<int>, n: nat, side: bool, runes: seq<int>, origin: seq<bool>, low: int, high: int)
    requires Ordered(runes) && Side(from, n, side, runes, origin) && (n < Pairs(from) ==> low <= Low(from, n))
    ensures Side(from, n, side, runes + [low, high], origin + [!side])
  {
    var longer, marks := runes + [low, high], origin + [!side];
    LongerPairs(runes, low, high);
    forall i | 0 <= i < n ensures HasPair(longer, marks, Low(from, i), High(from, i), side) {
      assert HasPair(runes, origin, Low(from, i), High(from, i), side);
      var k :| 0 <= k < Pairs(runes) && Low(runes, k) == Low(from, i) && High(runes, k) == High(from, i) &&
        origin[k] == side;
      assert Low(longer, k) == Low(from, i) && marks[k] == side;
    }
    forall k | 0 <= k < Pairs(longer) && marks[k] == side ensures CameFrom(from, n, longer, k) {
      assert k < Pairs(runes) && CameFrom(from, n, runes, k);
    }
  }

  lemma LongerPairs(runes: seq<int>, low: int, high: int)
    requires |runes| % 2 == 0
    ensures var longer := runes + [low, high];
            Pairs(longer) == Pairs(runes) + 1 && Low(longer, Pairs(runes)) == low &&
              High(longer, Pairs(runes)) == high &&
            forall k :: 0 <= k < Pairs(runes) ==> Low(longer, k) == Low(runes, k) && High(longer, k) == High(runes, k)
  {}

  lemma OwnPairsBelow(from: seq<int>, n: nat, runes: seq<int>, k: nat)
    requires Ordered(from) && n < Pairs(from) && k < Pairs(runes) && CameFrom(from, n, runes, k)
    ensures High(runes, k) < Low(from, n)
  {
    var i :| 0 <= i < n && Low(from, i) == Low(runes, k) && High(from, i) == High(runes, k);
    assert High(from, i) < Low(from, n);
  }

  /** The next pair starts within the last one merged, so that one comes from the other side. */
  lemma Overlap(from: seq<int>, n: nat, side: bool, other: seq<int>, m: nat, runes: seq<int>, origin: seq<bool>)
    requires Ordered(from) && Ordered(runes) && n < Pairs(from)
    requires Side(from, n, side, runes, origin) && Side(other, m, !side, runes, origin)
    requires Pairs(runes) > 0 && Low(from, n) <= High(runes, Pairs(runes) - 1)
    ensures Covers(from, Low(from, n)) && Covers(other, Low(from, n))
  {
    var k, r := Pairs(runes) - 1, Low(from, n);
    assert InPair(from, n, r);
    if origin[k] == side {
      OwnPairsBelow(from, n, runes, k);
    } else {
      assert CameFrom(other, m, runes, k);
      var i :| 0 <= i < m && Low(other, i) == Low(runes, k) && High(other, i) == High(runes, k);
      assert InPair(other, i, r);
    }
  }

  lemma CoveredThere(from: seq<int>, side: bool, runes: seq<int>, origin: seq<bool>, r: int) returns (k: nat)
    requires Side(from, Pairs(from), side, runes, origin) && Covers(from, r)
    ensures k < Pairs(runes) && InPair(runes, k, r) && origin[k] == side
  {
    var i :| 0 <= i < Pairs(from) && InPair(from, i, r);
    assert HasPair(runes, origin, Low(from, i), High(from, i), side);
    k :| 0 <= k < Pairs(runes) && Low(runes, k) == Low(from, i) && High(runes, k) == High(from, i) && origin[k] == side;
  }

  lemma CoveredHere(from: seq<int>, side: bool, runes: seq<int>, origin: seq<bool>, r: int, k: nat)
    requires Side(from, Pairs(from), side, runes, origin) && k < Pairs(runes) && InPair(runes, k, r) &&
      origin[k] == side
    ensures Covers(from, r)
  {
    assert CameFrom(from, Pairs(from), runes, k);
    var i :| 0 <= i < Pairs(from) && Low(from, i) == Low(runes, k) && High(from, i) == High(runes, k);
    assert InPair(from, i, r);
  }

  lemma OnePair(runes: seq<int>, j: nat, k: nat, r: int)
    requires Ordered(runes) && j < Pairs(runes) && k < Pairs(runes) && InPair(runes, j, r) && InPair(runes, k, r)
    ensures j == k
  {
    if j < k { Apart(runes, j, k, r); }
    if k < j { Apart(runes, k, j, r); }
  }

  lemma Apart(runes: seq<int>, j: nat, k: nat, r: int)
    requires Ordered(runes) && j < k < Pairs(runes) && InPair(runes, j, r)
    ensures !InPair(runes, k, r)
  {
    assert High(runes, j) < Low(runes, k);
  }

  /** The merged set is the union, and the leg of a pair tells which set its runes are in. */
  ghost predicate IsUnion(left: seq<int>, right: seq<int>, leftPC: nat, rightPC: nat, runes: seq<int>, next: seq<nat>) {
    Ordered(runes) && |next| == Pairs(runes) &&
    (forall r :: Covers(runes, r) <==> Covers(left, r) || Covers(right, r)) &&
    (forall k, r :: 0 <= k < Pairs(runes) && InPair(runes, k, r) ==>
      (Covers(left, r) && next[k] == leftPC) || (Covers(right, r) && next[k] == rightPC))
  }

  function Leg(side: bool, leftPC: nat, rightPC: nat): nat { if side then leftPC else rightPC }

  lemma Merges(left: seq<int>, right: seq<int>, leftPC: nat, rightPC: nat, runes: seq<int>, next: seq<nat>,
      origin: seq<bool>)
    requires Ordered(runes) && Side(left, Pairs(left), true, runes, origin) &&
      Side(right, Pairs(right), false, runes, origin)
    requires |next| == |origin| && forall k :: 0 <= k < |next| ==> next[k] == Leg(origin[k], leftPC, rightPC)
    ensures Disjoint(left, right) && IsUnion(left, right, leftPC, rightPC, runes, next)
  {
    forall r ensures !(Covers(left, r) && Covers(right, r)) {
      if Covers(left, r) && Covers(right, r) {
        var j := CoveredThere(left, true, runes, origin, r);
        var k := CoveredThere(right, false, runes, origin, r);
        OnePair(runes, j, k, r);
      }
    }
    forall k, r | 0 <= k < Pairs(runes) && InPair(runes, k, r)
      ensures (Covers(left, r) && next[k] == leftPC) || (Covers(right, r) && next[k] == rightPC)
    {
      if origin[k] { CoveredHere(left, true, runes, origin, r, k); }
        else { CoveredHere(right, false, runes, origin, r, k); }
    }
    forall r ensures Covers(runes, r) <==> Covers(left, r) || Covers(right, r) {
      if Covers(left, r) { var k := CoveredThere(left, true, runes, origin, r); }
      if Covers(right, r) { var k := CoveredThere(right, false, runes, origin, r); }
    }
  }

  /** Appends a pair unless it starts within the last one. */
  method Extend(low: int, high: int, leg: nat, runes: seq<int>, next: seq<nat>)
      returns (ok: bool, runes': seq<int>, next': seq<nat>)
    requires |next| == Pairs(runes) && Ordered(runes) && low <= high
    ensures ok <==> (runes != [] ==> runes[|runes| - 1] < low)
    ensures ok ==> runes' == runes + [low, high] && next' == next + [leg] && Ordered(runes')
    ensures !ok ==> runes' == runes && next' == next
  {
    var ix := |runes| - 1;
    if ix > 0 && low <= runes[ix] {
      return false, runes, next;
    }
    LastHigh(runes);
    AppendOrdered(runes, low, high);
    return true, runes + [low, high], next + [leg];
  }

  lemma AppendOrdered(runes: seq<int>, low: int, high: int)
    requires Ordered(runes) && low <= high && (runes != [] ==> High(runes, Pairs(runes) - 1) < low)
    ensures Ordered(runes + [low, high])
  {
    var longer, n := runes + [low, high], Pairs(runes);
    forall i | 0 <= i < n ensures Low(longer, i) == Low(runes, i) && High(longer, i) == High(runes, i) {}
    forall i | 0 <= i < n ensures High(longer, i) < low {
      if i < n - 1 { assert High(runes, i) < Low(runes, n - 1) <= High(runes, n - 1); }
    }
  }

  /** Both sides, one after n and the other after m pairs. */
  ghost predicate BothSides(from: seq<int>, n: nat, side: bool, other: seq<int>, m: nat, runes: seq<int>,
      origin: seq<bool>) {
    Ordered(runes) && Side(from, n, side, runes, origin) && Side(other, m, !side, runes, origin)
  }

  /** Taking the pair that starts first, from either side. */
  lemma MergeStep(from: seq<int>, n: nat, side: bool, other: seq<int>, m: nat, runes: seq<int>, origin: seq<bool>)
    requires Ordered(from) && n < Pairs(from) && BothSides(from, n, side, other, m, runes, origin)
    requires m < Pairs(other) ==> Low(from, n) <= Low(other, m)
    ensures var low, high := Low(from, n), High(from, n);
            if Pairs(runes) > 0 && low <= High(runes, Pairs(runes) - 1) then Covers(from, low) && Covers(other, low)
            else BothSides(from, n + 1, side, other, m, runes + [low, high], origin + [side])
  {
    var low, high := Low(from, n), High(from, n);
    if Pairs(runes) > 0 && low <= High(runes, Pairs(runes) - 1) {
      Overlap(from, n, side, other, m, runes, origin);
    } else {
      AppendOrdered(runes, low, high);
      TakePair(from, n, side, runes, origin);
      KeepSide(other, m, !side, runes, origin, low, high);
    }
  }

  /** The state of the merge, with indices into the slices. */
  ghost predicate Merging(left: seq<int>, lx: nat, right: seq<int>, rx: nat, runes: seq<int>, origin: seq<bool>) {
    lx % 2 == 0 && rx % 2 == 0 && lx <= |left| && rx <= |right| &&
    BothSides(left, lx / 2, true, right, rx / 2, runes, origin)
  }

  ghost predicate HasLegs(next: seq<nat>, origin: seq<bool>, leftPC: nat, rightPC: nat) {
    |next| == |origin| && forall k :: 0 <= k < |next| ==> next[k] == Leg(origin[k], leftPC, rightPC)
  }

  lemma TakeLeft(left: seq<int>, lx: nat, right: seq<int>, rx: nat, runes: seq<int>, origin: seq<bool>)
    requires Ordered(left) && Ordered(right) && Merging(left, lx, right, rx, runes, origin) && lx < |left|
    requires rx < |right| ==> left[lx] <= right[rx]
    ensures left[lx] <= left[lx + 1]
    ensures if runes != [] && left[lx] <= runes[|runes| - 1] then !Disjoint(left, right)
            else Merging(left, lx + 2, right, rx, runes + [left[lx], left[lx + 1]], origin + [true])
  {
    var n := lx / 2;
    assert Low(left, n) == left[lx] && High(left, n) == left[lx + 1];
    assert rx < |right| ==> Low(right, rx / 2) == right[rx];
    MergeStep(left, n, true, right, rx / 2, runes, origin);
    assert (lx + 2) / 2 == n + 1;
    LastHigh(runes);
  }

  lemma TakeRight(left: seq<int>, lx: nat, right: seq<int>, rx: nat, runes: seq<int>, origin: seq<bool>)
    requires Ordered(left) && Ordered(right) && Merging(left, lx, right, rx, runes, origin) && rx < |right|
    requires lx < |left| ==> right[rx] <= left[lx]
    ensures right[rx] <= right[rx + 1]
    ensures if runes != [] && right[rx] <= runes[|runes| - 1] then !Disjoint(left, right)
            else Merging(left, lx, right, rx + 2, runes + [right[rx], right[rx + 1]], origin + [false])
  {
    var n := rx / 2;
    assert Low(right, n) == right[rx] && High(right, n) == right[rx + 1];
    assert lx < |left| ==> Low(left, lx / 2) == left[lx];
    MergeStep(right, n, false, left, lx / 2, runes, origin);
    assert (rx + 2) / 2 == n + 1;
    LastHigh(runes);
  }

  lemma LastHigh(runes: seq<int>)
    requires |runes| % 2 == 0
    ensures runes != [] ==> Pairs(runes) > 0 && High(runes, Pairs(runes) - 1) == runes[|runes| - 1]
  {}

  lemma OneMoreLeg(next: seq<nat>, origin: seq<bool>, leftPC: nat, rightPC: nat, side: bool)
    requires HasLegs(next, origin, leftPC, rightPC)
    ensures HasLegs(next + [Leg(side, leftPC, rightPC)], origin + [side], leftPC, rightPC)
  {}

  /** The merge after a turn: still going well, or stopped at a rune that both sets have. */
  ghost predicate MergeState(ok: bool, left: seq<int>, lx: nat, right: seq<int>, rx: nat, leftPC: nat, rightPC: nat,
      merged: seq<int>, next: seq<nat>, origin: seq<bool>) {
    && lx <= |left| && rx <= |right|
    && if ok then Merging(left, lx, right, rx, merged, origin) && HasLegs(next, origin, leftPC, rightPC)
       else !Disjoint(left, right)
  }

  method ExtendLeft(left: seq<int>, lx: nat, right: seq<int>, ghost rx: nat, leftPC: nat, ghost rightPC: nat,
      runes: seq<int>, next: seq<nat>, ghost origin: seq<bool>) returns (ok: bool, runes': seq<int>, next': seq<nat>)
    requires Ordered(left) && Ordered(right) && MergeState(true, left, lx, right, rx, leftPC, rightPC, runes, next,
      origin)
    requires lx < |left| && (rx < |right| ==> left[lx] <= right[rx])
    ensures MergeState(ok, left, lx + 2, right, rx, leftPC, rightPC, runes', next', origin + [true])
  {
    TakeLeft(left, lx, right, rx, runes, origin);
    OneMoreLeg(next, origin, leftPC, rightPC, true);
    ok, runes', next' := Extend(left[lx], left[lx + 1], leftPC, runes, next);
  }

  method ExtendRight(left: seq<int>, ghost lx: nat, right: seq<int>, rx: nat, ghost leftPC: nat, rightPC: nat,
      runes: seq<int>, next: seq<nat>, ghost origin: seq<bool>) returns (ok: bool, runes': seq<int>, next': seq<nat>)
    requires Ordered(left) && Ordered(right) && MergeState(true, left, lx, right, rx, leftPC, rightPC, runes, next,
      origin)
    requires rx < |right| && (lx < |left| ==> right[rx] <= left[lx])
    ensures MergeState(ok, left, lx, right, rx + 2, leftPC, rightPC, runes', next', origin + [false])
  {
    TakeRight(left, lx, right, rx, runes, origin);
    OneMoreLeg(next, origin, leftPC, rightPC, false);
    ok, runes', next' := Extend(right[rx], right[rx + 1], rightPC, runes, next);
  }

  lemma NothingMerged(left: seq<int>, right: seq<int>)
    requires |left| % 2 == 0 && |right| % 2 == 0
    ensures Merging(left, 0, right, 0, [], [])
  {}

  /** Whether the right set is next: its next pair starts first, or the left one is used up. */
  predicate RightNext(left: seq<int>, lx: nat, right: seq<int>, rx: nat) {
    lx >= |left| || (rx < |right| && right[rx] < left[lx])
  }

  /** One turn of the merge. */
  method MergeTurn(left: seq<int>, lx: nat, right: seq<int>, rx: nat, leftPC: nat, rightPC: nat,
      runes: seq<int>, next: seq<nat>, ghost origin: seq<bool>)
    returns (ok: bool, lx': nat, rx': nat, runes': seq<int>, next': seq<nat>, ghost origin': seq<bool>)
    requires Ordered(left) && Ordered(right) && MergeState(true, left, lx, right, rx, leftPC, rightPC, runes, next,
      origin)
    requires lx < |left| || rx < |right|
    ensures MergeState(ok, left, lx', right, rx', leftPC, rightPC, runes', next', origin')
    ensures lx' + rx' > lx + rx
  {
    if RightNext(left, lx, right, rx) {
      ok, runes', next' := ExtendRight(left, lx, right, rx, leftPC, rightPC, runes, next, origin);
      lx', rx', origin' := lx, rx + 2, origin + [false];
    } else {
      ok, runes', next' := ExtendLeft(left, lx, right, rx, leftPC, rightPC, runes, next, origin);
      lx', rx', origin' := lx + 2, rx, origin + [true];
    }
  }

  lemma MergeEnds(ok: bool, left: seq<int>, lx: nat, right: seq<int>, rx: nat, leftPC: nat, rightPC: nat,
      merged: seq<int>, next: seq<nat>, origin: seq<bool>)
    requires Ordered(left) && Ordered(right) && MergeState(ok, left, lx, right, rx, leftPC, rightPC, merged, next,
      origin)
    requires lx >= |left| && rx >= |right|
    ensures if ok then Disjoint(left, right) && IsUnion(left, right, leftPC, rightPC, merged, next)
      else !Disjoint(left, right)
  {
    if ok { Merges(left, right, leftPC, rightPC, merged, next, origin); }
  }

  /** Merges two sets of whole pairs; not ok when they have a rune in common. */
  method MergePairs(left: seq<int>, right: seq<int>, leftPC: nat, rightPC: nat)
      returns (ok: bool, merged: seq<int>, next: seq<nat>)
    requires Ordered(left) && Ordered(right)
    ensures !ok ==> !Disjoint(left, right)
    ensures ok ==> Disjoint(left, right) && IsUnion(left, right, leftPC, rightPC, merged, next)
  {
    var lx: nat, rx: nat := 0, 0;
    ok, merged, next := true, [], [];
    ghost var origin: seq<bool> := [];
    NothingMerged(left, right);
    while ok && (lx < |left| || rx < |right|)
      invariant MergeState(ok, left, lx, right, rx, leftPC, rightPC, merged, next, origin)
      decreases |left| - lx + |right| - rx
    {
      ok, lx, rx, merged, next, origin := MergeTurn(left, lx, right, rx, leftPC, rightPC, merged, next, origin);
    }
    if ok { MergeEnds(ok, left, lx, right, rx, leftPC, rightPC, merged, next, origin); }
  }

  /** mergeRuneSets: it fails iff the two sets have a rune in common. */
  method MergeRuneSets(left: seq<int>, right: seq<int>, leftPC: nat, rightPC: nat) returns (m: Merge)
    requires |left| % 2 == 0 && |right| % 2 == 0 ==> Ordered(left) && Ordered(right)
    ensures m.Panics? <==> |left| % 2 != 0 || |right| % 2 != 0
    ensures m.Fails? ==> !Disjoint(left, right)
    ensures m.Merged? ==> Disjoint(left, right) && IsUnion(left, right, leftPC, rightPC, m.runes, m.next)
  {
    if |left| % 2 != 0 || |right| % 2 != 0 {
      return Panics;
    }
    var ok, merged, next := MergePairs(left, right, leftPC, rightPC);
    m := if ok then Merged(merged, next) else Fails;
  }

  datatype OnePassInst = OnePassInst(runes: seq<int>, next: seq<nat>, altMatch: bool, out: nat)

  /** onePassNext. */
  method OnePassNext(i: OnePassInst, r: int) returns (pc: nat)
    requires Ordered(i.runes) && |i.next| == Pairs(i.runes)
    ensures Covers(i.runes, r) ==> exists k :: 0 <= k < Pairs(i.runes) && InPair(i.runes, k, r) && pc == i.next[k]
    ensures !Covers(i.runes, r) ==> pc == if i.altMatch then i.out else 0
  {
    var next := MatchRunePos(i.runes, [], r);
    if next >= 0 {
      return i.next[next];
    }
    if i.altMatch {
      return i.out;
    }
    return 0;
  }

  /** At an alternative whose rune sets could be merged, a rune goes to the leg whose set holds it. */
  method Dispatch(left: seq<int>, right: seq<int>, leftPC: nat, rightPC: nat, altMatch: bool, r: int)
      returns (m: Merge, pc: nat)
    requires Ordered(left) && Ordered(right)
    ensures m.Fails? <==> !Disjoint(left, right)
    ensures !m.Panics?
    ensures m.Merged? && Covers(left, r) ==> pc == leftPC
    ensures m.Merged? && Covers(right, r) ==> pc == rightPC
    ensures m.Merged? && !Covers(left, r) && !Covers(right, r) ==> pc == if altMatch then leftPC else 0
  {
    m := MergeRuneSets(left, right, leftPC, rightPC);
    pc := 0;
    if m.Merged? {
      pc := OnePassNext(OnePassInst(m.runes, m.next, altMatch, leftPC), r);
    }
  }
}
