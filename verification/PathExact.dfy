/** When path.Match (src/path/match.go:38-81) misses a name: for every pattern that is not exact
    there is a name of its language that greedy placement does not find. */
module PathExact {
  import opened PathMatch

  // --------------------------------------------------------------- how many slashes a name has

  function Slashes(s: string): nat { if s == "" then 0 else (if s[0] == '/' then 1 else 0) + Slashes(s[1..]) }

  /** How many terms can match a slash. */
  function Room(ts: seq<Term>): nat { if ts == [] then 0 else (if One(ts[0], '/') then 1 else 0) + Room(ts[1..]) }

  lemma {:induction false} SlashesJoin(s: string, t: string)
    ensures Slashes(s + t) == Slashes(s) + Slashes(t)
  {
    if s == "" {
      assert s + t == t;
    } else {
      assert (s + t)[1..] == s[1..] + t;
      SlashesJoin(s[1..], t);
    }
  }

  lemma {:induction false} SlashCounts(s: string)
    ensures Slashes(s) == 0 <==> NoSlash(s)
  {
    if s != "" {
      SlashCounts(s[1..]);
      assert s == [s[0]] + s[1..];
    }
  }

  /** A name that matches has no more slashes than there is room for. */
  lemma {:induction false} SlashBound(ts: seq<Term>, name: string)
    requires Matches(ts, name)
    ensures Slashes(name) <= Room(ts)
    decreases |ts|
  {
    if ts != [] {
      if ts[0].Star? {
        var k :| 0 <= k <= |name| && NoSlash(name[..k]) && Matches(ts[1..], name[k..]);
        SlashBound(ts[1..], name[k..]);
        SlashCounts(name[..k]);
        SlashesJoin(name[..k], name[k..]);
        assert name[..k] + name[k..] == name;
      } else {
        SlashBound(ts[1..], name[1..]);
      }
    }
  }

  lemma NotBarrenBehind(ts: seq<Term>, m: nat, rs: seq<Term>)
    requires !Barren(ts) && |ts| >= m + |rs| && forall i :: 0 <= i < |rs| ==> rs[i] == ts[m + i]
    ensures !Barren(rs)
  {
    forall i | 0 <= i < |rs| ensures !Hopeless(rs[i]) { assert rs[i] == ts[m + i]; }
  }

  /** A character for the term, a slash if it takes one. */
  lemma SomeChar(t: Term) returns (c: char)
    requires t != Star && !Hopeless(t)
    ensures One(t, c) && (c == '/' <==> One(t, '/'))
  {
    if One(t, '/') { c := '/'; } else { c :| One(t, c); }
  }

  /** The bound is reached. */
  lemma {:induction false} FullName(ts: seq<Term>) returns (name: string)
    requires !Barren(ts)
    ensures Matches(ts, name) && Slashes(name) == Room(ts)
    decreases |ts|
  {
    if ts == [] {
      name := "";
    } else {
      NotBarrenBehind(ts, 1, ts[1..]);
      var rest := FullName(ts[1..]);
      if ts[0].Star? {
        name := rest;
        assert NoSlash(name[..0]) && name[0..] == rest;
      } else {
        assert !Hopeless(ts[0]);
        var c := SomeChar(ts[0]);
        name := [c] + rest;
        assert name[1..] == rest;
      }
    }
  }

  lemma {:induction false} FullChunk(cs: seq<Term>) returns (u: string)
    requires !Barren(cs) && NoStar(cs)
    ensures |u| == |cs| && Fits(cs, u)
    decreases |cs|
  {
    if cs == [] {
      u := "";
    } else {
      NotBarrenBehind(cs, 1, cs[1..]);
      assert !Hopeless(cs[0]);
      var c := SomeChar(cs[0]);
      var v := FullChunk(cs[1..]);
      u := [c] + v;
      assert u[1..] == v;
      FitsCons(cs, u);
    }
  }

  // ------------------------------------------------------------------------ a name that is missed

  /** The word in front of a name has the chunk at its beginning. */
  lemma PlacedFirst(cs: seq<Term>, w: string, t: string, star: bool)
    requires Fits(cs, w)
    ensures Placed(star, cs, false, w + t, 0)
  {
    var name := w + t;
    assert name[0..] == name && NoSlash(name[..0]);
    forall i | 0 <= i < |cs| ensures One(cs[i], name[i]) { assert name[i] == w[i]; }
  }

  /** With one slash in front of as many as there is room for. */
  lemma TooManySlashes(rs: seq<Term>, v: string, t: string)
    requires !NoSlash(v) && Slashes(t) == Room(rs)
    ensures !Matches(rs, v + t)
  {
    SlashesJoin(v, t);
    SlashCounts(v);
    if Matches(rs, v + t) { SlashBound(rs, v + t); }
  }

  lemma NotFound(rs: seq<Term>, s: string)
    requires !Matches(rs, s)
    ensures !Greedy(rs, s)
  {
    if Greedy(rs, s) { GreedySound(rs, s); }
  }

  lemma RestOf(w: string, t: string, m: nat)
    requires m <= |w|
    ensures (w + t)[m..] == w[m..] + t
  {}

  /** Greedy placement leaves a slash of the word to the rest, which is one too many. */
  lemma OneTooMany(ts: seq<Term>, n: nat, cs: seq<Term>, rs: seq<Term>) returns (name: string)
    requires !Barren(ts) && Decomposes(ts, n, cs, rs) && n > 0 && cs != [] && rs != [] && Shiftable(cs)
    ensures Matches(ts, name) && !Greedy(ts, name)
  {
    var d: nat :| Shifts(cs, d);
    var w := ShiftWord(cs, d);
    NotBarrenBehind(ts, n + |cs|, rs);
    var t := FullName(rs);
    name := w + t;
    ShiftedMatches(ts, n, cs, rs, d, w, t);
    TooManySlashes(rs, w[|cs|..], t);
    NotFound(rs, w[|cs|..] + t);
    GreedyMisses(ts, n, cs, rs, w, t);
  }

  /** Placed at the beginning of w the chunk leaves what the rest does not find. */
  lemma GreedyMisses(ts: seq<Term>, n: nat, cs: seq<Term>, rs: seq<Term>, w: string, t: string)
    requires Decomposes(ts, n, cs, rs) && cs != [] && rs != [] && Fits(cs, w) && !Greedy(rs, w[|cs|..] + t)
    ensures !Greedy(ts, w + t)
  {
    PlacedFirst(cs, w, t, n > 0);
    GreedyStep(ts, n, cs, rs, w + t, 0);
    RestOf(w, t, |cs|);
  }

  lemma ShiftedMatches(ts: seq<Term>, n: nat, cs: seq<Term>, rs: seq<Term>, d: nat, w: string, t: string)
    requires Decomposes(ts, n, cs, rs) && n > 0 && ShiftedIn(cs, d, w) && Matches(rs, t)
    ensures Matches(ts, w + t)
  {
    var name := w + t;
    assert name[..d] == w[..d] && name[d + |cs|..] == t;
    forall i | 0 <= i < |cs| ensures One(cs[i], name[d..][i]) { assert name[d..][i] == w[d..][i]; }
    PlacedSoundly(ts, n, cs, rs, name, d);
  }

  /** What the rest misses is missed behind any chunk. */
  lemma MissedBehind(ts: seq<Term>, n: nat, cs: seq<Term>, rs: seq<Term>, t: string) returns (name: string)
    requires !Barren(ts) && Decomposes(ts, n, cs, rs) && cs != [] && rs != [] && Matches(rs, t) && !Greedy(rs, t)
    ensures Matches(ts, name) && !Greedy(ts, name)
  {
    NotBarrenBehind(ts, n, cs);
    var u := FullChunk(cs);
    name := u + t;
    PlacedFirst(cs, u, t, n > 0);
    assert name[0 + |cs|..] == t;
    GreedyStep(ts, n, cs, rs, name, 0);
    PlacedSoundly(ts, n, cs, rs, name, 0);
  }

  lemma NoStarAt(ts: seq<Term>, a: nat, b: nat, i: nat)
    requires a < i < b <= |ts| && NoStar(ts[a + 1..b])
    ensures ts[i] != Star
  {
    assert ts[a + 1..b][i - a - 1] == ts[i];
  }

  /** A chunk of the rest is as steady as there. */
  lemma PieceOfRest(ts: seq<Term>, m: nat, rs: seq<Term>, a: nat, b: nat)
    requires |ts| == m + |rs| && (forall i :: 0 <= i < |rs| ==> ts[m + i] == rs[i]) && Steady(rs)
    requires m <= a < b < |ts| && ts[a] == Star && ts[b] == Star && NoStar(ts[a + 1..b])
    ensures !Shiftable(ts[a + 1..b])
  {
    assert ts[m + (a - m)] == rs[a - m] && ts[m + (b - m)] == rs[b - m];
    SamePiece(ts, m, rs, a - m + 1, b - m);
  }

  /** A star and the next one, the first of them before the rest, have the first chunk between them. */
  lemma FirstPiece(ts: seq<Term>, n: nat, cs: seq<Term>, rs: seq<Term>, a: nat, b: nat)
    requires Decomposes(ts, n, cs, rs) && a < n + |cs| && a + 1 < b < |ts| && ts[a] == Star && ts[b] == Star
    requires NoStar(ts[a + 1..b])
    ensures n > 0 && rs != [] && ts[a + 1..b] == cs
  {
    if a >= n { ChunkNotStar(ts, n, cs, rs, a); }
    if a + 1 < n { NoStarAt(ts, a, b, a + 1); }
    if b < n + |cs| { ChunkNotStar(ts, n, cs, rs, b); }
    RestIsStar(ts, n, cs, rs);
    if b > n + |cs| { NoStarAt(ts, a, b, n + |cs|); }
  }

  lemma ChunkNotStar(ts: seq<Term>, n: nat, cs: seq<Term>, rs: seq<Term>, i: nat)
    requires Decomposes(ts, n, cs, rs) && n <= i < n + |cs|
    ensures ts[i] != Star
  {
    assert ts[n + (i - n)] == cs[i - n];
  }

  lemma RestIsStar(ts: seq<Term>, n: nat, cs: seq<Term>, rs: seq<Term>)
    requires Decomposes(ts, n, cs, rs)
    ensures n + |cs| < |ts| ==> rs != [] && ts[n + |cs|] == Star
  {
    if rs != [] { assert ts[n + |cs| + 0] == rs[0]; }
  }

  lemma EmptyStays()
    ensures !Shiftable([])
  {}

  /** A chunk that can be shifted is the first one or one of the rest. */
  lemma WhereUnsteady(ts: seq<Term>, n: nat, cs: seq<Term>, rs: seq<Term>)
    requires Decomposes(ts, n, cs, rs) && !Steady(ts) && Steady(rs)
    ensures n > 0 && cs != [] && rs != [] && Shiftable(cs)
  {
    var a, b :| 0 <= a < b < |ts| && ts[a] == Star && ts[b] == Star && NoStar(ts[a + 1..b]) && Shiftable(ts[a + 1..b]);
    EmptyStays();
    if a >= n + |cs| {
      PieceOfRest(ts, n + |cs|, rs, a, b);
    } else {
      FirstPiece(ts, n, cs, rs, a, b);
    }
  }

  lemma {:induction false} MissedName(ts: seq<Term>) returns (name: string)
    requires !Exact(ts)
    ensures Matches(ts, name) && !Greedy(ts, name)
    decreases |ts|
  {
    var n, cs, rs := TakeApart(ts);
    if Steady(rs) {
      WhereUnsteady(ts, n, cs, rs);
      name := OneTooMany(ts, n, cs, rs);
    } else {
      assert rs != [];
      NotBarrenBehind(ts, n + |cs|, rs);
      var t := MissedName(rs);
      name := MissedBehind(ts, n, cs, rs, t);
    }
  }

  /** Greedy placement finds the whole language of a pattern exactly when the pattern is exact: no
      chunk between two stars can be shifted, or the language is empty for want of a character. */
  lemma GreedyExactly(ts: seq<Term>)
    ensures Exact(ts) <==> forall name :: Matches(ts, name) ==> Greedy(ts, name)
  {
    if Exact(ts) {
      forall name | Matches(ts, name) ensures Greedy(ts, name) { GreedyComplete(ts, name); }
    } else {
      var name := MissedName(ts);
    }
  }
}
