/** What `Wanted`, the result both search machines are proved to report, means: the promises
    of the package documentation in terms of accepting runs alone. */
module MatchSpec {
  import opened Search
  import opened RegexpProg

  ghost function Start(p: Prog, s: nat): Config { Config(p.start, s) }

  /** q is a run from start position s to InstMatch. */
  ghost predicate Accepting(p: Prog, text: Text, s: nat, q: seq<Config>) {
    Leads(Runs(p, text), Matches(p, text), Start(p, s), q)
  }

  lemma {:induction false} FirstNaiveAt(p: Prog, text: Text, T: set<Config>, lo: nat, hi: nat) returns (s: nat)
    requires lo <= hi && FirstNaive(Runs(p, text), T, StartTrails(p, lo, hi)).Some?
    ensures lo <= s < hi && Naive(Runs(p, text), T, {}, Start(p, s)) == FirstNaive(Runs(p, text), T,
      StartTrails(p, lo, hi))
    ensures forall s' :: lo <= s' < s ==> Naive(Runs(p, text), T, {}, Start(p, s')).None?
    decreases hi - lo
  {
    var todo := StartTrails(p, lo, hi);
    assert todo != [] && todo[0] == StartTrail(p, lo) && todo[1..] == StartTrails(p, lo + 1, hi);
    assert Nodes<Config>([]) == {};
    var r := Naive(Runs(p, text), T, {}, Start(p, lo));
    if r.Some? {
      s := lo;
      assert [] + r.value == r.value;
    } else {
      s := FirstNaiveAt(p, text, T, lo + 1, hi);
    }
  }

  lemma {:induction false} FirstNaiveNever(p: Prog, text: Text, T: set<Config>, lo: nat, hi: nat, s: nat)
    requires lo <= s < hi && FirstNaive(Runs(p, text), T, StartTrails(p, lo, hi)).None?
    ensures Naive(Runs(p, text), T, {}, Start(p, s)).None?
    decreases hi - lo
  {
    var todo := StartTrails(p, lo, hi);
    assert todo != [] && todo[0] == StartTrail(p, lo) && todo[1..] == StartTrails(p, lo + 1, hi);
    assert Nodes<Config>([]) == {};
    if s > lo { FirstNaiveNever(p, text, T, lo + 1, hi, s); }
  }

  lemma {:induction false} LongestEndMax(p: Prog, text: Text, s: nat, e: nat, x: nat)
    requires x <= e && Naive(Runs(p, text), MatchesAt(p, text, x), {}, Start(p, s)).Some?
    ensures var r := LongestEnd(p, text, s, e);
      && x <= r <= e && Naive(Runs(p, text), MatchesAt(p, text, r), {}, Start(p, s)).Some?
      && forall y :: r < y <= e ==> Naive(Runs(p, text), MatchesAt(p, text, y), {}, Start(p, s)).None?
  {
    if x < e && Naive(Runs(p, text), MatchesAt(p, text, e), {},
      Start(p, s)).None? { LongestEndMax(p, text, s, e - 1, x); }
  }

  /** An accepting run ends at its only InstMatch. */
  lemma {:induction false} MatchOnlyAtEnd(p: Prog, text: Text, q: seq<Config>, i: nat)
    requires IsPath(Runs(p, text), q) && i < |q| - 1
    ensures !IsMatch(p, q[i])
  {
    RunsDomain(p, text);
    if i > 0 { MatchOnlyAtEnd(p, text, q[1..], i - 1); }
  }

  lemma EndsAt(p: Prog, text: Text, c: Config, q: seq<Config>)
    requires Leads(Runs(p, text), Matches(p, text), c, q)
    ensures q[|q| - 1].pos <= |text| && Leads(Runs(p, text), MatchesAt(p, text, q[|q| - 1].pos), c, q)
  {
    RunsDomain(p, text);
  }

  /** The wanted run and where it starts; in longest mode also where it ends. */
  lemma WantedRun(p: Prog, text: Text, longest: bool, pos: nat) returns (s: nat, e: nat)
    requires WellFormed(p) && pos <= |text| && Wanted(p, text, longest, pos).Some?
    ensures var w := Wanted(p, text, longest, pos).value;
      && pos <= s <= |text|
      && Naive(Runs(p, text), if longest then MatchesAt(p, text, e) else Matches(p, text), {}, Start(p, s)) == Some(w)
      && Naive(Runs(p, text), Matches(p, text), {}, Start(p, s)).Some?
      && forall s' :: pos <= s' < s ==> Naive(Runs(p, text), Matches(p, text), {}, Start(p, s')).None?
    ensures longest ==> forall y ::
      e < y <= |text| ==> Naive(Runs(p, text), MatchesAt(p, text, y), {}, Start(p, s)).None?
  {
    var g, M := Runs(p, text), Matches(p, text);
    s := FirstNaiveAt(p, text, M, pos, |text| + 1);
    e := 0;
    NaiveSound(g, M, {}, Start(p, s));
    var q := Naive(g, M, {}, Start(p, s)).value;
    if longest {
      EndsAt(p, text, Start(p, s), q);
      NaiveComplete(g, MatchesAt(p, text, q[|q| - 1].pos), {}, Start(p, s), q);
      LongestEndMax(p, text, s, |text|, q[|q| - 1].pos);
      e := LongestEnd(p, text, s, |text|);
      assert Nodes<Config>([]) == {};
      var r := Naive(g, MatchesAt(p, text, e), {}, Start(p, s)).value;
      assert [] + r == r;
    }
  }

  /** A search fails exactly when no start position has an accepting run. */
  lemma WantedExists(p: Prog, text: Text, longest: bool, pos: nat)
    requires WellFormed(p) && pos <= |text|
    ensures Wanted(p, text, longest, pos).Some? <==> exists s, q :: pos <= s <= |text| && Accepting(p, text, s, q)
  {
    var g, M := Runs(p, text), Matches(p, text);
    if Leftmost(p, text, M, pos).Some? {
      var s := FirstNaiveAt(p, text, M, pos, |text| + 1);
      NaiveSound(g, M, {}, Start(p, s));
      assert Accepting(p, text, s, Naive(g, M, {}, Start(p, s)).value);
    }
    if s, q :| pos <= s <= |text| && Accepting(p, text, s, q) {
      NaiveComplete(g, M, {}, Start(p, s), q);
      if Leftmost(p, text, M, pos).None? { FirstNaiveNever(p, text, M, pos, |text| + 1, s); }
      if longest {
        var t := FirstNaiveAt(p, text, M, pos, |text| + 1);
        NaiveSound(g, M, {}, Start(p, t));
        var r := Naive(g, M, {}, Start(p, t)).value;
        EndsAt(p, text, Start(p, t), r);
        NaiveComplete(g, MatchesAt(p, text, r[|r| - 1].pos), {}, Start(p, t), r);
        LongestEndMax(p, text, t, |text|, r[|r| - 1].pos);
        assert Nodes<Config>([]) == {};
      }
    }
  }

  /** The wanted run is accepting, starts leftmost, in longest mode ends last, and among the
      runs that could have been chosen without repeating a configuration it comes first in
      priority order, the one a backtracking search would have found first. */
  lemma WantedMeaning(p: Prog, text: Text, longest: bool, pos: nat)
    requires WellFormed(p) && pos <= |text| && Wanted(p, text, longest, pos).Some?
    ensures var w := Wanted(p, text, longest, pos).value;
      && w != [] && pos <= w[0].pos <= |text| && Accepting(p, text, w[0].pos, w) && Simple(w)
      && (forall s, q: seq<Config> :: pos <= s <= |text| && Accepting(p, text, s, q) ==> w[0].pos <= s)
      && (longest ==> forall q: seq<Config> :: Accepting(p, text, w[0].pos, q) ==> q[|q| - 1].pos <= w[|w| - 1].pos)
      && (forall q: seq<Config> ::
            Accepting(p, text, w[0].pos, q) && Simple(q) && (longest ==> q[|q| - 1].pos == w[|w| - 1].pos) ==>
            NoLater(Runs(p, text), w, q))
  {
    var g, M := Runs(p, text), Matches(p, text);
    var w := Wanted(p, text, longest, pos).value;
    var s, e := WantedRun(p, text, longest, pos);
    var T := if longest then MatchesAt(p, text, e) else M;
    NaiveSound(g, T, {}, Start(p, s));
    forall t, q: seq<Config> | pos <= t <= |text| && Accepting(p, text, t, q)
      ensures s <= t { NaiveComplete(g, M, {}, Start(p, t), q); }
    forall q: seq<Config> | longest && Accepting(p, text, s, q) ensures q[|q| - 1].pos <= e {
      EndsAt(p, text, Start(p, s), q);
      NaiveComplete(g, MatchesAt(p, text, q[|q| - 1].pos), {}, Start(p, s), q);
    }
    forall q: seq<Config> | Accepting(p, text, s, q) && Simple(q) && (longest ==> q[|q| - 1].pos == e)
      ensures NoLater(g, w, q) {
      EndsAt(p, text, Start(p, s), q);
      forall i | 0 <= i < |q| - 1 ensures q[i] !in T { MatchOnlyAtEnd(p, text, q, i); }
      NaiveIsFirst(g, T, {}, Start(p, s), q);
    }
  }
}
