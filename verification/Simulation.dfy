/** Why a level-by-level simulation with ordered threads ends up with the wanted match:
    the account, kept over thread lists, that the NFA machine is proved to balance. */
module Simulation {
  import opened Search
  import opened RegexpProg
  import opened MatchSpec
  import opened Levels

  function OrElse<T>(a: Option<T>, b: Option<T>): Option<T> { if a.Some? then a else b }

  /** The targets that identify the wanted match among all matches: those that end where it ends. */
  ghost predicate Identifies(p: Prog, text: Text, longest: bool, lo: nat, T: set<Config>, wanted: Option<seq<Config>>)
    requires lo <= |text|
  {
    && T <= Matches(p, text)
    && wanted == Leftmost(p, text, T, lo)
    && (!longest ==> AllMatches(p, text, T))
    && (wanted.None? ==> NoneAccepts(p, text, lo))
    && (wanted.Some? ==>
          && wanted.value != [] && IsRun(p, text, lo, |text|, wanted.value) && wanted.value[|wanted.value| - 1] in T
          && StartsFirst(p, text, lo, wanted.value[0].pos)
          && (longest ==> MatchesEndingAt(p, text, T, wanted.value[|wanted.value| - 1].pos))
          && (longest ==> EndsLast(p, text, wanted.value[0].pos, wanted.value[|wanted.value| - 1].pos)))
  }

  ghost predicate AllMatches(p: Prog, text: Text, T: set<Config>) {
    forall c :: InRange(p, text, c) && IsMatch(p, c) ==> c in T
  }

  ghost predicate MatchesEndingAt(p: Prog, text: Text, T: set<Config>, e: nat) {
    forall c :: c in T <==> InRange(p, text, c) && IsMatch(p, c) && c.pos == e
  }

  ghost predicate NoneAccepts(p: Prog, text: Text, lo: nat) {
    forall s, q: seq<Config> :: lo <= s <= |text| ==> !Accepting(p, text, s, q)
  }

  ghost predicate StartsFirst(p: Prog, text: Text, lo: nat, first: nat) {
    forall s, q: seq<Config> :: lo <= s <= |text| && Accepting(p, text, s, q) ==> first <= s
  }

  ghost predicate EndsLast(p: Prog, text: Text, s: nat, last: nat) {
    forall q: seq<Config> :: Accepting(p, text, s, q) ==> q[|q| - 1].pos <= last
  }

  /** path is a run from a start position between lo and hi. */
  ghost predicate IsRun(p: Prog, text: Text, lo: nat, hi: nat, path: seq<Config>) {
    path != [] && IsPath(Runs(p, text), path) && path[0].pc == p.start && lo <= path[0].pos <= hi
  }

  /** Whatever is wanted, some set of targets identifies it. */
  lemma Identified(p: Prog, text: Text, longest: bool, lo: nat) returns (T: set<Config>)
    requires WellFormed(p) && lo <= |text|
    ensures Identifies(p, text, longest, lo, T, Wanted(p, text, longest, lo))
  {
    var w := Wanted(p, text, longest, lo);
    WantedExists(p, text, longest, lo);
    T := Matches(p, text);
    RunsDomain(p, text);
    if w.Some? {
      WantedMeaning(p, text, longest, lo);
      var s, e := WantedRun(p, text, longest, lo);
      if longest {
        T := MatchesAt(p, text, e);
        NaiveSound(Runs(p, text), T, {}, Start(p, s));
        forall s' | lo <= s' < s ensures Naive(Runs(p, text), T, {}, Start(p, s')).None? {
          FewerTargets(p, text, T, Matches(p, text), Start(p, s'));
        }
        LeftmostFrom(p, text, T, lo, s);
      }
    } else {
      if Leftmost(p, text, T, lo).Some? {
        var s := FirstNaiveAt(p, text, T, lo, |text| + 1);
        NaiveSound(Runs(p, text), T, {}, Start(p, s));
        assert Accepting(p, text, s, Naive(Runs(p, text), T, {}, Start(p, s)).value);
      }
    }
  }

  lemma FewerTargets(p: Prog, text: Text, T: set<Config>, U: set<Config>, c: Config)
    requires T <= U && Naive(Runs(p, text), U, {}, c).None?
    ensures Naive(Runs(p, text), T, {}, c).None?
  {
    NaiveSound(Runs(p, text), T, {}, c);
    var r := Naive(Runs(p, text), T, {}, c);
    if r.Some? { NaiveComplete(Runs(p, text), U, {}, c, r.value); }
  }

  lemma {:induction false} LeftmostFrom(p: Prog, text: Text, T: set<Config>, lo: nat, s: nat)
    requires lo <= s <= |text|
    requires forall s' :: lo <= s' < s ==> Naive(Runs(p, text), T, {}, Start(p, s')).None?
    requires Naive(Runs(p, text), T, {}, Start(p, s)).Some?
    ensures Leftmost(p, text, T, lo) == Naive(Runs(p, text), T, {}, Start(p, s))
    decreases s - lo
  {
    LeftmostStep(p, text, T, lo);
    if lo < s { LeftmostFrom(p, text, T, lo + 1, s); }
  }

  /** What starting at position i or later can still find. */
  ghost function Later(p: Prog, text: Text, T: set<Config>, i: nat): Option<seq<Config>> {
    if i <= |text| then Leftmost(p, text, T, i) else None
  }

  lemma LeftmostStep(p: Prog, text: Text, T: set<Config>, i: nat)
    requires i <= |text|
    ensures Leftmost(p, text, T, i) == OrElse(Naive(Runs(p, text), T, {}, Start(p, i)), Later(p, text, T, i + 1))
  {
    var todo := StartTrails(p, i, |text| + 1);
    assert |todo| == |text| + 1 - i && todo[0] == StartTrail(p, i) && todo[1..] == StartTrails(p, i + 1, |text| + 1);
    assert Nodes<Config>([]) == {};
    var r := Naive(Runs(p, text), T, {}, Start(p, i));
    if r.Some? { assert [] + r.value == r.value; }
    if i == |text| { assert FirstNaive(Runs(p, text), T, todo[1..]).None?; }
  }

  lemma LaterStartsLater(p: Prog, text: Text, T: set<Config>, i: nat)
    ensures var r := Later(p, text, T, i); r.Some? ==> r.value != [] && r.value[0].pos >= i
  {
    if Later(p, text, T, i).Some? {
      var s := FirstNaiveAt(p, text, T, i, |text| + 1);
      NaiveSound(Runs(p, text), T, {}, Start(p, s));
    }
  }

  // ------------------------------------------------------------------ thread lists

  /** What the threads waiting in L, visited in this order at position pos, can still reach first. */
  ghost function Rest(p: Prog, text: Text, T: set<Config>, pos: nat, L: seq<Trail<Config>>): Option<seq<Config>> {
    Continue(p, text, T, FirstIn(Live(p, text, T, pos), L))
  }

  /** t is a run that has arrived at position pos. */
  ghost predicate RunTrail(p: Prog, text: Text, lo: nat, hi: nat, pos: nat, t: Trail<Config>) {
    t.node.pos == pos && t.node.pc < |p.insts| && IsRun(p, text, lo, hi, t.Path())
  }

  ghost predicate AllRuns(p: Prog, text: Text, lo: nat, hi: nat, pos: nat, L: seq<Trail<Config>>) {
    forall i :: 0 <= i < |L| ==> RunTrail(p, text, lo, hi, pos, L[i])
  }

  ghost predicate OffZero(L: seq<Trail<Config>>) { forall i :: 0 <= i < |L| ==> L[i].node.pc > 0 }

  /** L lists the configurations visited at pos: runs from start positions lo..hi, closed under empty transitions. */
  ghost predicate Visits(p: Prog, text: Text, lo: nat, hi: nat, pos: nat, L: seq<Trail<Config>>) {
    && AllRuns(p, text, lo, hi, pos, L)
    && OffZero(L)
    && Tracked(Level(p, pos, Context(text, pos)), [], L)
  }

  lemma {:induction false} PathAppend<N>(g: Graph<N>, q: seq<N>, c: N)
    requires q != [] && IsPath(g, q) && c in g && q[|q| - 1] in g && c in g[q[|q| - 1]]
    ensures IsPath(g, q + [c])
  {
    if |q| > 1 {
      PathAppend(g, q[1..], c);
      assert (q + [c])[1..] == q[1..] + [c];
    } else {
      assert (q + [c])[1..] == [c];
    }
  }

  lemma {:induction false} PathLast<N>(g: Graph<N>, q: seq<N>)
    requires q != [] && IsPath(g, q)
    ensures q[|q| - 1] in g
  {
    if |q| > 1 { PathLast(g, q[1..]); }
  }

  lemma ChildRuns(p: Prog, text: Text, lo: nat, hi: nat, pos: nat, t: Trail<Config>)
    requires WellFormed(p) && pos <= |text| && RunTrail(p, text, lo, hi, pos, t)
    requires t.node in Level(p, pos, Context(text, pos))
    ensures AllRuns(p, text, lo, hi, pos, Children(Level(p, pos, Context(text, pos)), t))
  {
    var ch := Children(Level(p, pos, Context(text, pos)), t);
    LevelDomain(p, pos, Context(text, pos));
    RunsDomain(p, text);
    assert InstOk(p.insts[t.node.pc], |p.insts|);
    forall i | 0 <= i < |ch| ensures RunTrail(p, text, lo, hi, pos, ch[i]) {
      assert ch[i].node in Successors(p, text, t.node);
      PathAppend(Runs(p, text), t.Path(), ch[i].node);
    }
  }

  /** Adding a thread keeps every listed trail a run. */
  lemma {:induction false} ExploreRuns(p: Prog, text: Text, lo: nat, hi: nat, pos: nat, todo: seq<Trail<Config>>,
      L: seq<Trail<Config>>)
    requires WellFormed(p) && pos <= |text| && AllRuns(p, text, lo, hi, pos, todo) && AllRuns(p, text, lo, hi, pos, L)
    requires OffZero(L)
    ensures AllRuns(p, text, lo, hi, pos, Explore(Level(p, pos, Context(text, pos)), todo, L))
    ensures OffZero(Explore(Level(p, pos, Context(text, pos)), todo, L))
    decreases Level(p, pos, Context(text, pos)).Keys - Visited(L), |todo|
  {
    var g := Level(p, pos, Context(text, pos));
    if todo != [] {
      var t := todo[0];
      if t.node in Visited(L) || t.node !in g {
        ExploreRuns(p, text, lo, hi, pos, todo[1..], L);
      } else {
        VisitedGrows(L, t);
        LevelDomain(p, pos, Context(text, pos));
        ChildRuns(p, text, lo, hi, pos, t);
        ExploreRuns(p, text, lo, hi, pos, Children(g, t) + todo[1..], L + [t]);
      }
    }
  }

  lemma ContinuePrefix(p: Prog, text: Text, T: set<Config>, P: seq<Config>, r: seq<Config>)
    requires r != []
    ensures Continue(p, text, T, Some(P + r)) ==
      match Continue(p, text, T, Some(r)) {
        case None => None
        case Some(q) => Some(P + q)
      }
  {
    var q := P + r;
    assert q[|q| - 1] == r[|r| - 1] && q[..|q| - 1] == P + r[..|r| - 1];
    var m := Naive(Runs(p, text), T, {}, q[|q| - 1]);
    if m.Some? { assert P + (r[..|r| - 1] + m.value) == q[..|q| - 1] + m.value; }
  }

  lemma RestFound(p: Prog, text: Text, T: set<Config>, pos: nat, L: seq<Trail<Config>>)
    ensures FirstIn(Live(p, text, T, pos), L).Some? ==> Rest(p, text, T, pos, L).Some?
  {
    var o := FirstIn(Live(p, text, T, pos), L);
    if o.Some? {
      FirstInLast(Live(p, text, T, pos), L);
      LiveMembers(p, text, T, pos);
    }
  }

  lemma {:induction false} FirstInLast<N>(T: set<N>, L: seq<Trail<N>>)
    ensures FirstIn(T, L).Some? ==> FirstIn(T, L).value != [] && FirstIn(T, L).value[|FirstIn(T, L).value| - 1] in T
  {
    if L != [] { FirstInLast(T, L[1..]); }
  }

  lemma RestConcat(p: Prog, text: Text, T: set<Config>, pos: nat, A: seq<Trail<Config>>, B: seq<Trail<Config>>)
    ensures Rest(p, text, T, pos, A + B) == OrElse(Rest(p, text, T, pos, A), Rest(p, text, T, pos, B))
  {
    FirstInConcat(Live(p, text, T, pos), A, B);
    RestFound(p, text, T, pos, A);
  }

  /** Adding a thread for t to the list L, with the list as table, adds exactly what plain
      backtracking would find from t, after everything the list could find already. */
  lemma RestAdd(p: Prog, text: Text, T: set<Config>, lo: nat, hi: nat, pos: nat, t: Trail<Config>,
      L: seq<Trail<Config>>)
    requires WellFormed(p) && T <= Matches(p, text) && pos <= |text|
    requires Visits(p, text, lo, hi, pos, L) && RunTrail(p, text, lo, hi, pos, t)
    requires forall i :: 0 <= i < |t.prefix| ==> t.prefix[i].pos < pos
    ensures var E := Explore(Level(p, pos, Context(text, pos)), [t], L);
      && Visits(p, text, lo, hi, pos, E)
      && Rest(p, text, T, pos, E) == OrElse(Rest(p, text, T, pos, L),
           match Naive(Runs(p, text), T, {}, t.node) {
             case None => None
             case Some(r) => Some(t.prefix + r)
           })
  {
    var lv, live := Level(p, pos, Context(text, pos)), Live(p, text, T, pos);
    var E := Explore(lv, [t], L);
    LevelDomain(p, pos, Context(text, pos));
    assert Nested(lv, [t], L);
    ExploreRuns(p, text, lo, hi, pos, [t], L);
    ExploreTracks(lv, [t], L);
    ExploreExtends(lv, [t], L);
    assert E == L + E[|L|..];
    RestConcat(p, text, T, pos, L, E[|L|..]);
    FirstInNone(live, L);
    if FirstIn(live, L).None? {
      ExploreFindsNaive(lv, live, [t], L);
      NaiveByLevel(p, text, T, pos, Nodes(t.prefix), t.node);
      PastIrrelevant(p, text, T, Nodes(t.prefix), {}, t.node);
      var r := Naive(lv, live, Nodes(t.prefix), t.node);
      assert FirstNaive(lv, live, [t][1..]).None?;
      if r.Some? { ContinuePrefix(p, text, T, t.prefix, r.value); }
    } else {
      RestFound(p, text, T, pos, L);
    }
  }

  // ------------------------------------------------------------------- the account

  /** The match on record, if any, is a run to InstMatch that has ended by pos. */
  ghost predicate Recorded(p: Prog, text: Text, lo: nat, pos: nat, matched: bool, best: seq<Config>) {
    matched ==> IsRun(p, text, lo, |text|, best) && IsMatch(p, best[|best| - 1]) && best[|best| - 1].pos <= pos
  }

  /** The wanted match is on record for good. */
  ghost predicate Settled(longest: bool, T: set<Config>, matched: bool, best: seq<Config>) {
    longest && matched && best != [] && best[|best| - 1] in T
  }

  /** The wanted match is what the threads ahead find first, failing that the match on
      record, failing that what later start positions find. */
  ghost predicate Owed(longest: bool, T: set<Config>, wanted: Option<seq<Config>>, matched: bool, best: seq<Config>,
      ahead: Option<seq<Config>>, later: Option<seq<Config>>) {
    if Settled(longest, T, matched, best) then wanted == Some(best)
    else wanted == OrElse(ahead, if !matched then later else if longest then None else Some(best))
  }

  /** The books before the start thread of position pos is added to the run queue L. */
  ghost predicate Account(p: Prog, text: Text, longest: bool, lo: nat, T: set<Config>, wanted: Option<seq<Config>>,
      pos: nat, L: seq<Trail<Config>>, matched: bool, best: seq<Config>) {
    && Recorded(p, text, lo, pos, matched, best)
    && Owed(longest, T, wanted, matched, best, Rest(p, text, T, pos, L), Later(p, text, T, pos))
  }

  /** What the next queue N can find; at the end of the text it is never run. */
  ghost function NextRest(p: Prog, text: Text, T: set<Config>, pos: nat, N: seq<Trail<Config>>): Option<seq<Config>> {
    if pos < |text| then Rest(p, text, T, pos + 1, N) else None
  }

  /** The books in the middle of a step at pos: the threads of R are still to run, those of N wait at pos + 1. */
  ghost predicate StepAccount(p: Prog, text: Text, longest: bool, lo: nat, T: set<Config>,
      wanted: Option<seq<Config>>, pos: nat, R: seq<Trail<Config>>, N: seq<Trail<Config>>, matched: bool,
      best: seq<Config>) {
    && Recorded(p, text, lo, pos, matched, best)
    && Owed(longest, T, wanted, matched, best, OrElse(NextRest(p, text, T, pos, N), Rest(p, text, T, pos, R)),
      Later(p, text, T, pos + 1))
  }

  lemma NoThreads(p: Prog, text: Text, T: set<Config>, pos: nat)
    ensures Rest(p, text, T, pos, []).None?
  {}

  lemma BeginMatched(p: Prog, text: Text, longest: bool, lo: nat, T: set<Config>, wanted: Option<seq<Config>>,
      pos: nat, L: seq<Trail<Config>>, best: seq<Config>)
    requires Account(p, text, longest, lo, T, wanted, pos, L, true, best)
    ensures StepAccount(p, text, longest, lo, T, wanted, pos, L, [], true, best)
  {
    NoThreads(p, text, T, pos + 1);
  }

  /** A thread for a start at pos finds what the search from there finds. */
  lemma StartAdded(p: Prog, text: Text, T: set<Config>, lo: nat, pos: nat, L: seq<Trail<Config>>)
    requires WellFormed(p) && T <= Matches(p, text) && lo <= pos <= |text| && Visits(p, text, lo, pos, pos, L)
    ensures var L' := Explore(Level(p, pos, Context(text, pos)), [StartTrail(p, pos)], L);
      && Visits(p, text, lo, pos, pos, L')
      && Rest(p, text, T, pos, L') == OrElse(Rest(p, text, T, pos, L), Naive(Runs(p, text), T, {}, Start(p, pos)))
  {
    RunsDomain(p, text);
    var t := StartTrail(p, pos);
    assert t.Path() == [Config(p.start, pos)];
    RestAdd(p, text, T, lo, pos, pos, t, L);
    NoPrefix(Naive(Runs(p, text), T, {}, t.node));
  }

  lemma NoPrefix(r: Option<seq<Config>>)
    ensures r.Some? ==> [] + r.value == r.value
  {
    if r.Some? { assert [] + r.value == r.value; }
  }

  lemma OwedFromHere(longest: bool, T: set<Config>, wanted: Option<seq<Config>>, best: seq<Config>,
      rest: Option<seq<Config>>, here: Option<seq<Config>>, later: Option<seq<Config>>)
    requires Owed(longest, T, wanted, false, best, rest, OrElse(here, later))
    ensures Owed(longest, T, wanted, false, best, OrElse(None, OrElse(rest, here)), later)
  {}

  lemma BeginUnmatched(p: Prog, text: Text, longest: bool, lo: nat, T: set<Config>, wanted: Option<seq<Config>>,
      pos: nat, L: seq<Trail<Config>>, best: seq<Config>)
    requires WellFormed(p) && T <= Matches(p, text) && lo <= pos <= |text|
    requires Visits(p, text, lo, pos, pos, L) && Account(p, text, longest, lo, T, wanted, pos, L, false, best)
    ensures var L' := Explore(Level(p, pos, Context(text, pos)), [StartTrail(p, pos)], L);
      Visits(p, text, lo, pos, pos, L') && StepAccount(p, text, longest, lo, T, wanted, pos, L', [], false, best)
  {
    NoThreads(p, text, T, pos + 1);
    StartAdded(p, text, T, lo, pos, L);
    LeftmostStep(p, text, T, pos);
    OwedFromHere(longest, T, wanted, best, Rest(p, text, T, pos, L), Naive(Runs(p, text), T, {}, Start(p, pos)),
      Later(p, text, T, pos + 1));
  }

  lemma RestNext(p: Prog, text: Text, T: set<Config>, pos: nat, R: seq<Trail<Config>>)
    requires R != []
    ensures Rest(p, text, T, pos, R) ==
      if R[0].node in Live(p, text, T, pos) then Some(R[0].prefix + Naive(Runs(p, text), T, {}, R[0].node).value)
      else Rest(p, text, T, pos, R[1..])
  {
    LiveMembers(p, text, T, pos);
    var q := R[0].Path();
    assert q[..|q| - 1] == R[0].prefix;
  }

  /** A thread that cannot reach T may go. */
  lemma Dead(p: Prog, text: Text, longest: bool, lo: nat, T: set<Config>, wanted: Option<seq<Config>>, pos: nat,
      R: seq<Trail<Config>>, N: seq<Trail<Config>>, matched: bool, best: seq<Config>)
    requires StepAccount(p, text, longest, lo, T, wanted, pos, R, N, matched, best)
    requires R != [] && R[0].node !in Live(p, text, T, pos)
    ensures StepAccount(p, text, longest, lo, T, wanted, pos, R[1..], N, matched, best)
  {
    RestNext(p, text, T, pos, R);
  }

  /** In longest mode a thread that started to the right of the match on record may go. */
  lemma Drop(p: Prog, text: Text, lo: nat, T: set<Config>, wanted: Option<seq<Config>>, pos: nat,
      R: seq<Trail<Config>>, N: seq<Trail<Config>>, best: seq<Config>)
    requires lo <= |text| && Identifies(p, text, true, lo, T, wanted) &&
      StepAccount(p, text, true, lo, T, wanted, pos, R, N, true, best)
    requires R != [] && best[0].pos < R[0].Path()[0].pos
    ensures StepAccount(p, text, true, lo, T, wanted, pos, R[1..], N, true, best)
  {
    RestNext(p, text, T, pos, R);
    LiveMembers(p, text, T, pos);
    RecordedAccepts(p, text, lo, pos, best);
    NaiveSound(Runs(p, text), T, {}, R[0].node);
    var r := Naive(Runs(p, text), T, {}, R[0].node);
    if r.Some? { assert (R[0].prefix + r.value)[0] == R[0].Path()[0]; }
  }

  lemma RecordedAccepts(p: Prog, text: Text, lo: nat, pos: nat, best: seq<Config>)
    requires Recorded(p, text, lo, pos, true, best)
    ensures Accepting(p, text, best[0].pos, best)
  {
    PathLast(Runs(p, text), best);
  }

  /** The thread that waits after c's rune has been consumed. */
  function Moved(p: Prog, t: Trail<Config>): Trail<Config>
    requires t.node.pc < |p.insts| && Waits(p.insts[t.node.pc]) && !p.insts[t.node.pc].Match?
  {
    Trail(t.Path(), Config(p.insts[t.node.pc].out, t.node.pos + 1))
  }

  lemma MovedRuns(p: Prog, text: Text, lo: nat, pos: nat, t: Trail<Config>)
    requires WellFormed(p) && RunTrail(p, text, lo, pos, pos, t) && pos < |text|
    requires Waits(p.insts[t.node.pc]) && Consumes(p.insts[t.node.pc], text[pos])
    ensures Successors(p, text, t.node) == [Moved(p, t).node]
    ensures RunTrail(p, text, lo, pos, pos + 1, Moved(p, t))
    ensures forall i :: 0 <= i < |Moved(p, t).prefix| ==> Moved(p, t).prefix[i].pos < pos + 1
  {
    assert InstOk(p.insts[t.node.pc], |p.insts|);
    RunsDomain(p, text);
    PathAppend(Runs(p, text), t.Path(), Moved(p, t).node);
    NotLater(p, text, t.Path());
  }

  /** Only what the threads can find matters, not which queue they are in. */
  lemma SameAhead(p: Prog, text: Text, longest: bool, lo: nat, T: set<Config>, wanted: Option<seq<Config>>, pos: nat,
      R: seq<Trail<Config>>, N: seq<Trail<Config>>, R': seq<Trail<Config>>, N': seq<Trail<Config>>, matched: bool,
      best: seq<Config>)
    requires StepAccount(p, text, longest, lo, T, wanted, pos, R, N, matched, best) && pos < |text|
    requires OrElse(Rest(p, text, T, pos + 1, N'), Rest(p, text, T, pos, R')) == OrElse(Rest(p, text, T, pos + 1, N),
      Rest(p, text, T, pos, R))
    ensures StepAccount(p, text, longest, lo, T, wanted, pos, R', N', matched, best)
  {}

  /** A thread whose rune matches moves its claim to the next queue. */
  lemma AdvanceRest(p: Prog, text: Text, T: set<Config>, lo: nat, pos: nat, R: seq<Trail<Config>>,
      N: seq<Trail<Config>>) returns (N': seq<Trail<Config>>)
    requires WellFormed(p) && T <= Matches(p, text) && pos < |text|
    requires R != [] && RunTrail(p, text, lo, pos, pos, R[0]) && R[0].node.pc > 0
    requires Waits(p.insts[R[0].node.pc]) && Consumes(p.insts[R[0].node.pc], text[pos])
    requires Visits(p, text, lo, pos, pos + 1, N)
    ensures N' == Explore(Level(p, pos + 1, Context(text, pos + 1)), [Moved(p, R[0])], N) &&
      Visits(p, text, lo, pos, pos + 1, N')
    ensures OrElse(Rest(p, text, T, pos + 1, N'), Rest(p, text, T, pos, R[1..])) == OrElse(Rest(p, text, T, pos + 1, N),
      Rest(p, text, T, pos, R))
  {
    MovedRuns(p, text, lo, pos, R[0]);
    RestAdd(p, text, T, lo, pos, pos + 1, Moved(p, R[0]), N);
    RestMoved(p, text, T, pos, R);
    N' := Explore(Level(p, pos + 1, Context(text, pos + 1)), [Moved(p, R[0])], N);
  }

  lemma RestMoved(p: Prog, text: Text, T: set<Config>, pos: nat, R: seq<Trail<Config>>)
    requires WellFormed(p) && T <= Matches(p, text) && R != [] && R[0].node.pos == pos < |text| &&
      0 < R[0].node.pc < |p.insts|
    requires Waits(p.insts[R[0].node.pc]) && Consumes(p.insts[R[0].node.pc], text[pos])
    requires Successors(p, text, R[0].node) == [Moved(p, R[0]).node]
    ensures Rest(p, text, T, pos, R) == OrElse(
      match Naive(Runs(p, text), T, {}, Moved(p, R[0]).node) {
        case None => None
        case Some(r) => Some(Moved(p, R[0]).prefix + r)
      }, Rest(p, text, T, pos, R[1..]))
  {
    var c, d := R[0].node, Moved(p, R[0]).node;
    RestNext(p, text, T, pos, R);
    LiveMembers(p, text, T, pos);
    ConsumeStep(p, text, T, c, d);
    var r := Naive(Runs(p, text), T, {}, d);
    if r.Some? { assert R[0].prefix + ([c] + r.value) == R[0].Path() + r.value; }
  }

  /** Positions never decrease along a run. */
  lemma {:induction false} NotLater(p: Prog, text: Text, q: seq<Config>)
    requires WellFormed(p) && q != [] && IsPath(Runs(p, text), q)
    ensures forall i :: 0 <= i < |q| ==> q[i].pos <= q[|q| - 1].pos
  {
    if |q| > 1 {
      NotLater(p, text, q[1..]);
      RunsDomain(p, text);
      assert q[1].pos >= q[0].pos;
      forall i | 0 <= i < |q| ensures q[i].pos <= q[|q| - 1].pos {
        if i > 0 { assert q[i] == q[1..][i - 1]; }
      }
    }
  }

  lemma ConsumeStep(p: Prog, text: Text, T: set<Config>, c: Config, d: Config)
    requires WellFormed(p) && T <= Matches(p, text) && InRange(p, text, c) && Successors(p, text, c) == [d]
    requires d.pos == c.pos + 1 && !IsMatch(p, c)
    ensures Naive(Runs(p, text), T, {}, c) ==
      match Naive(Runs(p, text), T, {}, d) {
        case None => None
        case Some(r) => Some([c] + r)
      }
  {
    RunsDomain(p, text);
    NaiveFirstOne(Runs(p, text), T, {} + {c}, d);
    PastIrrelevant(p, text, T, {} + {c}, {}, d);
  }

  lemma RestAtMatch(p: Prog, text: Text, T: set<Config>, pos: nat, R: seq<Trail<Config>>)
    requires WellFormed(p) && pos <= |text| && R != [] && IsMatch(p, R[0].node) && R[0].node.pos == pos &&
      R[0].node.pc > 0
    ensures Rest(p, text, T, pos, R) == if R[0].node in T then Some(R[0].Path()) else Rest(p, text, T, pos, R[1..])
  {
    RunsDomain(p, text);
    RestNext(p, text, T, pos, R);
    LiveMembers(p, text, T, pos);
    assert Successors(p, text, R[0].node) == [];
  }

  /** Leftmost-first: a match cuts off every thread behind it. */
  lemma MatchFirst(p: Prog, text: Text, lo: nat, T: set<Config>, wanted: Option<seq<Config>>, pos: nat,
      R: seq<Trail<Config>>, N: seq<Trail<Config>>, matched: bool, best: seq<Config>)
    requires AllMatches(p, text, T) && StepAccount(p, text, false, lo, T, wanted, pos, R, N, matched, best)
    requires WellFormed(p) && pos <= |text| && R != [] && IsMatch(p, R[0].node) &&
      RunTrail(p, text, lo, pos, pos, R[0]) && R[0].node.pc > 0
    ensures StepAccount(p, text, false, lo, T, wanted, pos, [], N, true, R[0].Path())
  {
    RestAtMatch(p, text, T, pos, R);
    RunsDomain(p, text);
    NoThreads(p, text, T, pos);
  }

  /** From beyond the last end no target can be reached. */
  lemma NothingBeyond(p: Prog, text: Text, T: set<Config>, e: nat, pos: nat, N: seq<Trail<Config>>)
    requires WellFormed(p) && MatchesEndingAt(p, text, T, e) && pos > e
    ensures Rest(p, text, T, pos, N).None?
  {
    FirstInLast(Live(p, text, T, pos), N);
    LiveMembers(p, text, T, pos);
    var o := FirstIn(Live(p, text, T, pos), N);
    if o.Some? {
      var c := o.value[|o.value| - 1];
      NaiveSound(Runs(p, text), T, {}, c);
      var r := Naive(Runs(p, text), T, {}, c).value;
      NotLater(p, text, r);
      assert false;
    }
  }

  /** What the lists say when the first waiting thread is at InstMatch. */
  lemma MatchAhead(p: Prog, text: Text, T: set<Config>, pos: nat, R: seq<Trail<Config>>, N: seq<Trail<Config>>, e: nat)
    requires WellFormed(p) && pos <= |text| && R != [] && IsMatch(p, R[0].node) && R[0].node.pos == pos &&
      R[0].node.pc > 0
    requires MatchesEndingAt(p, text, T, e)
    ensures Rest(p, text, T, pos, R) == if pos == e then Some(R[0].Path()) else Rest(p, text, T, pos, R[1..])
    ensures pos == e ==> NextRest(p, text, T, pos, N).None?
    ensures var later := Later(p, text, T, pos + 1); later.Some? ==> later.value != [] && later.value[0].pos >= pos + 1
  {
    RestAtMatch(p, text, T, pos, R);
    LaterStartsLater(p, text, T, pos + 1);
    NextRestBeyond(p, text, T, pos, N, e);
  }

  lemma NextRestBeyond(p: Prog, text: Text, T: set<Config>, pos: nat, N: seq<Trail<Config>>, e: nat)
    requires WellFormed(p) && MatchesEndingAt(p, text, T, e)
    ensures pos == e ==> NextRest(p, text, T, pos, N).None?
  {
    if pos == e && pos < |text| { NothingBeyond(p, text, T, e, pos + 1, N); }
  }

  /** Leftmost-longest: a match that is not dropped is recorded when none is on record or it ends later. */
  lemma MatchLongest(p: Prog, text: Text, lo: nat, T: set<Config>, wanted: Option<seq<Config>>, pos: nat,
      matched: bool, best: seq<Config>, P: seq<Config>, next: Option<seq<Config>>, here: Option<seq<Config>>,
      rest: Option<seq<Config>>, later: Option<seq<Config>>)
    requires WellFormed(p) && lo <= pos <= |text| && Identifies(p, text, true, lo, T, wanted)
    requires Recorded(p, text, lo, pos, matched, best) && Recorded(p, text, lo, pos, true, P) && P[|P| - 1].pos == pos
    requires Owed(true, T, wanted, matched, best, OrElse(next, here), later)
    requires wanted.Some? ==> here == if pos == wanted.value[|wanted.value| - 1].pos then Some(P) else rest
    requires wanted.Some? && pos == wanted.value[|wanted.value| - 1].pos ==> next.None?
    requires later.Some? ==> later.value != [] && later.value[0].pos >= pos + 1
    requires P[0].pos <= pos && (matched ==> P[0].pos <= best[0].pos)
    ensures Owed(true, T, wanted, true, if !matched || best[|best| - 1].pos < pos then P
      else best, OrElse(next, rest), later)
  {
    WantedEnd(p, text, lo, T, wanted, pos, P);
    if matched { WantedEnd(p, text, lo, T, wanted, best[|best| - 1].pos, best); }
    OwedLongest(T, wanted, matched, best, P, pos, next, rest, later);
  }

  /** The arithmetic of MatchLongest on the books alone. */
  lemma OwedLongest(T: set<Config>, wanted: Option<seq<Config>>, matched: bool, best: seq<Config>, P: seq<Config>,
      pos: nat, next: Option<seq<Config>>, rest: Option<seq<Config>>, later: Option<seq<Config>>)
    requires P != [] && P[|P| - 1].pos == pos && P[0].pos <= pos && wanted.Some? && wanted.value != []
    requires var here := P[|P| - 1] in T; Owed(true, T, wanted, matched, best,
      OrElse(next, if here then Some(P) else rest), later)
    requires P[|P| - 1] in T <==> pos == wanted.value[|wanted.value| - 1].pos
    requires wanted.value[0].pos <= P[0].pos && (P[0].pos == wanted.value[0].pos ==>
      pos <= wanted.value[|wanted.value| - 1].pos)
    requires matched ==> best != [] && best[|best| - 1].pos <= pos && P[0].pos <= best[0].pos
    requires matched ==> (best[|best| - 1] in T <==> best[|best| - 1].pos == wanted.value[|wanted.value| - 1].pos)
    requires pos == wanted.value[|wanted.value| - 1].pos ==> next.None?
    requires later.Some? ==> later.value != [] && later.value[0].pos >= pos + 1
    ensures Owed(true, T, wanted, true, if !matched || best[|best| - 1].pos < pos then P
      else best, OrElse(next, rest), later)
  {
  }

  lemma WantedEnd(p: Prog, text: Text, lo: nat, T: set<Config>, wanted: Option<seq<Config>>, pos: nat, P: seq<Config>)
    requires WellFormed(p) && lo <= |text| && Identifies(p, text, true, lo, T, wanted)
    requires IsRun(p, text, lo, |text|, P) && IsMatch(p, P[|P| - 1]) && P[|P| - 1].pos == pos
    ensures wanted.Some? && (P[|P| - 1] in T <==> pos == wanted.value[|wanted.value| - 1].pos)
    ensures wanted.value[0].pos <= P[0].pos && (P[0].pos == wanted.value[0].pos ==>
      pos <= wanted.value[|wanted.value| - 1].pos)
  {
    RecordedAccepts(p, text, lo, pos, P);
    RunsDomain(p, text);
    PathLast(Runs(p, text), P);
  }

  /** At the end of a step the next queue takes over. */
  lemma EndStep(p: Prog, text: Text, longest: bool, lo: nat, T: set<Config>, wanted: Option<seq<Config>>, pos: nat,
      N: seq<Trail<Config>>, matched: bool, best: seq<Config>)
    requires StepAccount(p, text, longest, lo, T, wanted, pos, [], N, matched, best)
    requires pos < |text| && Visits(p, text, lo, pos, pos + 1, N)
    ensures Account(p, text, longest, lo, T, wanted, pos + 1, N, matched, best)
  {
    NoThreads(p, text, T, pos);
    forall i | 0 <= i < |N| ensures RunTrail(p, text, lo, pos + 1, pos + 1, N[i]) {
      assert RunTrail(p, text, lo, pos, pos + 1, N[i]);
    }
  }

  /** With nothing ahead, what is on record is what was wanted. */
  lemma Balanced(p: Prog, text: Text, longest: bool, lo: nat, T: set<Config>, wanted: Option<seq<Config>>, pos: nat,
      matched: bool, best: seq<Config>, later: Option<seq<Config>>)
    requires lo <= |text| && Identifies(p, text, longest, lo, T, wanted) && Recorded(p, text, lo, pos, matched, best)
    requires Owed(longest, T, wanted, matched, best, None, later) && (matched || later.None?)
    ensures wanted == if matched then Some(best) else None
  {
    if matched { RecordedAccepts(p, text, lo, pos, best); }
  }
}
