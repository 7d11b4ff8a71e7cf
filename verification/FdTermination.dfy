/** Every goroutine that uses an fdMutex returns (src/net/fd_mutex.go): no retry loop spins for
    ever and no wake-up is passed on for ever, however the goroutines are scheduled. */
module FdTermination {
  import opened PackedWord
  import opened FdMutex
  import opened FdRuns
  import opened FdLifetime

  /** What may still happen to a goroutine: it has not released, has not acquired, has wake-ups to
      give or a try to make, has a word to load or a swap that will come too late. */
  datatype Left = Unreleased | Unacquired | Tries | Loads

  function Weight(left: Left, a: Agent, word: nat): nat {
    match left
    case Unreleased => B(a.stage.Ready? || a.stage.Seen? || a.stage.Asleep? || Holding(a.stage))
    case Unacquired => B(a.stage.Ready? || a.stage.Seen? || a.stage.Asleep?)
    case Tries =>
      (match a.stage
       case Ready(_) => 1
       case Seen(_, _) => 1
       case Waking(was) => 1 + 3 * (Owed(was, true) + Owed(was, false))
       case Signalling(_) => 3
       case _ => 0)
    case Loads =>
      (match a.stage
       case Ready(_) => 1
       case Held => 1
       case Seen(was, _) => if was == word then 0 else 2
       case Letting(was) => if was == word then 0 else 2
       case _ => 0)
  }

  function Add(ws: seq<nat>): nat { if ws == [] then 0 else Add(ws[..|ws| - 1]) + ws[|ws| - 1] }

  lemma {:induction false} AddPut(ws: seq<nat>, i: nat, w: nat)
    requires i < |ws|
    ensures Add(ws[i := w]) + ws[i] == Add(ws) + w
  {
    var n := |ws| - 1;
    if i < n {
      AddPut(ws[..n], i, w);
      assert ws[i := w][..n] == ws[..n][i := w];
    } else {
      assert ws[i := w][..n] == ws[..n];
    }
  }

  function Total(left: Left, agents: seq<Agent>, word: nat): nat {
    Add(seq(|agents|, i requires 0 <= i < |agents| => Weight(left, agents[i], word)))
  }

  lemma TotalPut(left: Left, s: Sys, i: nat, stage: Stage, word: nat)
    requires i < |s.agents|
    ensures var a := s.agents[i];
      Total(left, s.Put(i, stage).agents, word) + Weight(left, a, word) == Total(left, s.agents, word) +
        Weight(left, a.(stage := stage), word)
  {
    var agents, b := s.agents, s.agents[i].(stage := stage);
    var ws := seq(|agents|, j requires 0 <= j < |agents| => Weight(left, agents[j], word));
    var after := s.Put(i, stage).agents;
    assert seq(|after|, j requires 0 <= j < |after| => Weight(left, after[j], word)) == ws[i := Weight(left, b, word)];
    AddPut(ws, i, Weight(left, b, word));
  }

  /** Only Loads looks at the word. */
  lemma WordIrrelevant(left: Left, agents: seq<Agent>, word: nat, word': nat)
    requires left != Loads
    ensures Total(left, agents, word) == Total(left, agents, word')
  {
    assert seq(|agents|, i requires 0 <= i < |agents| => Weight(left, agents[i], word)) ==
           seq(|agents|, i requires 0 <= i < |agents| => Weight(left, agents[i], word'));
  }

  datatype Rank = Rank(unreleased: nat, unacquired: nat, tries: nat, loads: nat)

  function RankOf(s: Sys): Rank {
    Rank(Total(Unreleased, s.agents, s.word), Total(Unacquired, s.agents, s.word),
         Total(Tries, s.agents, s.word) + 2 * (s.rsema + s.wsema), Total(Loads, s.agents, s.word))
  }

  /** Lexicographically smaller. */
  predicate Below(q: Rank, r: Rank) {
    || q.unreleased < r.unreleased
    || (q.unreleased == r.unreleased &&
        (q.unacquired < r.unacquired ||
         (q.unacquired == r.unacquired && (q.tries < r.tries || (q.tries == r.tries && q.loads < r.loads)))))
  }

  /** What an action does to the rank, from the weights of the one goroutine that moves. */
  lemma RankPut(s: Sys, i: nat, s': Sys, stage: Stage)
    requires i < |s.agents| && s'.agents == s.Put(i, stage).agents
    requires var a := s.agents[i]; var b := a.(stage := stage);
      var q := Rank(Weight(Unreleased, b, s.word), Weight(Unacquired, b, s.word),
        Weight(Tries, b, s.word) + 2 * (s'.rsema + s'.wsema), Weight(Loads, b, s.word));
      var r := Rank(Weight(Unreleased, a, s.word), Weight(Unacquired, a, s.word),
        Weight(Tries, a, s.word) + 2 * (s.rsema + s.wsema), Weight(Loads, a, s.word));
      Below(q, r) && (s'.word != s.word ==>
        q.unreleased < r.unreleased || q.unacquired < r.unacquired || q.tries < r.tries)
    ensures Below(RankOf(s'), RankOf(s))
  {
    TotalPut(Unreleased, s, i, stage, s.word);
    TotalPut(Unacquired, s, i, stage, s.word);
    TotalPut(Tries, s, i, stage, s.word);
    TotalPut(Loads, s, i, stage, s.word);
    WordIrrelevant(Unreleased, s'.agents, s.word, s'.word);
    WordIrrelevant(Unacquired, s'.agents, s.word, s'.word);
    WordIrrelevant(Tries, s'.agents, s.word, s'.word);
  }

  function AllOwed(was: nat): nat { Owed(was, true) + Owed(was, false) }

  /** A closer with wake-ups left gives one; without, it holds its reference. */
  lemma WakingActs(s: Sys, i: nat)
    requires Inv(s) && i < |s.agents| && s.agents[i].stage.Waking?
    ensures Act(s, i).Next?
    ensures var was, s' := s.agents[i].stage.was, Act(s, i).s; var stage := s'.agents[i].stage;
      && s' == s.(rsema := s'.rsema, wsema := s'.wsema).Put(i, stage)
      && if AllOwed(was) == 0 then stage == Held && s'.rsema + s'.wsema == s.rsema + s.wsema
         else stage.Waking? && AllOwed(stage.was) == AllOwed(was) - 1 && s'.rsema + s'.wsema == s.rsema + s.wsema + 1
  {
    var f :| InvAt(s, f);
    assert AgentOk(s.agents[i], f.closed);
    var g: Fields :| Was(s.agents[i].stage.was, g);
    MaskLock(g, true);
    MaskLock(g, false);
    OwedIs(g, true);
    OwedIs(g, false);
    if g.rwait > 0 || g.wwait > 0 { OneFewer(g, g.rwait > 0); }
  }

  /** Every action brings the rank down: as long as nobody arrives, only finitely many can follow. */
  lemma StepDescends(s: Sys, i: nat)
    requires Inv(s) && i < |s.agents| && Act(s, i).Next?
    ensures Below(RankOf(Act(s, i).s), RankOf(s))
  {
    var a, s' := s.agents[i], Act(s, i).s;
    if a.stage.Waking? { WakingActs(s, i); }
    RankPut(s, i, s', s'.agents[i].stage);
  }

  ghost predicate Stopped(s: Sys) { forall i :: 0 <= i < |s.agents| ==> !Act(s, i).Next? }

  ghost predicate Returned(s: Sys) {
    forall i :: 0 <= i < |s.agents| ==> s.agents[i].stage.Refused? || s.agents[i].stage.Done?
  }

  /** Some goroutine acts, if any can. */
  ghost predicate Follows(s: Sys, s': Sys) {
    if Stopped(s) then s' == s else exists i :: 0 <= i < |s.agents| && Act(s, i) == Next(s')
  }

  /** Goroutines act in any order whatever, without new arrivals, until none can act. */
  ghost predicate Schedule(run: nat -> Sys) { forall k: nat :: Follows(run(k), run(k + 1)) }

  /** In every schedule, from any point of any run, all goroutines return. */
  lemma {:induction false} AllReturn(run: nat -> Sys, k: nat) returns (m: nat)
    requires Schedule(run) && Inv(run(k))
    ensures m >= k && Returned(run(m)) && Inv(run(m))
    decreases RankOf(run(k)).unreleased, RankOf(run(k)).unacquired, RankOf(run(k)).tries, RankOf(run(k)).loads
  {
    var s := run(k);
    if Stopped(s) {
      m := k;
      forall i | 0 <= i < |s.agents| ensures s.agents[i].stage.Refused? || s.agents[i].stage.Done? {
        if !s.agents[i].stage.Refused? && !s.agents[i].stage.Done? { var j := Progress(s, i); }
      }
    } else {
      assert Follows(s, run(k + 1));
      var i :| 0 <= i < |s.agents| && Act(s, i) == Next(run(k + 1));
      StepKeepsInv(s, i);
      StepDescends(s, i);
      m := AllReturn(run, k + 1);
    }
  }
}
