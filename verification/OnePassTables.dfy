/** What the one-pass check of src/regexp/onepass.go computes of every instruction, and what it
    stands for: the runes that may come next and whether a match may come before any. */
module OnePassTables {
  import opened Search
  import opened RegexpProg
  import opened OnePass

  const MAX_RUNE := 0x10FFFF

  // ----------------------------------------------------- what an instruction leads to

  predicate IsRune(inst: Inst) { inst.Rune? || inst.Rune1? || inst.RuneAny? || inst.RuneAnyNotNL? }

  /** Instructions with one successor that consume nothing. */
  predicate IsStraight(inst: Inst) { inst.Capture? || inst.Nop? || inst.EmptyWidth? }

  /** The set of a rune instruction as pairs; for InstRune, case folding included, it is given. */
  function RuneSet(inst: Inst, given: seq<int>): seq<int> {
    match inst
    case Rune(_, _) => given
    case Rune1(_, rune) => [rune, rune]
    case RuneAny(_) => [0, MAX_RUNE]
    case RuneAnyNotNL(_) => [0, NEWLINE - 1, NEWLINE + 1, MAX_RUNE]
    case _ => []
  }

  /** Ordered pairs of runes. */
  predicate IsSet(runes: seq<int>) { Ordered(runes) && forall i :: 0 <= i < |runes| ==> runes[i] >= 0 }

  ghost predicate Given(p: Prog, given: seq<seq<int>>) {
    && |given| == |p.insts|
    && forall pc :: 0 <= pc < |p.insts| && p.insts[pc].Rune? ==>
         IsSet(given[pc]) && forall r: nat :: Covers(given[pc], r) <==> r in p.insts[pc].accepts
  }

  predicate Targets(p: Prog) { forall pc :: 0 <= pc < |p.insts| ==> InstOk(p.insts[pc], |p.insts|) }

  /** Within n instructions after empty transitions, whatever their conditions, comes one that consumes r. */
  ghost predicate BeginsIn(p: Prog, given: seq<seq<int>>, pc: nat, r: int, n: nat)
    decreases n
  {
    n > 0 && pc < |p.insts| && pc < |given| &&
    var inst := p.insts[pc];
    if inst.Alt? then BeginsIn(p, given, inst.out, r, n - 1) || BeginsIn(p, given, inst.arg, r, n - 1)
    else if IsStraight(inst) then BeginsIn(p, given, inst.out, r, n - 1)
    else IsRune(inst) && Covers(RuneSet(inst, given[pc]), r)
  }

  ghost predicate Begins(p: Prog, given: seq<seq<int>>, pc: nat, r: int) {
    exists n: nat :: BeginsIn(p, given, pc, r, n)
  }

  /** Within n instructions after empty transitions comes a match. */
  ghost predicate EndsIn(p: Prog, pc: nat, n: nat)
    decreases n
  {
    n > 0 && pc < |p.insts| &&
    var inst := p.insts[pc];
    if inst.Alt? then EndsIn(p, inst.out, n - 1) || EndsIn(p, inst.arg, n - 1)
    else if IsStraight(inst) then EndsIn(p, inst.out, n - 1)
    else inst.Match?
  }

  ghost predicate Ends(p: Prog, pc: nat) { exists n: nat :: EndsIn(p, pc, n) }

  /** At no alternative can both legs go on with the same rune, or both match. */
  ghost predicate Unambiguous(p: Prog, given: seq<seq<int>>) {
    forall pc :: 0 <= pc < |p.insts| && p.insts[pc].Alt? ==> ClearAt(p, given, pc)
  }

  ghost predicate ClearAt(p: Prog, given: seq<seq<int>>, pc: nat)
    requires pc < |p.insts| && p.insts[pc].Alt?
  {
    && (forall r :: !(Begins(p, given, p.insts[pc].out, r) && Begins(p, given, p.insts[pc].arg, r)))
    && !(Ends(p, p.insts[pc].out) && Ends(p, p.insts[pc].arg))
  }

  // ---------------------------------------------------------------------- the tables

  /** An instruction of the one-pass program: its legs, which may have been exchanged, whether it
      has become an InstAltMatch, and where each pair of its set leads. */
  datatype Cell = Cell(out: nat, arg: nat, altMatch: bool, next: seq<nat>)

  /** The cells, onePassRunes and the map of what may match without input. */
  datatype Tables = Tables(cells: seq<Cell>, runes: seq<seq<int>>, m: map<nat, bool>)

  predicate Yes(m: map<nat, bool>, pc: nat) { pc in m && m[pc] }

  function Other(inst: Inst): nat { if inst.Alt? then inst.arg else 0 }

  function Out(inst: Inst): nat { if inst.Match? || inst.Fail? then 0 else inst.out }

  function NewTables(p: Prog): Tables {
    Tables(seq(|p.insts|, i requires 0 <= i < |p.insts| => Cell(Out(p.insts[i]), Other(p.insts[i]), false, [])),
      seq(|p.insts|, _ => []), map[])
  }

  ghost predicate CellOk(inst: Inst, cell: Cell) {
    || (cell.out == Out(inst) && cell.arg == Other(inst))
    || (inst.Alt? && cell.out == inst.arg && cell.arg == inst.out)
  }

  ghost predicate Shaped(p: Prog, given: seq<seq<int>>, t: Tables) {
    && |t.cells| == |t.runes| == |p.insts| && (forall pc :: pc in t.m ==> pc < |p.insts|)
    && forall pc :: 0 <= pc < |p.insts| ==> ShapedAt(p, given, t, pc)
  }

  ghost predicate ShapedAt(p: Prog, given: seq<seq<int>>, t: Tables, pc: nat)
    requires |t.cells| == |t.runes| == |p.insts| && pc < |p.insts|
  {
    && CellOk(p.insts[pc], t.cells[pc]) && IsSet(t.runes[pc])
    && (p.insts[pc].Alt? ==> (t.cells[pc].altMatch <==> Yes(t.m, pc)))
    && (IsRune(p.insts[pc]) && t.cells[pc].next != [] && pc < |given| ==>
      t.runes[pc] == RuneSet(p.insts[pc], given[pc]))
  }

  /** Each pair of an alternative leads to one of its legs. */
  ghost predicate LegsOk(p: Prog, t: Tables) {
    |t.cells| == |t.runes| == |p.insts| && forall pc :: 0 <= pc < |p.insts| && p.insts[pc].Alt? ==> LegsAt(p, t, pc)
  }

  ghost predicate LegsAt(p: Prog, t: Tables, pc: nat)
    requires |t.cells| == |t.runes| == |p.insts| && pc < |p.insts|
  {
    && |t.cells[pc].next| == Pairs(t.runes[pc])
    && forall k :: 0 <= k < |t.cells[pc].next| ==> t.cells[pc].next[k] in {t.cells[pc].out, t.cells[pc].arg}
  }

  /** Whatever is in the tables is true of the program. */
  ghost predicate Sound(p: Prog, given: seq<seq<int>>, t: Tables) {
    |t.runes| == |p.insts| && forall pc :: 0 <= pc < |p.insts| ==> SoundAt(p, given, t, pc)
  }

  ghost predicate SoundAt(p: Prog, given: seq<seq<int>>, t: Tables, pc: nat)
    requires pc < |t.runes|
  {
    (forall r :: Covers(t.runes[pc], r) ==> Begins(p, given, pc, r)) && (Yes(t.m, pc) ==> Ends(p, pc))
  }

  /** Every pair of an alternative leads to a leg that begins with its runes, and the first leg of
      an InstAltMatch matches without input. */
  ghost predicate Apt(p: Prog, given: seq<seq<int>>, t: Tables, pc: nat)
    requires pc < |t.cells| && pc < |t.runes| && pc < |p.insts|
  {
    p.insts[pc].Alt? ==>
      && (forall k: nat, r :: k < |t.cells[pc].next| && k < Pairs(t.runes[pc]) && InPair(t.runes[pc], k, r) ==>
            Begins(p, given, t.cells[pc].next[k], r))
      && (Yes(t.m, pc) ==> Ends(p, t.cells[pc].out))
  }

  /** The entry of pc in t' is what the entries of its successors in t call for. */
  ghost predicate Combines(p: Prog, given: seq<seq<int>>, t: Tables, t': Tables, pc: nat) {
    && |t'.cells| == |t'.runes| == |t.runes| == |p.insts| == |given| && pc < |p.insts|
    && InstOk(p.insts[pc], |p.insts|) && CellOk(p.insts[pc], t'.cells[pc])
    && var inst, c := p.insts[pc], t'.cells[pc];
       if inst.Alt? then
         && IsUnion(t.runes[c.out], t.runes[c.arg], c.out, c.arg, t'.runes[pc], c.next)
         && Disjoint(t.runes[c.out], t.runes[c.arg])
         && !Yes(t.m, c.arg) && (Yes(t.m, c.out) ==> Yes(t'.m, pc))
         && (c.altMatch <==> Yes(t'.m, pc))
       else if IsStraight(inst) then
         t'.runes[pc] == t.runes[inst.out] && (Yes(t'.m, pc) <==> Yes(t.m, inst.out))
       else (inst.Match? ==> Yes(t'.m, pc)) && (IsRune(inst) ==> t'.runes[pc] == RuneSet(inst, given[pc]))
  }

  ghost predicate SettledAt(p: Prog, given: seq<seq<int>>, t: Tables, pc: nat) { Combines(p, given, t, t, pc) }

  predicate Follows(p: Prog, pc: nat, x: nat) {
    pc < |p.insts| && !p.insts[pc].Match? && !p.insts[pc].Fail? &&
    (x == p.insts[pc].out || (p.insts[pc].Alt? && x == p.insts[pc].arg))
  }

  /** What comes behind an empty transition comes in front of it. */
  lemma AheadOne(p: Prog, given: seq<seq<int>>, pc: nat, x: nat, r: int)
    requires pc < |p.insts| == |given| && !IsRune(p.insts[pc]) && Follows(p, pc, x)
    ensures Begins(p, given, x, r) ==> Begins(p, given, pc, r)
    ensures Ends(p, x) ==> Ends(p, pc)
  {
    if n: nat :| BeginsIn(p, given, x, r, n) { assert BeginsIn(p, given, pc, r, n + 1); }
    if n: nat :| EndsIn(p, x, n) { assert EndsIn(p, pc, n + 1); }
  }

  /** S holds what its elements lead to. */
  ghost predicate Closed(p: Prog, S: set<nat>) { forall pc, x :: pc in S && Follows(p, pc, x) ==> x in S }

  /** The rune instructions the program can come to have been visited. */
  ghost predicate Filled(p: Prog, given: seq<seq<int>>, t: Tables, S: set<nat>) {
    && |given| == |t.runes| == |p.insts| && p.start in S && Closed(p, S)
    && forall pc :: pc in S && pc < |p.insts| && p.insts[pc].Rune? ==> t.runes[pc] == RuneSet(p.insts[pc], given[pc])
  }

  /** The tables agree with themselves on all that the program can come to. */
  ghost predicate SettledOn(p: Prog, given: seq<seq<int>>, t: Tables, S: set<nat>) {
    p.start in S && Closed(p, S) && forall pc :: pc in S ==> SettledAt(p, given, t, pc)
  }

  ghost predicate Settled(p: Prog, given: seq<seq<int>>, t: Tables) { exists S :: SettledOn(p, given, t, S) }

  // --------------------------------------------------------- settled tables are complete

  lemma {:induction false} CoversBegins(p: Prog, given: seq<seq<int>>, t: Tables, S: set<nat>, pc: nat, r: int, n: nat)
    requires SettledOn(p, given, t, S) && pc in S && BeginsIn(p, given, pc, r, n)
    ensures pc < |t.runes| && Covers(t.runes[pc], r)
    decreases n
  {
    assert SettledAt(p, given, t, pc);
    var inst := p.insts[pc];
    if inst.Alt? {
      assert Follows(p, pc, inst.out) && Follows(p, pc, inst.arg);
      var leg := if BeginsIn(p, given, inst.out, r, n - 1) then inst.out else inst.arg;
      CoversBegins(p, given, t, S, leg, r, n - 1);
    } else if IsStraight(inst) {
      assert Follows(p, pc, inst.out);
      CoversBegins(p, given, t, S, inst.out, r, n - 1);
    }
  }

  lemma {:induction false} YesEnds(p: Prog, given: seq<seq<int>>, t: Tables, S: set<nat>, pc: nat, n: nat)
    requires SettledOn(p, given, t, S) && pc in S && EndsIn(p, pc, n)
    ensures Yes(t.m, pc)
    decreases n
  {
    assert SettledAt(p, given, t, pc);
    var inst := p.insts[pc];
    if inst.Alt? {
      assert Follows(p, pc, inst.out) && Follows(p, pc, inst.arg);
      YesEnds(p, given, t, S, if EndsIn(p, inst.out, n - 1) then inst.out else inst.arg, n - 1);
    } else if IsStraight(inst) {
      assert Follows(p, pc, inst.out);
      YesEnds(p, given, t, S, inst.out, n - 1);
    }
  }

  /** Settled tables say exactly what is true. */
  lemma TablesExact(p: Prog, given: seq<seq<int>>, t: Tables, S: set<nat>, pc: nat, r: int)
    requires SettledOn(p, given, t, S) && Sound(p, given, t) && pc in S
    ensures pc < |t.runes| && (Covers(t.runes[pc], r) <==> Begins(p, given, pc, r))
    ensures Yes(t.m, pc) <==> Ends(p, pc)
  {
    assert SettledAt(p, given, t, pc);
    assert SoundAt(p, given, t, pc);
    if n: nat :| BeginsIn(p, given, pc, r, n) { CoversBegins(p, given, t, S, pc, r, n); }
    if n: nat :| EndsIn(p, pc, n) { YesEnds(p, given, t, S, pc, n); }
  }

  /** An alternative with settled tables is not ambiguous. */
  lemma SettledIsClear(p: Prog, given: seq<seq<int>>, t: Tables, S: set<nat>, pc: nat)
    requires SettledOn(p, given, t, S) && pc in S && p.insts[pc].Alt?
    ensures ClearAt(p, given, pc)
  {
    assert SettledAt(p, given, t, pc);
    var out, arg := p.insts[pc].out, p.insts[pc].arg;
    assert Follows(p, pc, out) && Follows(p, pc, arg);
    forall r ensures !(Begins(p, given, out, r) && Begins(p, given, arg, r)) {
      if Begins(p, given, out, r) && Begins(p, given, arg, r) {
        var j: nat :| BeginsIn(p, given, out, r, j);
        var k: nat :| BeginsIn(p, given, arg, r, k);
        CoversBegins(p, given, t, S, out, r, j);
        CoversBegins(p, given, t, S, arg, r, k);
      }
    }
    if Ends(p, out) && Ends(p, arg) {
      var j: nat :| EndsIn(p, out, j);
      var k: nat :| EndsIn(p, arg, k);
      YesEnds(p, given, t, S, out, j);
      YesEnds(p, given, t, S, arg, k);
    }
  }
}
