/** Compiled regular-expression programs, what a run of one may do, and which
    match a search has to report (src/regexp/syntax/prog.go, src/regexp/exec.go). */
module RegexpProg {
  import opened Search

  const END_OF_TEXT: int := -1
  const NEWLINE: int := 10

  /** Zero-width assertions; an EmptyOp, a bit mask in the source, is the set of its bits. */
  datatype Assertion = BeginLine | EndLine | BeginText | EndText | WordBoundary | NoWordBoundary
  type EmptyOp = set<Assertion>

  /** InstRune carries the set of runes it accepts. */
  datatype Inst =
    | Alt(out: nat, arg: nat)
    | Capture(out: nat, reg: nat)
    | EmptyWidth(out: nat, cond: EmptyOp)
    | Match
    | Fail
    | Nop(out: nat)
    | Rune(out: nat, accepts: set<nat>)
    | Rune1(out: nat, rune: nat)
    | RuneAny(out: nat)
    | RuneAnyNotNL(out: nat)

  datatype Prog = Prog(insts: seq<Inst>, start: nat)

  /** What every program the compiler emits satisfies: instruction 0 is InstFail,
      targets are in range, registers 0 and 1 belong to the machine. */
  ghost predicate WellFormed(p: Prog) {
    && p.start < |p.insts|
    && p.insts[0].Fail?
    && forall i :: 0 <= i < |p.insts| ==> InstOk(p.insts[i], |p.insts|)
  }

  predicate InstOk(inst: Inst, n: nat) {
    match inst
    case Alt(out, arg) => out < n && arg < n
    case Capture(out, reg) => out < n && reg >= 2
    case Match => true
    case Fail => true
    case _ => inst.out < n
  }

  /** The input, as runes; positions count runes. */
  type Text = seq<nat>

  function StepRune(text: Text, pos: nat): int { if pos < |text| then text[pos] else END_OF_TEXT }

  function StepWidth(text: Text, pos: nat): nat { if pos < |text| then 1 else 0 }

  predicate IsWordChar(r: int) {
    'A' as int <= r <= 'Z' as int || 'a' as int <= r <= 'z' as int || '0' as int <= r <= '9' as int || r == '_' as int
  }

  /** The assertions satisfied between runes r1 and r2, where -1 stands for no rune. */
  function EmptyOpContext(r1: int, r2: int): EmptyOp {
    (if IsWordChar(r1) then {}
     else if r1 == NEWLINE then {BeginLine}
     else if r1 < 0 then {BeginText, BeginLine}
     else {}) +
    (if IsWordChar(r2) then {}
     else if r2 == NEWLINE then {EndLine}
     else if r2 < 0 then {EndText, EndLine}
     else {}) +
    (if IsWordChar(r1) != IsWordChar(r2) then {WordBoundary} else {NoWordBoundary})
  }

  predicate Satisfied(cond: EmptyOp, flags: EmptyOp) { cond <= flags }

  // -------------------------------------------------------------------- meaning

  /** The rune at i is a letter, a digit or an underscore, of ASCII; there is none beyond the ends. */
  predicate WordAt(text: Text, i: int) {
    0 <= i < |text| && (48 <= text[i] <= 57 || 65 <= text[i] <= 90 || text[i] == 95 || 97 <= text[i] <= 122)
  }

  /** When an assertion holds at a position, between the runes before and behind it. */
  predicate Holds(a: Assertion, text: Text, pos: nat)
    requires pos <= |text|
  {
    match a
    case BeginText => pos == 0
    case EndText => pos == |text|
    case BeginLine => pos == 0 || text[pos - 1] == 10
    case EndLine => pos == |text| || text[pos] == 10
    case WordBoundary => WordAt(text, pos - 1) != WordAt(text, pos)
    case NoWordBoundary => WordAt(text, pos - 1) == WordAt(text, pos)
  }

  /** The assertions that hold. */
  ghost function Context(text: Text, pos: nat): EmptyOp {
    if pos <= |text| then set a: Assertion | Holds(a, text, pos) else {}
  }

  /** What the engines compute from the two runes is that. */
  lemma EmptyOpContextIs(text: Text, pos: nat)
    requires pos <= |text|
    ensures EmptyOpContext(if pos > 0 then text[pos - 1] else END_OF_TEXT, StepRune(text, pos)) == Context(text, pos)
  {
    var r1, r2 := if pos > 0 then text[pos - 1] else END_OF_TEXT, StepRune(text, pos);
    assert IsWordChar(r1) == WordAt(text, pos - 1) && IsWordChar(r2) == WordAt(text, pos);
    forall a: Assertion ensures a in EmptyOpContext(r1, r2) <==> a in Context(text, pos) {}
  }

  /** The context of an input at a position. */
  function ContextAt(text: Text, pos: nat): (r: EmptyOp)
    requires pos <= |text|
    ensures r == Context(text, pos)
  {
    EmptyOpContextIs(text, pos);
    EmptyOpContext(if pos > 0 then text[pos - 1] else END_OF_TEXT, StepRune(text, pos))
  }

  /** A point of a run: the instruction about to execute and the position in the input. */
  datatype Config = Config(pc: nat, pos: nat)

  ghost predicate InRange(p: Prog, text: Text, c: Config) { c.pc < |p.insts| && c.pos <= |text| }

  /** Whether a rune instruction consumes r. */
  predicate Consumes(inst: Inst, r: nat) {
    match inst
    case Rune(_, accepts) => r in accepts
    case Rune1(_, rune) => r == rune
    case RuneAny(_) => true
    case RuneAnyNotNL(_) => r != NEWLINE
    case _ => false
  }

  /** The configurations that may follow c, the preferred one first. */
  ghost function Successors(p: Prog, text: Text, c: Config): seq<Config>
    requires c.pc < |p.insts|
  {
    match p.insts[c.pc]
    case Alt(out, arg) => [Config(out, c.pos), Config(arg, c.pos)]
    case Capture(out, _) => [Config(out, c.pos)]
    case Nop(out) => [Config(out, c.pos)]
    case EmptyWidth(out, cond) => if cond <= Context(text, c.pos) then [Config(out, c.pos)] else []
    case Match => []
    case Fail => []
    case _ =>
      if c.pos < |text| && Consumes(p.insts[c.pc], text[c.pos])
      then [Config(p.insts[c.pc].out, c.pos + 1)] else []
  }

  /** Positions 0..end of one instruction. */
  ghost function Row(pc: nat, end: nat): set<Config> {
    {Config(pc, end)} + if end == 0 then {} else Row(pc, end - 1)
  }

  ghost function Table(n: nat, end: nat): set<Config> {
    if n == 0 then {} else Row(n - 1, end) + Table(n - 1, end)
  }

  /** All configurations of a run on text, each with its successors. */
  ghost function Runs(p: Prog, text: Text): Graph<Config> {
    TableRange(|p.insts|, |text|);
    map c | c in Table(|p.insts|, |text|) :: Successors(p, text, c)
  }

  lemma {:induction false} RowMembers(pc: nat, end: nat)
    ensures forall c :: c in Row(pc, end) <==> c.pc == pc && c.pos <= end
    ensures |Row(pc, end)| == end + 1
  {
    if end > 0 { RowMembers(pc, end - 1); }
  }

  lemma {:induction false} TableRange(n: nat, end: nat)
    ensures forall c :: c in Table(n, end) <==> c.pc < n && c.pos <= end
  {
    if n > 0 { TableRange(n - 1, end); RowMembers(n - 1, end); }
  }

  predicate IsMatch(p: Prog, c: Config) { c.pc < |p.insts| && p.insts[c.pc].Match? }

  predicate IsFail(p: Prog, c: Config) { c.pc < |p.insts| && p.insts[c.pc].Fail? }

  ghost function Matches(p: Prog, text: Text): set<Config> {
    set c | c in Runs(p, text) && IsMatch(p, c)
  }

  ghost function MatchesAt(p: Prog, text: Text, e: nat): set<Config> {
    set c | c in Runs(p, text) && IsMatch(p, c) && c.pos == e
  }

  ghost function Fails(p: Prog, text: Text): set<Config> {
    set c | c in Runs(p, text) && IsFail(p, c)
  }

  // ------------------------------------------------------------ what to report

  function StartTrail(p: Prog, s: nat): Trail<Config> { Trail([], Config(p.start, s)) }

  /** One pending trail for each start position from lo up to hi, exclusive. */
  ghost function StartTrails(p: Prog, lo: nat, hi: nat): seq<Trail<Config>>
    requires lo <= hi
  {
    seq(hi - lo, i requires 0 <= i < hi - lo => StartTrail(p, lo + i))
  }

  /** The first path to T that backtracking finds, trying start positions from left to right. */
  ghost function Leftmost(p: Prog, text: Text, T: set<Config>, pos: nat): Option<seq<Config>>
    requires pos <= |text|
  {
    FirstNaive(Runs(p, text), T, StartTrails(p, pos, |text| + 1))
  }

  /** The last position at or before e at which a match starting at s can end. */
  ghost function LongestEnd(p: Prog, text: Text, s: nat, e: nat): nat {
    if e == 0 || Naive(Runs(p, text), MatchesAt(p, text, e), {}, Config(p.start, s)).Some? then e
    else LongestEnd(p, text, s, e - 1)
  }

  /** The path a search from pos has to report: leftmost-first, or leftmost-longest
      with ties broken as backtracking would. */
  ghost function Wanted(p: Prog, text: Text, longest: bool, pos: nat): Option<seq<Config>>
    requires pos <= |text|
  {
    var first := Leftmost(p, text, Matches(p, text), pos);
    if first.None? || !longest || first.value == [] then first
    else
      var s := first.value[0].pos;
      FirstNaive(Runs(p, text), MatchesAt(p, text, LongestEnd(p, text, s, |text|)), [StartTrail(p, s)])
  }

  /** The registers after running along path from start position s. */
  ghost function Registers(p: Prog, ncap: nat, s: nat, path: seq<Config>): (r: seq<int>)
    ensures |r| == ncap
  {
    if path == [] then seq(ncap, i => if i == 0 then s else -1)
    else
      var r := Registers(p, ncap, s, path[..|path| - 1]);
      var c := path[|path| - 1];
      if c.pc < |p.insts| && p.insts[c.pc].Capture? && p.insts[c.pc].reg < ncap then r[p.insts[c.pc].reg := c.pos]
        else r
  }

  lemma RegistersStep(p: Prog, ncap: nat, s: nat, t: Trail<Config>)
    requires t.node.pc < |p.insts|
    ensures Registers(p, ncap, s, t.Path()) ==
      if p.insts[t.node.pc].Capture? && p.insts[t.node.pc].reg < ncap
      then Registers(p, ncap, s, t.prefix)[p.insts[t.node.pc].reg := t.node.pos]
      else Registers(p, ncap, s, t.prefix)
  {
    assert t.Path()[..|t.Path()| - 1] == t.prefix;
  }

  /** The submatches reported for an accepting path. */
  ghost function Report(p: Prog, ncap: nat, path: seq<Config>): (r: seq<int>)
    requires path != []
    ensures |r| == ncap
  {
    var r := Registers(p, ncap, path[0].pos, path);
    if ncap > 1 then r[1 := path[|path| - 1].pos] else r
  }

  lemma RunsDomain(p: Prog, text: Text)
    ensures forall c :: c in Runs(p, text) <==> InRange(p, text, c)
    ensures forall c :: InRange(p, text, c) ==> Runs(p, text)[c] == Successors(p, text, c)
  {
    TableRange(|p.insts|, |text|);
  }

  // ------------------------------------------------------------ leading conditions

  /** The zero-width conditions every match has to satisfy at its start: None when no match
      is possible. The outer None stands for a program whose leading instructions form a
      cycle, on which the source's loop would not end; fuel bounds the chain by its length. */
  function StartCondFrom(p: Prog, pc: nat, flag: EmptyOp, fuel: nat): Option<Option<EmptyOp>>
    requires pc < |p.insts| && forall i :: 0 <= i < |p.insts| ==> InstOk(p.insts[i], |p.insts|)
    decreases fuel
  {
    if fuel == 0 then None
    else
      var inst := p.insts[pc];
      assert InstOk(inst, |p.insts|);
      match inst
      case EmptyWidth(out, cond) => StartCondFrom(p, out, flag + cond, fuel - 1)
      case Fail => Some(None)
      case Capture(out, _) => StartCondFrom(p, out, flag, fuel - 1)
      case Nop(out) => StartCondFrom(p, out, flag, fuel - 1)
      case _ => Some(Some(flag))
  }

  function StartCond(p: Prog): Option<Option<EmptyOp>>
    requires WellFormed(p)
  {
    StartCondFrom(p, p.start, {}, |p.insts| + 1)
  }

  /** A start position that leads to a match satisfies every leading condition. */
  lemma {:induction false} StartCondSound(p: Prog, text: Text, pc: nat, s: nat, flag: EmptyOp, fuel: nat,
      q: seq<Config>)
    requires WellFormed(p) && pc < |p.insts|
    requires Leads(Runs(p, text), Matches(p, text), Config(pc, s), q)
    requires StartCondFrom(p, pc, flag, fuel).Some? && flag <= Context(text, s)
    ensures var cond := StartCondFrom(p, pc, flag, fuel).value; cond.Some? && cond.value <= Context(text, s)
    decreases fuel
  {
    RunsDomain(p, text);
    var inst := p.insts[pc];
    assert InstOk(inst, |p.insts|);
    if inst.EmptyWidth? || inst.Capture? || inst.Nop? {
      assert |q| > 1;
      assert q[1] == Config(inst.out, s);
      StartCondSound(p, text, inst.out, s, if inst.EmptyWidth? then flag + inst.cond else flag, fuel - 1, q[1..]);
    }
  }
}
