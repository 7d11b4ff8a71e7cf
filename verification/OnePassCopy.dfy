/** The rewrites onePassCopy makes while copying a program (src/regexp/onepass.go:219-280):
    short-cutting alternatives that lead back to each other, without changing what they reach. */
module OnePassCopy {
  import opened Search
  import opened RegexpProg

  // ------------------------------------------------------------------ alternatives

  /** A pointer into an InstAlt. */
  datatype Leg = Out | Arg

  function Get(inst: Inst, leg: Leg): nat
    requires inst.Alt?
  {
    if leg.Out? then inst.out else inst.arg
  }

  function Put(inst: Inst, leg: Leg, pc: nat): Inst
    requires inst.Alt?
  {
    if leg.Out? then Alt(pc, inst.arg) else Alt(inst.out, pc)
  }

  predicate Closed(insts: seq<Inst>) { forall i :: 0 <= i < |insts| ==> InstOk(insts[i], |insts|) }

  predicate IsAlt(insts: seq<Inst>, x: nat) { x < |insts| && insts[x].Alt? }

  /** y is a leg of the InstAlt at x. */
  predicate Edge(insts: seq<Inst>, x: nat, y: nat) { IsAlt(insts, x) && (insts[x].out == y || insts[x].arg == y) }

  ghost predicate AltPath(insts: seq<Inst>, q: seq<nat>) {
    forall i :: 0 <= i < |q| - 1 ==> Edge(insts, q[i], q[i + 1])
  }

  ghost predicate AltPathBetween(insts: seq<Inst>, x: nat, y: nat, q: seq<nat>) {
    q != [] && q[0] == x && q[|q| - 1] == y && AltPath(insts, q)
  }

  /** Alternatives lead from x to y, in any number of steps. */
  ghost predicate Connects(insts: seq<Inst>, x: nat, y: nat) { exists q :: AltPathBetween(insts, x, y, q) }

  /** Both programs have the same instructions, but for the legs of InstAlts, and from every
      instruction the same other instructions can be reached through InstAlts. */
  ghost predicate SameMeaning(a: seq<Inst>, b: seq<Inst>) { SameButLegs(a, b) && SameReach(a, b) }

  ghost predicate SameButLegs(a: seq<Inst>, b: seq<Inst>) {
    |a| == |b| && forall i :: 0 <= i < |a| ==> a[i] == b[i] || (a[i].Alt? && b[i].Alt?)
  }

  ghost predicate SameReach(a: seq<Inst>, b: seq<Inst>) {
    forall x, e :: !IsAlt(a, e) ==> (Connects(a, x, e) <==> Connects(b, x, e))
  }

  lemma Stay(insts: seq<Inst>, x: nat)
    ensures Connects(insts, x, x)
  {
    assert AltPathBetween(insts, x, x, [x]);
  }

  lemma OneStep(insts: seq<Inst>, x: nat, y: nat)
    requires Edge(insts, x, y)
    ensures Connects(insts, x, y)
  {
    assert AltPathBetween(insts, x, y, [x, y]);
  }

  lemma Joined(insts: seq<Inst>, x: nat, y: nat, z: nat)
    requires Connects(insts, x, y) && Connects(insts, y, z)
    ensures Connects(insts, x, z)
  {
    var p :| AltPathBetween(insts, x, y, p);
    var q :| AltPathBetween(insts, y, z, q);
    var r := p + q[1..];
    forall i | 0 <= i < |r| - 1 ensures Edge(insts, r[i], r[i + 1]) {
      if i < |p| - 1 {
        assert Edge(insts, p[i], p[i + 1]);
      } else {
        assert Edge(insts, q[i + 1 - |p|], q[i + 2 - |p|]);
      }
    }
    assert AltPathBetween(insts, x, z, r);
  }

  lemma FirstStep(insts: seq<Inst>, x: nat, z: nat) returns (y: nat)
    requires Connects(insts, x, z) && x != z
    ensures Edge(insts, x, y) && Connects(insts, y, z)
  {
    var q :| AltPathBetween(insts, x, z, q);
    y := q[1];
    assert Edge(insts, q[0], q[1]);
    assert AltPathBetween(insts, y, z, q[1..]) by {
      forall i | 0 <= i < |q[1..]| - 1 ensures Edge(insts, q[1..][i], q[1..][i + 1]) {
        assert Edge(insts, q[i + 1], q[i + 2]);
      }
    }
  }

  // ----------------------------------------------- two ways of comparing alternatives

  /** Every edge of a can be made up of edges of b. */
  ghost predicate Imitates(a: seq<Inst>, b: seq<Inst>) { forall x, y :: Edge(a, x, y) ==> Connects(b, x, y) }

  lemma {:induction false} ImitatedPath(a: seq<Inst>, b: seq<Inst>, x: nat, y: nat, q: seq<nat>)
    requires Imitates(a, b) && AltPathBetween(a, x, y, q)
    ensures Connects(b, x, y)
    decreases |q|
  {
    if |q| == 1 {
      Stay(b, x);
    } else {
      assert Edge(a, q[0], q[1]);
      assert AltPathBetween(a, q[1], y, q[1..]) by {
        forall i | 0 <= i < |q[1..]| - 1 ensures Edge(a, q[1..][i], q[1..][i + 1]) {
          assert Edge(a, q[i + 1], q[i + 2]);
        }
      }
      ImitatedPath(a, b, q[1], y, q[1..]);
      Joined(b, x, q[1], y);
    }
  }

  /** An edge of a is an edge of b too, or leads to an InstAlt of b whose edges start here as well. */
  ghost predicate Absorbs(a: seq<Inst>, b: seq<Inst>) {
    forall x, y :: Edge(a, x, y) ==> Edge(b, x, y) || Absorbed(b, x, y)
  }

  ghost predicate Absorbed(b: seq<Inst>, x: nat, y: nat) { IsAlt(b, y) && forall z :: Edge(b, y, z) ==> Edge(b, x, z) }

  lemma {:induction false} AbsorbedPath(a: seq<Inst>, b: seq<Inst>, x: nat, e: nat, q: seq<nat>)
    requires Absorbs(a, b) && AltPathBetween(a, x, e, q) && !IsAlt(b, e)
    ensures Connects(b, x, e)
    decreases |q|
  {
    if |q| == 1 {
      Stay(b, x);
    } else {
      assert Edge(a, q[0], q[1]);
      assert AltPathBetween(a, q[1], e, q[1..]) by {
        forall i | 0 <= i < |q[1..]| - 1 ensures Edge(a, q[1..][i], q[1..][i + 1]) {
          assert Edge(a, q[i + 1], q[i + 2]);
        }
      }
      AbsorbedPath(a, b, q[1], e, q[1..]);
      if Edge(b, x, q[1]) {
        OneStep(b, x, q[1]);
        Joined(b, x, q[1], e);
      } else {
        var z := FirstStep(b, q[1], e);
        OneStep(b, x, z);
        Joined(b, x, z, e);
      }
    }
  }

  lemma SameReachBy(a: seq<Inst>, b: seq<Inst>)
    requires SameButLegs(a, b) && Imitates(b, a) && Absorbs(a, b)
    ensures SameReach(a, b)
  {
    forall x, e | !IsAlt(a, e) ensures Connects(a, x, e) <==> Connects(b, x, e) {
      assert !IsAlt(b, e);
      if Connects(a, x, e) {
        var q :| AltPathBetween(a, x, e, q);
        AbsorbedPath(a, b, x, e, q);
      }
      if Connects(b, x, e) {
        var q :| AltPathBetween(b, x, e, q);
        ImitatedPath(b, a, x, e, q);
      }
    }
  }

  // -------------------------------------------------------------------- the rewrites

  function Legs(inst: Inst): set<nat>
    requires inst.Alt?
  {
    {inst.out, inst.arg}
  }

  /** A:BC and B:DA, or B:DC, become A:DC and B:DC. */
  ghost predicate Shortened(a: seq<Inst>, b: seq<Inst>, pc: nat, alt: nat, other: nat, rest: nat) {
    SameButLegs(a, b) && IsAlt(a, pc) && IsAlt(a, alt) && !IsAlt(a, other) &&
    (forall i :: 0 <= i < |a| && i != pc && i != alt ==> b[i] == a[i]) &&
    Legs(a[pc]) == {alt, other} && (Legs(a[alt]) == {rest, pc} || Legs(a[alt]) == {rest, other}) &&
    Legs(b[pc]) == {rest, other} && Legs(b[alt]) == {rest, other}
  }

  lemma ShortenedKeeps(a: seq<Inst>, b: seq<Inst>, pc: nat, alt: nat, other: nat, rest: nat)
    requires Shortened(a, b, pc, alt, other, rest)
    ensures SameMeaning(a, b)
  {
    forall x: nat, y: nat | Edge(b, x, y) ensures Connects(a, x, y) {
      if x == pc || x == alt {
        assert y in Legs(b[x]);
        ShortenedEdge(a, b, pc, alt, other, rest, x, y);
      } else {
        OneStep(a, x, y);
      }
    }
    forall x: nat, y: nat | Edge(a, x, y) ensures Edge(b, x, y) || Absorbed(b, x, y) {
      if x == pc || x == alt {
        assert y in Legs(a[x]);
        SameLegs(b, pc, alt);
      }
    }
    SameReachBy(a, b);
  }

  lemma SameLegs(b: seq<Inst>, x: nat, y: nat)
    requires IsAlt(b, x) && IsAlt(b, y) && Legs(b[x]) == Legs(b[y])
    ensures forall z :: Edge(b, x, z) <==> Edge(b, y, z)
  {
    forall z: nat ensures Edge(b, x, z) <==> Edge(b, y, z) {
      assert z in Legs(b[x]) <==> z in Legs(b[y]);
    }
  }

  lemma ShortenedEdge(a: seq<Inst>, b: seq<Inst>, pc: nat, alt: nat, other: nat, rest: nat, x: nat, y: nat)
    requires Shortened(a, b, pc, alt, other, rest) && (x == pc || x == alt) && (y == rest || y == other)
    ensures Connects(a, x, y)
  {
    assert alt in Legs(a[pc]) && other in Legs(a[pc]) && rest in Legs(a[alt]);
    OneStep(a, pc, alt);
    OneStep(a, pc, other);
    OneStep(a, alt, rest);
    Joined(a, pc, alt, rest);
    if x == alt && y == other {
      if other in Legs(a[alt]) {
        OneStep(a, alt, other);
      } else {
        assert pc in Legs(a[alt]);
        OneStep(a, alt, pc);
        Joined(a, alt, pc, other);
      }
    }
  }

  lemma SameMeaningJoined(a: seq<Inst>, b: seq<Inst>, c: seq<Inst>)
    requires SameMeaning(a, b) && SameMeaning(b, c)
    ensures SameMeaning(a, c)
  {
    forall x, e | !IsAlt(a, e) ensures Connects(a, x, e) <==> Connects(c, x, e) { assert !IsAlt(b, e); }
  }

  function Opposite(leg: Leg): Leg { if leg.Out? then Arg else Out }

  /** The leg of pc that leads to another InstAlt, when just one of them does. */
  function AltLeg(a: seq<Inst>, pc: nat): Option<Leg>
    requires pc < |a| && Closed(a)
  {
    if !a[pc].Alt? then None
    else
      assert InstOk(a[pc], |a|);
      if a[a[pc].arg].Alt? && !a[a[pc].out].Alt? then Some(Arg)
      else if a[a[pc].out].Alt? && !a[a[pc].arg].Alt? then Some(Out)
      else None
  }

  /** A leg of B that leads back to A is bent to where A's other leg leads, and A then leads
      to where B's other leg does; so does A when the first leg of B leads where A's other leg does. */
  function Rewritten(a: seq<Inst>, pc: nat): (b: seq<Inst>)
    requires pc < |a| && Closed(a)
    ensures |b| == |a|
  {
    match AltLeg(a, pc)
    case None => a
    case Some(leg) =>
      assert InstOk(a[pc], |a|);
      var alt, other := Get(a[pc], leg), Get(a[pc], Opposite(leg));
      if a[alt].out == pc || a[alt].arg == pc then
        var back := if a[alt].out == pc then Out else Arg;
        var bent := a[alt := Put(a[alt], back, other)];
        bent[pc := Put(bent[pc], leg, Get(a[alt], Opposite(back)))]
      else if a[alt].out == other then a[pc := Put(a[pc], leg, a[alt].arg)]
      else a
  }

  lemma RewrittenKeeps(a: seq<Inst>, pc: nat)
    requires pc < |a| && Closed(a)
    ensures Closed(Rewritten(a, pc)) && SameMeaning(a, Rewritten(a, pc))
  {
    var b := Rewritten(a, pc);
    if AltLeg(a, pc).Some? {
      var leg := AltLeg(a, pc).value;
      assert InstOk(a[pc], |a|);
      var alt, other := Get(a[pc], leg), Get(a[pc], Opposite(leg));
      assert InstOk(a[alt], |a|);
      RewrittenCloses(a, b);
      if a[alt].out == pc || a[alt].arg == pc {
        ShortenedKeeps(a, b, pc, alt, other, Get(a[alt], if a[alt].out == pc then Arg else Out));
      } else if a[alt].out == other {
        ShortenedKeeps(a, b, pc, alt, other, a[alt].arg);
      }
    }
  }

  lemma RewrittenCloses(a: seq<Inst>, b: seq<Inst>)
    requires Closed(a) && |b| == |a|
    requires forall i :: 0 <= i < |a| && b[i] != a[i] ==> b[i].Alt? && b[i].out < |a| && b[i].arg < |a|
    ensures Closed(b)
  {
    forall i | 0 <= i < |b| ensures InstOk(b[i], |b|) { assert InstOk(a[i], |a|); }
  }

  /** The rewrites at pc and after it. */
  function RewrittenFrom(a: seq<Inst>, pc: nat): seq<Inst>
    requires pc <= |a| && Closed(a)
    decreases |a| - pc
  {
    if pc == |a| then a else RewrittenKeeps(a, pc); RewrittenFrom(Rewritten(a, pc), pc + 1)
  }

  /** The turn of onePassCopy's loop at pc. */
  method Rewrite(a: array<Inst>, pc: nat)
    requires pc < a.Length && Closed(a[..])
    modifies a
    ensures a[..] == Rewritten(old(a[..]), pc)
  {
    ghost var was := a[..];
    if !a[pc].Alt? {
      return;
    }
    assert InstOk(was[pc], |was|);
    var other, alt := Out, Arg;
    var instAlt := a[Get(a[pc], alt)];
    if !instAlt.Alt? {
      alt, other := other, alt;
      instAlt := a[Get(a[pc], alt)];
      if !instAlt.Alt? {
        return;
      }
    }
    var instOther := a[Get(a[pc], other)];
    if instOther.Alt? {
      return;
    }
    var b := Get(a[pc], alt);
    var bAlt, bOther := Out, Arg;
    var patch := false;
    if instAlt.out == pc {
      patch := true;
    } else if instAlt.arg == pc {
      patch := true;
      bAlt, bOther := bOther, bAlt;
    }
    if patch {
      a[b] := Put(a[b], bAlt, Get(a[pc], other));
    }
    if Get(a[pc], other) == Get(a[b], bAlt) {
      a[pc] := Put(a[pc], alt, Get(a[b], bOther));
    }
  }

  /** The instructions when the loop has come to pc. */
  ghost predicate RewrittenTo(p: Prog, insts: seq<Inst>, pc: nat) {
    Closed(p.insts) && Closed(insts) && pc <= |insts| == |p.insts| && SameMeaning(p.insts, insts) &&
    RewrittenFrom(insts, pc) == RewrittenFrom(p.insts, 0)
  }

  lemma RewrittenNext(p: Prog, insts: seq<Inst>, pc: nat)
    requires RewrittenTo(p, insts, pc) && pc < |insts|
    ensures RewrittenTo(p, Rewritten(insts, pc), pc + 1)
  {
    RewrittenKeeps(insts, pc);
    SameMeaningJoined(p.insts, insts, Rewritten(insts, pc));
  }

  /** onePassCopy: a fresh copy with the same meaning. */
  method Copy(p: Prog) returns (a: array<Inst>)
    requires WellFormed(p)
    ensures fresh(a) && a[..] == RewrittenFrom(p.insts, 0)
    ensures Closed(a[..]) && SameMeaning(p.insts, a[..])
  {
    a := new Inst[|p.insts|](i requires 0 <= i < |p.insts| => p.insts[i]);
    assert a[..] == p.insts;
    var pc := 0;
    while pc < a.Length
      invariant pc <= a.Length && RewrittenTo(p, a[..], pc)
    {
      RewrittenNext(p, a[..], pc);
      Rewrite(a, pc);
      pc := pc + 1;
    }
  }

  // -------------------------------------------------------------- what runs can reach

  /** A run from c to an instruction that is not an InstAlt. */
  ghost predicate Run(p: Prog, text: Text, c: Config, d: Config, q: seq<Config>) {
    IsPath(Runs(p, text), q) && q != [] && q[0] == c && q[|q| - 1] == d && !IsAlt(p.insts, d.pc)
  }

  /** The configurations of a run that are not at an InstAlt. */
  ghost function Skeleton(insts: seq<Inst>, q: seq<Config>): seq<Config> {
    if q == [] then [] else (if IsAlt(insts, q[0].pc) then [] else [q[0]]) + Skeleton(insts, q[1..])
  }

  /** What the first configuration adds. */
  function Bone(insts: seq<Inst>, c: Config): seq<Config> { if IsAlt(insts, c.pc) then [] else [c] }

  lemma SkeletonStep(insts: seq<Inst>, c: Config, q: seq<Config>, r: seq<Config>)
    requires q != [] && q[0] == c && q[1..] == r
    ensures Skeleton(insts, q) == Bone(insts, c) + Skeleton(insts, r)
  {}

  lemma BonesShift(a: seq<Config>, b: seq<Config>, c: seq<Config>)
    ensures a + (b + c) == a + b + c
  {}

  lemma {:induction false} SkeletonJoin(insts: seq<Inst>, q: seq<Config>, r: seq<Config>)
    ensures Skeleton(insts, q + r) == Skeleton(insts, q) + Skeleton(insts, r)
  {
    if q == [] {
      assert q + r == r;
    } else {
      var rest := q[1..];
      SkeletonJoin(insts, rest, r);
      assert (q + r)[1..] == rest + r;
      SkeletonStep(insts, q[0], q + r, rest + r);
      SkeletonStep(insts, q[0], q, rest);
      BonesShift(Bone(insts, q[0]), Skeleton(insts, rest), Skeleton(insts, r));
    }
  }

  lemma SkeletonOfOne(insts: seq<Inst>, c: Config)
    ensures Skeleton(insts, [c]) == if IsAlt(insts, c.pc) then [] else [c]
  {
    assert [c][1..] == [];
    assert Skeleton(insts, []) == [];
  }

  /** Some run from c to d goes through sk and otherwise through alternatives alone. */
  ghost predicate RunsAlong(p: Prog, text: Text, c: Config, d: Config, sk: seq<Config>) {
    exists q :: Run(p, text, c, d, q) && Skeleton(p.insts, q) == sk
  }

  lemma {:induction false} PathsJoin(g: Graph<Config>, p: seq<Config>, q: seq<Config>)
    requires IsPath(g, p) && IsPath(g, q) && p != [] && q != [] && p[|p| - 1] == q[0]
    ensures IsPath(g, p + q[1..])
  {
    if |p| == 1 {
      assert p + q[1..] == q;
    } else {
      PathsJoin(g, p[1..], q);
      assert (p + q[1..])[1..] == p[1..] + q[1..];
    }
  }

  /** Alternatives as steps of a run that stay at their position. */
  lemma {:induction false} AltSteps(p: Prog, text: Text, pos: nat, x: nat, y: nat, q: seq<nat>) returns (r: seq<Config>)
    requires Closed(p.insts) && pos <= |text| && x < |p.insts| && AltPathBetween(p.insts, x, y, q)
    ensures IsPath(Runs(p, text), r) && r != [] && r[0] == Config(x, pos) && r[|r| - 1] == Config(y, pos)
    ensures !IsAlt(p.insts, y) ==> Skeleton(p.insts, r) == [Config(y, pos)]
    decreases |q|
  {
    RunsDomain(p, text);
    if |q| == 1 {
      r := [Config(x, pos)];
      SkeletonOfOne(p.insts, r[0]);
    } else {
      assert Edge(p.insts, q[0], q[1]);
      assert InstOk(p.insts[x], |p.insts|);
      assert AltPathBetween(p.insts, q[1], y, q[1..]) by {
        forall i | 0 <= i < |q[1..]| - 1 ensures Edge(p.insts, q[1..][i], q[1..][i + 1]) {
          assert Edge(p.insts, q[i + 1], q[i + 2]);
        }
      }
      var s := AltSteps(p, text, pos, q[1], y, q[1..]);
      r := [Config(x, pos)] + s;
      assert r[1..] == s;
    }
  }

  /** The first instruction of a run that is not an InstAlt. */
  lemma {:induction false} LeaveAlts(p: Prog, text: Text, c: Config, d: Config, q: seq<Config>) returns (k: nat)
    requires Closed(p.insts) && Run(p, text, c, d, q)
    ensures k < |q| && q[k].pos == c.pos && !IsAlt(p.insts, q[k].pc) && Connects(p.insts, c.pc, q[k].pc)
    ensures Run(p, text, q[k], d, q[k..]) && Skeleton(p.insts, q[k..]) == Skeleton(p.insts, q)
    decreases |q|
  {
    RunsDomain(p, text);
    if !IsAlt(p.insts, c.pc) {
      k := 0;
      Stay(p.insts, c.pc);
      assert q[0..] == q;
    } else {
      assert q[1] in Runs(p, text)[c];
      assert Edge(p.insts, c.pc, q[1].pc);
      var j := LeaveAlts(p, text, q[1], d, q[1..]);
      k := j + 1;
      OneStep(p.insts, c.pc, q[1].pc);
      Joined(p.insts, c.pc, q[1].pc, q[k].pc);
      assert q[1..][j..] == q[k..];
    }
  }

  /** The alternatives a run starts with, in the other program. */
  lemma AltsCarried(p: Prog, p': Prog, text: Text, c: Config, e: Config) returns (s: seq<Config>)
    requires Closed(p'.insts) && SameMeaning(p.insts, p'.insts) && InRange(p', text, c) && e.pos == c.pos
    requires !IsAlt(p.insts, e.pc) && Connects(p.insts, c.pc, e.pc)
    ensures IsPath(Runs(p', text), s) && s != [] && s[0] == c && s[|s| - 1] == e && Skeleton(p'.insts, s) == [e]
  {
    assert Connects(p'.insts, c.pc, e.pc);
    var alts :| AltPathBetween(p'.insts, c.pc, e.pc, alts);
    s := AltSteps(p', text, c.pos, c.pc, e.pc, alts);
  }

  lemma StepCarried(p: Prog, p': Prog, text: Text, e: Config, q: seq<Config>, rest: seq<Config>)
    requires SameMeaning(p.insts, p'.insts) && IsPath(Runs(p, text), q) && |q| > 1 && q[0] == e && !IsAlt(p.insts, e.pc)
    requires IsPath(Runs(p', text), rest) && rest != [] && rest[0] == q[1]
    ensures IsPath(Runs(p', text), [e] + rest)
  {
    RunsDomain(p, text);
    RunsDomain(p', text);
    assert ([e] + rest)[1..] == rest;
  }

  lemma {:induction false} RunCarried(p: Prog, p': Prog, text: Text, c: Config, d: Config, q: seq<Config>)
      returns (r: seq<Config>)
    requires Closed(p.insts) && Closed(p'.insts) && SameMeaning(p.insts, p'.insts) && Run(p, text, c, d, q)
    ensures Run(p', text, c, d, r) && Skeleton(p'.insts, r) == Skeleton(p.insts, q)
    decreases |q|
  {
    InRuns(p, p', text, c);
    var k := LeaveAlts(p, text, c, d, q);
    var e := q[k];
    var s := AltsCarried(p, p', text, c, e);
    var t := [e];
    if k + 1 < |q| {
      assert q[k..][1..] == q[k + 1..];
      var rest := RunCarried(p, p', text, q[k + 1], d, q[k + 1..]);
      StepCarried(p, p', text, e, q[k..], rest);
      t := [e] + rest;
    } else {
      InRuns(p, p', text, e);
    }
    r := s + t[1..];
    SkeletonAt(p, p', e, q[k..], t);
    JoinedAt(p', text, c, d, e, s, t);
  }

  /** Through alternatives to e, and on from there. */
  lemma JoinedAt(p: Prog, text: Text, c: Config, d: Config, e: Config, s: seq<Config>, t: seq<Config>)
    requires IsPath(Runs(p, text), s) && s != [] && s[0] == c && s[|s| - 1] == e && Skeleton(p.insts, s) == [e]
    requires Run(p, text, e, d, t)
    ensures Run(p, text, c, d, s + t[1..]) && Skeleton(p.insts, s + t[1..]) == [e] + Skeleton(p.insts, t[1..])
  {
    PathsJoin(Runs(p, text), s, t);
    SkeletonJoin(p.insts, s, t[1..]);
  }

  lemma SkeletonAt(p: Prog, p': Prog, e: Config, q: seq<Config>, t: seq<Config>)
    requires q != [] && t != [] && q[0] == e == t[0] && !IsAlt(p.insts, e.pc)
    requires Skeleton(p.insts, q[1..]) == Skeleton(p'.insts, t[1..])
    ensures Skeleton(p.insts, q) == [e] + Skeleton(p'.insts, t[1..])
  {}

  lemma InRuns(p: Prog, p': Prog, text: Text, c: Config)
    requires SameMeaning(p.insts, p'.insts)
    ensures c in Runs(p, text) <==> InRange(p, text, c)
    ensures c in Runs(p', text) <==> InRange(p', text, c)
  {
    RunsDomain(p, text);
    RunsDomain(p', text);
  }

  /** The rewrites keep every run but for its alternatives: in particular what it consumes, what it
      captures and where it ends, from every instruction and every position of every text. */
  lemma CopyKeepsRuns(p: Prog, text: Text, c: Config, d: Config, sk: seq<Config>)
    requires WellFormed(p)
    ensures RunsAlong(p, text, c, d, sk) <==> RunsAlong(Prog(RewrittenFrom(p.insts, 0), p.start), text, c, d, sk)
  {
    var p' := Prog(RewrittenFrom(p.insts, 0), p.start);
    AllRewritten(p, p.insts, 0);
    if RunsAlong(p, text, c, d, sk) {
      var q :| Run(p, text, c, d, q) && Skeleton(p.insts, q) == sk;
      var r := RunCarried(p, p', text, c, d, q);
    }
    if RunsAlong(p', text, c, d, sk) {
      var q :| Run(p', text, c, d, q) && Skeleton(p'.insts, q) == sk;
      assert SameMeaning(p'.insts, p.insts);
      var r := RunCarried(p', p, text, c, d, q);
    }
  }

  lemma {:induction false} AllRewritten(p: Prog, insts: seq<Inst>, pc: nat)
    requires RewrittenTo(p, insts, pc)
    ensures Closed(RewrittenFrom(p.insts, 0)) && SameMeaning(p.insts, RewrittenFrom(p.insts, 0))
    decreases |insts| - pc
  {
    if pc < |insts| {
      RewrittenNext(p, insts, pc);
      AllRewritten(p, Rewritten(insts, pc), pc + 1);
    }
  }

  /** The order of preference is not kept: of A:BC with B:CD the search prefers C; of A:DC it
      prefers D. One-pass programs do not need it, since the rune decides. */
  lemma OrderNotKept()
    ensures var insts := [Fail, Alt(2, 3), Alt(3, 4), Match, RuneAny(3)];
            Closed(insts) && Rewritten(insts, 1)[1] == Alt(4, 3) &&
            FirstLeaf(insts, 1, 3) == Some(3) && FirstLeaf(Rewritten(insts, 1), 1, 3) == Some(4)
  {
    var insts := [Fail, Alt(2, 3), Alt(3, 4), Match, RuneAny(3)];
    assert Closed(insts);
    assert FirstLeaf(insts, 3, 1) == Some(3);
    assert FirstLeaf(insts, 2, 2) == Some(3);
    var b := Rewritten(insts, 1);
    assert b == insts[1 := Alt(4, 3)];
    assert FirstLeaf(b, 4, 2) == Some(4);
  }

  /** Following first legs, for so many steps. */
  function FirstLeaf(insts: seq<Inst>, x: nat, steps: nat): Option<nat>
    decreases steps
  {
    if !IsAlt(insts, x) then Some(x) else if steps == 0 then None else FirstLeaf(insts, insts[x].out, steps - 1)
  }
}
