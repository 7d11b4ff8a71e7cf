/** Looking up a field through embedded structs (src/reflect/type.go:875-1013). */
module FieldByName {
  import opened Search

  type Type = nat
  type Index = seq<nat>

  /** A field; embed is the struct type it embeds, directly or through a pointer, if it does. */
  datatype Field = Field(name: string, anonymous: bool, embed: Option<Type>)

  /** The struct types, by number. */
  type Types = seq<seq<Field>>

  /** Embedded structs are anonymous fields; every field has a name, an anonymous one that of its type. */
  ghost predicate WellFormed(types: Types) {
    forall t, i :: 0 <= t < |types| && 0 <= i < |types[t]| ==> FieldOk(types, types[t][i])
  }

  predicate FieldOk(types: Types, f: Field) {
    f.name != "" && (f.embed.Some? ==> f.embed.value < |types| && f.anonymous)
  }

  // ------------------------------------------------------------------- the meaning

  /** The struct type at the end of a path of embedded fields. */
  function Walk(types: Types, root: Type, p: Index): (r: Option<Type>)
    requires WellFormed(types) && root < |types|
    ensures r.Some? ==> r.value < |types|
    decreases |p|
  {
    if p == [] then Some(root)
    else
      var t, i := Walk(types, root, p[..|p| - 1]), p[|p| - 1];
      if t.None? || i >= |types[t.value]| then None else types[t.value][i].embed
  }

  /** p leads to a field whose name matches. */
  predicate Hit(types: Types, root: Type, match_: string -> bool, p: Index)
    requires WellFormed(types) && root < |types|
  {
    p != [] &&
    var t, i := Walk(types, root, p[..|p| - 1]), p[|p| - 1];
    t.Some? && i < |types[t.value]| && match_(types[t.value][i].name)
  }

  /** The field that the name denotes: the only match at the shallowest depth that has one. */
  ghost predicate Denotes(types: Types, root: Type, match_: string -> bool, p: Index)
    requires WellFormed(types) && root < |types|
  {
    Hit(types, root, match_, p) && forall q: Index :: Hit(types, root, match_, q) ==> |q| > |p| || q == p
  }

  /** t can be reached at depth d. */
  ghost predicate At(types: Types, root: Type, d: nat, t: Type)
    requires WellFormed(types) && root < |types|
  {
    exists p: Index :: |p| == d && Walk(types, root, p) == Some(t)
  }

  ghost predicate Above(types: Types, root: Type, d: nat, t: Type)
    requires WellFormed(types) && root < |types|
  {
    exists e: nat :: e < d && At(types, root, e, t)
  }

  /** Two different paths lead to t at depth d. */
  ghost predicate Twice(types: Types, root: Type, d: nat, t: Type)
    requires WellFormed(types) && root < |types|
  {
    exists p: Index, q: Index :: p != q && |p| == |q| == d && Walk(types, root, p) == Some(t) == Walk(types, root, q)
  }

  lemma WalkOn(types: Types, root: Type, p: Index, i: nat)
    requires WellFormed(types) && root < |types| && Walk(types, root, p).Some? &&
      i < |types[Walk(types, root, p).value]|
    ensures Walk(types, root, p + [i]) == types[Walk(types, root, p).value][i].embed
  {
    assert (p + [i])[..|p|] == p;
  }

  lemma HitOn(types: Types, root: Type, match_: string -> bool, p: Index, i: nat)
    requires WellFormed(types) && root < |types| && Walk(types, root, p).Some? &&
      i < |types[Walk(types, root, p).value]|
    ensures Hit(types, root, match_, p + [i]) <==> match_(types[Walk(types, root, p).value][i].name)
  {
    assert (p + [i])[..|p|] == p;
  }

  /** A path passes through every depth on its way. */
  lemma {:induction false} Prefix(types: Types, root: Type, p: Index, d: nat)
    requires WellFormed(types) && root < |types| && Walk(types, root, p).Some? && d <= |p|
    ensures Walk(types, root, p[..d]).Some?
    decreases |p|
  {
    if d == |p| {
      assert p[..d] == p;
    } else {
      Prefix(types, root, p[..|p| - 1], d);
      assert p[..|p| - 1][..d] == p[..d];
    }
  }

  // ------------------------------------------------------------------- one level

  datatype Scan = Scan(typ: Type, index: Index)

  /** What the lookup carries along one depth level: the work list and counts for the next one, and the match found. */
  datatype Level = Level(next: seq<Scan>, nextCount: map<Type, nat>, result: Option<Index>)

  function CountOf(count: map<Type, nat>, t: Type): nat { if t in count then count[t] else 0 }

  predicate Listed(scans: seq<Scan>, t: Type) { exists k :: 0 <= k < |scans| && scans[k].typ == t }

  /** The entries lead where they say, at depth d, and no type has two. */
  ghost predicate Leading(types: Types, root: Type, d: nat, scans: seq<Scan>)
    requires WellFormed(types) && root < |types|
  {
    && (forall k :: 0 <= k < |scans| ==>
      |scans[k].index| == d && Walk(types, root, scans[k].index) == Some(scans[k].typ))
    && forall j, k :: 0 <= j < k < |scans| ==> scans[j].typ != scans[k].typ
  }

  /** A place: a struct type and one of its fields. */
  type Place = (Type, nat)

  predicate Embeds(types: Types, a: Place, s: Type) {
    a.0 < |types| && a.1 < |types[a.0]| && types[a.0][a.1].embed == Some(s)
  }

  /** seen places embed s more than once, counting a type that was itself reached more than once double. */
  ghost predicate Again(types: Types, seen: set<Place>, count: map<Type, nat>, s: Type) {
    || (exists a, b :: a in seen && b in seen && a != b && Embeds(types, a, s) && Embeds(types, b, s))
    || (exists a :: a in seen && Embeds(types, a, s) && CountOf(count, a.0) > 1)
  }

  ghost predicate Once(types: Types, seen: set<Place>, s: Type) { exists a :: a in seen && Embeds(types, a, s) }

  predicate Matches(types: Types, match_: string -> bool, a: Place) {
    a.0 < |types| && a.1 < |types[a.0]| && match_(types[a.0][a.1].name)
  }

  /** No match so far: the next work list and its counts reflect the places seen. */
  ghost predicate Queued(types: Types, root: Type, match_: string -> bool, d: nat, count: map<Type, nat>,
      seen: set<Place>, v: Level)
    requires WellFormed(types) && root < |types|
  {
    && v.result.None? && Leading(types, root, d + 1, v.next)
    && (forall a :: a in seen ==> !Matches(types, match_, a))
    && (forall s :: Listed(v.next, s) <==> Once(types, seen, s))
    && (forall s :: CountOf(v.nextCount, s) > 0 <==> Listed(v.next, s))
    && forall s :: CountOf(v.nextCount, s) > 1 <==> Again(types, seen, count, s)
  }

  /** One match so far, in a type that was reached once. */
  ghost predicate Found(types: Types, root: Type, match_: string -> bool, d: nat, count: map<Type, nat>,
      current: seq<Scan>, seen: set<Place>, v: Level)
    requires WellFormed(types) && root < |types|
  {
    exists k, i ::
      && 0 <= k < |current| && i >= 0 && v.result == Some(current[k].index + [i])
      && (current[k].typ, i) in seen && Matches(types, match_, (current[k].typ, i)) &&
        CountOf(count, current[k].typ) <= 1
      && forall a :: a in seen && Matches(types, match_, a) ==> a == (current[k].typ, i)
  }

  ghost predicate LevelInv(types: Types, root: Type, match_: string -> bool, d: nat, count: map<Type, nat>,
      current: seq<Scan>, seen: set<Place>, v: Level)
    requires WellFormed(types) && root < |types|
  {
    if v.result.None? then Queued(types, root, match_, d, count, seen, v)
    else Found(types, root, match_, d, count, current, seen, v)
  }

  /** A place that embeds nothing that concerns s leaves the account of s as it is. */
  lemma OtherPlace(types: Types, seen: set<Place>, count: map<Type, nat>, a: Place, s: Type)
    requires !Embeds(types, a, s)
    ensures Once(types, seen + {a}, s) <==> Once(types, seen, s)
    ensures Again(types, seen + {a}, count, s) <==> Again(types, seen, count, s)
  {
    if b, c :| b in seen + {a} && c in seen + {a} && b != c && Embeds(types, b, s) && Embeds(types, c, s) {
      assert b in seen && c in seen;
    }
  }

  lemma FirstPlace(types: Types, seen: set<Place>, count: map<Type, nat>, a: Place, s: Type)
    requires Embeds(types, a, s) && !Once(types, seen, s)
    ensures Once(types, seen + {a}, s)
    ensures Again(types, seen + {a}, count, s) <==> CountOf(count, a.0) > 1
  {
    assert a in seen + {a};
  }

  lemma NextPlace(types: Types, seen: set<Place>, count: map<Type, nat>, a: Place, s: Type)
    requires Embeds(types, a, s) && Once(types, seen, s) && a !in seen
    ensures Once(types, seen + {a}, s) && Again(types, seen + {a}, count, s)
  {
    var b :| b in seen && Embeds(types, b, s);
    assert b in seen + {a} && a in seen + {a} && a != b;
  }

  lemma ListedPush(scans: seq<Scan>, e: Scan, s: Type)
    ensures Listed(scans + [e], s) <==> Listed(scans, s) || s == e.typ
  {
    var all := scans + [e];
    if Listed(scans, s) {
      var k :| 0 <= k < |scans| && scans[k].typ == s;
      assert all[k].typ == s;
    }
    if s == e.typ { assert all[|scans|].typ == s; }
  }

  /** Not a match, and nothing to queue. */
  lemma PassedOver(types: Types, root: Type, match_: string -> bool, d: nat, count: map<Type, nat>, seen: set<Place>,
      v: Level, a: Place)
    requires WellFormed(types) && root < |types| && Queued(types, root, match_, d, count, seen, v)
    requires !Matches(types, match_, a) && forall s :: !Embeds(types, a, s)
    ensures Queued(types, root, match_, d, count, seen + {a}, v)
  {
    forall s ensures Once(types, seen + {a}, s) <==> Once(types, seen, s) { OtherPlace(types, seen, count, a, s); }
    forall s ensures Again(types, seen + {a}, count, s) <==> Again(types, seen, count, s) {
      OtherPlace(types, seen, count, a, s);
    }
  }

  /** The embedded type s is queued already. */
  lemma Requeued(types: Types, root: Type, match_: string -> bool, d: nat, count: map<Type, nat>, seen: set<Place>,
      v: Level, a: Place, s: Type)
    requires WellFormed(types) && root < |types| && Queued(types, root, match_, d, count, seen, v) && a !in seen
    requires !Matches(types, match_, a) && Embeds(types, a, s) && CountOf(v.nextCount, s) > 0
    ensures Queued(types, root, match_, d, count, seen + {a}, v.(nextCount := v.nextCount[s := 2]))
  {
    NextPlace(types, seen, count, a, s);
    forall t ensures Once(types, seen + {a}, t) <==> Once(types, seen, t) {
      if t != s { OtherPlace(types, seen, count, a, t); }
    }
    forall t ensures t != s ==> (Again(types, seen + {a}, count, t) <==> Again(types, seen, count, t)) {
      if t != s { OtherPlace(types, seen, count, a, t); }
    }
  }

  /** The embedded type s is queued for the first time. */
  lemma Enqueued(types: Types, root: Type, match_: string -> bool, d: nat, count: map<Type, nat>, seen: set<Place>,
      v: Level, a: Place, s: Type, index: Index)
    requires WellFormed(types) && root < |types| && Queued(types, root, match_, d, count, seen, v) && a !in seen
    requires !Matches(types, match_, a) && Embeds(types, a, s) && CountOf(v.nextCount, s) == 0
    requires |index| == d && Walk(types, root, index) == Some(a.0)
    ensures Queued(types, root, match_, d, count, seen + {a},
      v.(nextCount := v.nextCount[s := if CountOf(count, a.0) > 1 then 2 else 1],
        next := v.next + [Scan(s, index + [a.1])]))
  {
    FirstPlace(types, seen, count, a, s);
    WalkOn(types, root, index, a.1);
    var next := v.next + [Scan(s, index + [a.1])];
    forall t ensures Listed(next, t) <==> Listed(v.next, t) || t == s { ListedPush(v.next, Scan(s, index + [a.1]), t); }
    forall t ensures Once(types, seen + {a}, t) <==> Once(types, seen, t) || t == s {
      if t != s { OtherPlace(types, seen, count, a, t); }
    }
    forall t ensures t != s ==> (Again(types, seen + {a}, count, t) <==> Again(types, seen, count, t)) {
      if t != s { OtherPlace(types, seen, count, a, t); }
    }
    forall k | 0 <= k < |v.next| ensures v.next[k].typ != s { assert Listed(v.next, v.next[k].typ); }
  }

  // ------------------------------------------------------------------ level by level

  /** Before depth d is searched: nothing shallower matches, visited are the types above, and the
      work list holds every type that is new at this depth, with its count. */
  ghost predicate Top(types: Types, root: Type, match_: string -> bool, d: nat, visited: set<Type>, current: seq<Scan>,
      count: map<Type, nat>)
    requires WellFormed(types) && root < |types|
  {
    && (forall p: Index :: Hit(types, root, match_, p) ==> |p| > d)
    && (forall t: Type :: t in visited <==> Above(types, root, d, t))
    && Leading(types, root, d, current)
    && (forall t: Type :: At(types, root, d, t) && t !in visited ==> Listed(current, t))
    && forall t: Type :: At(types, root, d, t) && t !in visited ==>
      (CountOf(count, t) > 1 <==> Twice(types, root, d, t))
  }

  /** seen are the places of the new types of the work list. */
  ghost predicate AllSeen(types: Types, visited: set<Type>, current: seq<Scan>, seen: set<Place>) {
    forall a: Place :: a in seen <==> Listed(current, a.0) && a.0 !in visited && a.0 < |types| && a.1 < |types[a.0]|
  }

  /** Where a path of length d + 1 leaves depth d: at a place that has been seen, or in a type that is already above. */
  lemma LastPlace(types: Types, root: Type, match_: string -> bool, d: nat, visited: set<Type>, current: seq<Scan>,
      count: map<Type, nat>, seen: set<Place>, p: Index)
    requires WellFormed(types) && root < |types| && Top(types, root, match_, d, visited, current, count) &&
      AllSeen(types, visited, current, seen)
    requires |p| == d + 1 && Walk(types, root, p[..d]).Some? && p[d] < |types[Walk(types, root, p[..d]).value]|
    ensures var t := Walk(types, root, p[..d]).value; At(types, root, d, t) && (t in visited || (t, p[d]) in seen)
  {
    var t := Walk(types, root, p[..d]).value;
    assert |p[..d]| == d;
    assert At(types, root, d, t);
  }

  /** A match in a type that is above would have been found there. */
  lemma NoMatchAbove(types: Types, root: Type, match_: string -> bool, d: nat, visited: set<Type>, current: seq<Scan>,
      count: map<Type, nat>, t: Type, i: nat)
    requires WellFormed(types) && root < |types| && Top(types, root, match_, d, visited, current, count)
    requires t in visited && t < |types| && i < |types[t]|
    ensures !match_(types[t][i].name)
  {
    assert Above(types, root, d, t);
    var e: nat :| e < d && At(types, root, e, t);
    var r: Index :| |r| == e && Walk(types, root, r) == Some(t);
    HitOn(types, root, match_, r, i);
  }

  /** What a type above embeds is above, or at this depth and no longer new. */
  lemma EmbeddedAbove(types: Types, root: Type, match_: string -> bool, d: nat, visited: set<Type>, current: seq<Scan>,
      count: map<Type, nat>, t: Type, i: nat)
    requires WellFormed(types) && root < |types| && Top(types, root, match_, d, visited, current, count)
    requires t in visited && t < |types| && i < |types[t]| && types[t][i].embed.Some?
    ensures Above(types, root, d + 1, types[t][i].embed.value)
  {
    assert Above(types, root, d, t);
    var e: nat :| e < d && At(types, root, e, t);
    var r: Index :| |r| == e && Walk(types, root, r) == Some(t);
    WalkOn(types, root, r, i);
    assert |r + [i]| == e + 1;
    assert At(types, root, e + 1, types[t][i].embed.value);
  }

  /** A match at this depth is a match at a seen place. */
  lemma HitSeen(types: Types, root: Type, match_: string -> bool, d: nat, visited: set<Type>, current: seq<Scan>,
      count: map<Type, nat>, seen: set<Place>, p: Index)
    requires WellFormed(types) && root < |types| && Top(types, root, match_, d, visited, current, count) &&
      AllSeen(types, visited, current, seen)
    requires Hit(types, root, match_, p) && |p| == d + 1
    ensures var t := Walk(types, root, p[..d]);
      t.Some? && (t.value, p[d]) in seen && Matches(types, match_, (t.value, p[d])) && At(types, root, d, t.value)
  {
    LastPlace(types, root, match_, d, visited, current, count, seen, p);
    var t := Walk(types, root, p[..d]).value;
    if t in visited { NoMatchAbove(types, root, match_, d, visited, current, count, t, p[d]); }
  }

  /** The one match of a level is the field denoted. */
  lemma FoundDenotes(types: Types, root: Type, match_: string -> bool, d: nat, visited: set<Type>, current: seq<Scan>,
      count: map<Type, nat>, seen: set<Place>, v: Level)
    requires WellFormed(types) && root < |types| && Top(types, root, match_, d, visited, current, count) &&
      AllSeen(types, visited, current, seen)
    requires v.result.Some? && Found(types, root, match_, d, count, current, seen, v)
    ensures Denotes(types, root, match_, v.result.value)
  {
    var k, i :| 0 <= k < |current| && i >= 0 && v.result == Some(current[k].index + [i])
      && (current[k].typ, i) in seen && Matches(types, match_, (current[k].typ, i)) &&
        CountOf(count, current[k].typ) <= 1
      && forall a :: a in seen && Matches(types, match_, a) ==> a == (current[k].typ, i);
    HitOn(types, root, match_, current[k].index, i);
    var r := v.result.value;
    assert r[..d] == current[k].index && r[d] == i && current[k].typ !in visited;
    assert At(types, root, d, current[k].typ);
    forall q: Index | Hit(types, root, match_, q) ensures |q| > |r| || q == r {
      if |q| == |r| {
        HitSeen(types, root, match_, d, visited, current, count, seen, q);
        SplitLast(q, r);
        if q[..d] != current[k].index { TwiceHere(types, root, d, q[..d], current[k].index, current[k].typ); }
      }
    }
  }

  ghost predicate TwoHits(types: Types, root: Type, match_: string -> bool, d: nat)
    requires WellFormed(types) && root < |types|
  {
    exists p: Index, q: Index :: p != q && |p| == |q| == d + 1 && Hit(types, root, match_, p) &&
      Hit(types, root, match_, q)
  }

  /** Two matches at the shallowest depth annihilate each other. */
  lemma Annihilated(types: Types, root: Type, match_: string -> bool, d: nat, visited: set<Type>, current: seq<Scan>,
      count: map<Type, nat>)
    requires WellFormed(types) && root < |types| && Top(types, root, match_, d, visited, current, count) &&
      TwoHits(types, root, match_, d)
    ensures forall r: Index :: !Denotes(types, root, match_, r)
  {
    var p: Index, q: Index :| p != q && |p| == |q| == d + 1 && Hit(types, root, match_, p) &&
      Hit(types, root, match_, q);
    forall r: Index ensures !Denotes(types, root, match_, r) {
      if Denotes(types, root, match_, r) {
        OnlyHit(types, root, match_, r, p);
        OnlyHit(types, root, match_, r, q);
      }
    }
  }

  lemma OnlyHit(types: Types, root: Type, match_: string -> bool, r: Index, p: Index)
    requires WellFormed(types) && root < |types| && Denotes(types, root, match_, r) && Hit(types, root, match_, p)
    ensures |p| > |r| || p == r
  {}

  lemma SplitLast(p: Index, q: Index)
    requires |p| == |q| && p != []
    ensures p == q <==> p[..|p| - 1] == q[..|q| - 1] && p[|p| - 1] == q[|q| - 1]
  {
    assert p == p[..|p| - 1] + [p[|p| - 1]] && q == q[..|q| - 1] + [q[|q| - 1]];
  }

  /** Paths that leave depth d differently stay different. */
  lemma TwiceOn(types: Types, root: Type, d: nat, p: Index, i: nat, q: Index, j: nat, s: Type)
    requires WellFormed(types) && root < |types| && |p| == |q| == d && (p != q || i != j)
    requires Walk(types, root, p).Some? && Embeds(types, (Walk(types, root, p).value, i), s)
    requires Walk(types, root, q).Some? && Embeds(types, (Walk(types, root, q).value, j), s)
    ensures Twice(types, root, d + 1, s)
  {
    WalkOn(types, root, p, i);
    WalkOn(types, root, q, j);
    var p', q' := p + [i], q + [j];
    assert p'[..d] == p && q'[..d] == q && p'[d] == i && q'[d] == j;
    assert |p'| == |q'| == d + 1 && p' != q';
  }

  // ------------------------------------------------------------- from level to level

  lemma NextTop(types: Types, root: Type, match_: string -> bool, d: nat, visited: set<Type>, current: seq<Scan>,
      count: map<Type, nat>, seen: set<Place>, v: Level, visited': set<Type>)
    requires WellFormed(types) && root < |types| && Top(types, root, match_, d, visited, current, count) &&
      AllSeen(types, visited, current, seen)
    requires Queued(types, root, match_, d, count, seen, v)
    requires forall t: Type :: t in visited' <==> t in visited || Listed(current, t)
    ensures Top(types, root, match_, d + 1, visited', v.next, v.nextCount)
  {
    forall p: Index | Hit(types, root, match_, p) ensures |p| > d + 1 {
      if |p| == d + 1 { HitSeen(types, root, match_, d, visited, current, count, seen, p); }
    }
    forall t: Type ensures t in visited' <==> Above(types, root, d + 1, t) {
      VisitedIsAbove(types, root, match_, d, visited, current, count, t);
    }
    forall s: Type | At(types, root, d + 1, s) && s !in visited' ensures Listed(v.next, s) {
      var p: Index :| |p| == d + 1 && Walk(types, root, p) == Some(s);
      Arrives(types, root, match_, d, visited, current, count, seen, p, s);
    }
    forall s: Type | At(types, root, d + 1, s) && s !in visited'
      ensures CountOf(v.nextCount, s) > 1 <==> Twice(types, root, d + 1, s) {
      if Twice(types, root, d + 1, s) { TwiceAgain(types, root, match_, d, visited, current, count, seen, s); }
      if Again(types, seen, count, s) { AgainTwice(types, root, match_, d, visited, current, count, seen, s); }
    }
  }

  lemma VisitedIsAbove(types: Types, root: Type, match_: string -> bool, d: nat, visited: set<Type>, current: seq<Scan>,
      count: map<Type, nat>, t: Type)
    requires WellFormed(types) && root < |types| && Top(types, root, match_, d, visited, current, count)
    ensures t in visited || Listed(current, t) <==> Above(types, root, d + 1, t)
  {
    if Above(types, root, d, t) {
      var e: nat :| e < d && At(types, root, e, t);
      assert e < d + 1;
    }
    if Listed(current, t) {
      var k :| 0 <= k < |current| && current[k].typ == t;
      assert At(types, root, d, t);
    }
    if Above(types, root, d + 1, t) {
      var e: nat :| e < d + 1 && At(types, root, e, t);
      if e < d { assert Above(types, root, d, t); }
    }
  }

  /** A path to a type that is new at depth d + 1 comes through a seen place. */
  lemma Arrives(types: Types, root: Type, match_: string -> bool, d: nat, visited: set<Type>, current: seq<Scan>,
      count: map<Type, nat>, seen: set<Place>, p: Index, s: Type)
    requires WellFormed(types) && root < |types| && Top(types, root, match_, d, visited, current, count) &&
      AllSeen(types, visited, current, seen)
    requires |p| == d + 1 && Walk(types, root, p) == Some(s) && !Above(types, root, d + 1, s)
    ensures var t := Walk(types, root, p[..d]);
      t.Some? && At(types, root, d, t.value) && t.value !in visited && (t.value, p[d]) in seen &&
        Embeds(types, (t.value, p[d]), s)
  {
    LastPlace(types, root, match_, d, visited, current, count, seen, p);
    var t := Walk(types, root, p[..d]).value;
    if t in visited { EmbeddedAbove(types, root, match_, d, visited, current, count, t, p[d]); }
  }

  lemma TwiceHere(types: Types, root: Type, d: nat, p: Index, q: Index, t: Type)
    requires WellFormed(types) && root < |types| && p != q && |p| == |q| == d
    requires Walk(types, root, p) == Some(t) == Walk(types, root, q)
    ensures Twice(types, root, d, t)
  {}

  lemma TwiceAgain(types: Types, root: Type, match_: string -> bool, d: nat, visited: set<Type>, current: seq<Scan>,
      count: map<Type, nat>, seen: set<Place>, s: Type)
    requires WellFormed(types) && root < |types| && Top(types, root, match_, d, visited, current, count) &&
      AllSeen(types, visited, current, seen)
    requires Twice(types, root, d + 1, s) && !Above(types, root, d + 1, s)
    ensures Again(types, seen, count, s)
  {
    var p: Index, q: Index :| p != q && |p| == |q| == d + 1 && Walk(types, root, p) == Some(s) == Walk(types, root, q);
    Arrives(types, root, match_, d, visited, current, count, seen, p, s);
    Arrives(types, root, match_, d, visited, current, count, seen, q, s);
    var a, b := (Walk(types, root, p[..d]).value, p[d]), (Walk(types, root, q[..d]).value, q[d]);
    SplitLast(p, q);
    if a == b { TwiceHere(types, root, d, p[..d], q[..d], a.0); }
  }

  lemma AgainTwice(types: Types, root: Type, match_: string -> bool, d: nat, visited: set<Type>, current: seq<Scan>,
      count: map<Type, nat>, seen: set<Place>, s: Type)
    requires WellFormed(types) && root < |types| && Top(types, root, match_, d, visited, current, count) &&
      AllSeen(types, visited, current, seen)
    requires Again(types, seen, count, s)
    ensures Twice(types, root, d + 1, s)
  {
    if a :| a in seen && Embeds(types, a, s) && CountOf(count, a.0) > 1 {
      var _ := PathTo(types, root, match_, d, visited, current, count, seen, a);
      var q, r: Index :| q != r && |q| == |r| == d && Walk(types, root, q) == Some(a.0) == Walk(types, root, r);
      TwiceOn(types, root, d, q, a.1, r, a.1, s);
    } else {
      var a, b :| a in seen && b in seen && a != b && Embeds(types, a, s) && Embeds(types, b, s);
      var p := PathTo(types, root, match_, d, visited, current, count, seen, a);
      var q := PathTo(types, root, match_, d, visited, current, count, seen, b);
      TwiceOn(types, root, d, p, a.1, q, b.1, s);
    }
  }

  lemma PathTo(types: Types, root: Type, match_: string -> bool, d: nat, visited: set<Type>, current: seq<Scan>,
      count: map<Type, nat>, seen: set<Place>, a: Place) returns (p: Index)
    requires WellFormed(types) && root < |types| && Top(types, root, match_, d, visited, current, count) &&
      AllSeen(types, visited, current, seen)
    requires a in seen
    ensures |p| == d && Walk(types, root, p) == Some(a.0) && At(types, root, d, a.0) && a.0 !in visited
  {
    var k :| 0 <= k < |current| && current[k].typ == a.0;
    p := current[k].index;
  }

  lemma {:induction false} WalkSame(types: Types, root: Type, p: Index, q: Index, rest: Index)
    requires WellFormed(types) && root < |types| && Walk(types, root, p) == Walk(types, root, q)
    ensures Walk(types, root, p + rest) == Walk(types, root, q + rest)
    decreases |rest|
  {
    if rest == [] {
      assert p + rest == p && q + rest == q;
    } else {
      var n := |rest| - 1;
      WalkSame(types, root, p, q, rest[..n]);
      assert (p + rest)[..|p| + n] == p + rest[..n] && (q + rest)[..|q| + n] == q + rest[..n];
    }
  }

  /** With an empty work list every type at depth d can be reached by a shorter path. */
  lemma ReachedAbove(types: Types, root: Type, match_: string -> bool, d: nat, visited: set<Type>, count: map<Type,
      nat>, p: Index)
      returns (r: Index)
    requires WellFormed(types) && root < |types| && Top(types, root, match_, d, visited, [], count)
    requires |p| == d && Walk(types, root, p).Some?
    ensures |r| < d && Walk(types, root, r) == Walk(types, root, p)
  {
    var u := Walk(types, root, p).value;
    assert At(types, root, d, u);
    assert Above(types, root, d, u);
    var e: nat :| e < d && At(types, root, e, u);
    r :| |r| == e && Walk(types, root, r) == Some(u);
  }

  lemma Front(p: Index, rest: Index)
    requires rest != []
    ensures (p + rest)[|p + rest| - 1] == rest[|rest| - 1]
    ensures (p + rest)[..|p + rest| - 1] == p + rest[..|rest| - 1]
  {}

  lemma SameEnd(types: Types, root: Type, match_: string -> bool, a: Index, b: Index)
    requires WellFormed(types) && root < |types| && a != [] && b != [] && a[|a| - 1] == b[|b| - 1]
    requires Walk(types, root, a[..|a| - 1]) == Walk(types, root, b[..|b| - 1])
    ensures Hit(types, root, match_, a) <==> Hit(types, root, match_, b)
  {}

  lemma HitSame(types: Types, root: Type, match_: string -> bool, p: Index, q: Index, rest: Index)
    requires WellFormed(types) && root < |types| && Walk(types, root, p) == Walk(types, root, q) && rest != []
    ensures Hit(types, root, match_, p + rest) <==> Hit(types, root, match_, q + rest)
  {
    WalkSame(types, root, p, q, rest[..|rest| - 1]);
    Front(p, rest);
    Front(q, rest);
    SameEnd(types, root, match_, p + rest, q + rest);
  }

  lemma HitReaches(types: Types, root: Type, match_: string -> bool, d: nat, p: Index)
    requires WellFormed(types) && root < |types| && |p| > d && Hit(types, root, match_, p)
    ensures Walk(types, root, p[..d]).Some? && p[..d] + p[d..] == p
  {
    Prefix(types, root, p[..|p| - 1], d);
    assert p[..|p| - 1][..d] == p[..d];
  }

  /** When the work list is empty nothing matches at any depth: whatever lies deeper can also be reached above. */
  lemma {:induction false} NothingLeft(types: Types, root: Type, match_: string -> bool, d: nat, visited: set<Type>,
      count: map<Type, nat>, p: Index)
    requires WellFormed(types) && root < |types| && Top(types, root, match_, d, visited, [], count)
    ensures !Hit(types, root, match_, p)
    decreases |p|
  {
    if |p| > d && Hit(types, root, match_, p) {
      HitReaches(types, root, match_, d, p);
      var r := ReachedAbove(types, root, match_, d, visited, count, p[..d]);
      HitSame(types, root, match_, p[..d], r, p[d..]);
      NothingLeft(types, root, match_, d, visited, count, r + p[d..]);
    }
  }

  // ----------------------------------------------------------------------- the lookup

  /** Field i of the struct type being scanned. */
  method ScanField(types: Types, match_: string -> bool, count: map<Type, nat>, scan: Scan, i: nat, v: Level,
      ghost root: Type, ghost d: nat, ghost current: seq<Scan>, ghost k: nat, ghost seen: set<Place>)
      returns (annihilated: bool, v': Level)
    requires WellFormed(types) && root < |types| && Leading(types, root, d, current) && k < |current| &&
      scan == current[k]
    requires i < |types[scan.typ]| && (scan.typ, i) !in seen
    requires CountOf(count, scan.typ) > 1 ==> Twice(types, root, d, scan.typ)
    requires LevelInv(types, root, match_, d, count, current, seen, v)
    ensures annihilated ==> TwoHits(types, root, match_, d)
    ensures !annihilated ==> LevelInv(types, root, match_, d, count, current, seen + {(scan.typ, i)}, v')
  {
    var t := scan.typ;
    var f := types[t][i];
    ghost var here := (t, i);
    annihilated, v' := false, v;
    if match_(f.name) {
      HitOn(types, root, match_, scan.index, i);
      if CountOf(count, t) > 1 || v.result.Some? {
        if v.result.Some? {
          SecondMatch(types, root, match_, d, count, current, seen, v, k, i);
        } else {
          TwiceHit(types, root, match_, d, t, i);
        }
        return true, v;
      }
      v' := v.(result := Some(scan.index + [i]));
      assert here in seen + {here};
      return;
    }
    if v.result.Some? || f.embed.None? {
      if v.result.None? { PassedOver(types, root, match_, d, count, seen, v, here); }
        else { StillFound(types, root, match_, d, count, current, seen, v, here); }
      return;
    }
    var styp := f.embed.value;
    if CountOf(v.nextCount, styp) > 0 {
      Requeued(types, root, match_, d, count, seen, v, here, styp);
      v' := v.(nextCount := v.nextCount[styp := 2]);
      return;
    }
    Enqueued(types, root, match_, d, count, seen, v, here, styp, scan.index);
    v' := v.(nextCount := v.nextCount[styp := if CountOf(count, t) > 1 then 2 else 1],
      next := v.next + [Scan(styp, scan.index + [i])]);
  }

  lemma StillFound(types: Types, root: Type, match_: string -> bool, d: nat, count: map<Type, nat>, current: seq<Scan>,
      seen: set<Place>, v: Level, a: Place)
    requires WellFormed(types) && root < |types| && Found(types, root, match_, d, count, current, seen, v) &&
      !Matches(types, match_, a)
    ensures Found(types, root, match_, d, count, current, seen + {a}, v)
  {}

  lemma BothHit(types: Types, root: Type, match_: string -> bool, d: nat, p: Index, i: nat, q: Index, j: nat)
    requires WellFormed(types) && root < |types| && |p| == |q| == d && (p != q || i != j)
    requires Walk(types, root, p).Some? && Matches(types, match_, (Walk(types, root, p).value, i))
    requires Walk(types, root, q).Some? && Matches(types, match_, (Walk(types, root, q).value, j))
    ensures TwoHits(types, root, match_, d)
  {
    HitOn(types, root, match_, p, i);
    HitOn(types, root, match_, q, j);
    var p', q' := p + [i], q + [j];
    assert p'[..d] == p && q'[..d] == q && p'[d] == i && q'[d] == j;
    assert |p'| == |q'| == d + 1 && p' != q';
  }

  lemma TwiceHit(types: Types, root: Type, match_: string -> bool, d: nat, t: Type, i: nat)
    requires WellFormed(types) && root < |types| && Twice(types, root, d, t) && Matches(types, match_, (t, i))
    ensures TwoHits(types, root, match_, d)
  {
    var p: Index, q: Index :| p != q && |p| == |q| == d && Walk(types, root, p) == Some(t) == Walk(types, root, q);
    BothHit(types, root, match_, d, p, i, q, i);
  }

  lemma SecondMatch(types: Types, root: Type, match_: string -> bool, d: nat, count: map<Type, nat>, current: seq<Scan>,
      seen: set<Place>, v: Level, k: nat, i: nat)
    requires WellFormed(types) && root < |types| && Leading(types, root, d, current) && k < |current|
    requires (current[k].typ, i) !in seen && Matches(types, match_, (current[k].typ, i))
    requires Found(types, root, match_, d, count, current, seen, v)
    ensures TwoHits(types, root, match_, d)
  {
    var m, j :| 0 <= m < |current| && j >= 0 && v.result == Some(current[m].index + [j])
      && (current[m].typ, j) in seen && Matches(types, match_, (current[m].typ, j));
    BothHit(types, root, match_, d, current[k].index, i, current[m].index, j);
  }

  /** All fields of one struct type. */
  method ScanType(types: Types, match_: string -> bool, count: map<Type, nat>, scan: Scan, v: Level, ghost root: Type,
      ghost d: nat, ghost current: seq<Scan>, ghost k: nat, ghost seen: set<Place>)
      returns (annihilated: bool, v': Level, ghost seen': set<Place>)
    requires WellFormed(types) && root < |types| && Leading(types, root, d, current) && k < |current| &&
      scan == current[k]
    requires scan.typ < |types| && forall a :: a in seen ==> a.0 != scan.typ
    requires CountOf(count, scan.typ) > 1 ==> Twice(types, root, d, scan.typ)
    requires LevelInv(types, root, match_, d, count, current, seen, v)
    ensures annihilated ==> TwoHits(types, root, match_, d)
    ensures !annihilated ==> LevelInv(types, root, match_, d, count, current, seen', v')
    ensures !annihilated ==> forall a: Place :: a in seen' <==>
      a in seen || (a.0 == scan.typ && a.1 < |types[scan.typ]|)
  {
    annihilated, v', seen' := false, v, seen;
    for i := 0 to |types[scan.typ]|
      invariant !annihilated && LevelInv(types, root, match_, d, count, current, seen', v')
      invariant forall a: Place :: a in seen' <==> a in seen || (a.0 == scan.typ && a.1 < i)
    {
      annihilated, v' := ScanField(types, match_, count, scan, i, v', root, d, current, k, seen');
      if annihilated {
        return;
      }
      seen' := seen' + {(scan.typ, i)};
    }
  }

  /** All entries of the work list for depth d. */
  method ScanLevel(types: Types, match_: string -> bool, count: map<Type, nat>, current: seq<Scan>, visited: set<Type>,
      ghost root: Type, ghost d: nat)
      returns (annihilated: bool, v: Level, visited': set<Type>, ghost seen: set<Place>)
    requires WellFormed(types) && root < |types| && Top(types, root, match_, d, visited, current, count)
    ensures annihilated ==> TwoHits(types, root, match_, d)
    ensures !annihilated ==>
      LevelInv(types, root, match_, d, count, current, seen, v) && AllSeen(types, visited, current, seen)
    ensures !annihilated ==> forall t: Type :: t in visited' <==> t in visited || Listed(current, t)
  {
    TopCounts(types, root, match_, d, visited, current, count);
    NoneScanned(types, root, match_, d, count, current, visited);
    annihilated, v, visited', seen := false, Level([], map[], None), visited, {};
    for k := 0 to |current|
      invariant !annihilated && Scanned(types, root, match_, d, count, current, k, visited, visited', seen, v)
    {
      annihilated, v, visited', seen := ScanEntry(types, match_, count, current, k, visited', v, root, d, visited,
        seen);
      if annihilated {
        return;
      }
    }
    AllScanned(types, root, match_, d, count, current, visited, visited', seen, v);
  }

  lemma NoneScanned(types: Types, root: Type, match_: string -> bool, d: nat, count: map<Type, nat>, current: seq<Scan>,
      visited: set<Type>)
    requires WellFormed(types) && root < |types| && Top(types, root, match_, d, visited, current, count)
    ensures Scanned(types, root, match_, d, count, current, 0, visited, visited, {}, Level([], map[], None))
  {
    assert current[..0] == [];
  }

  lemma AllScanned(types: Types, root: Type, match_: string -> bool, d: nat, count: map<Type, nat>, current: seq<Scan>,
      visited: set<Type>, visited': set<Type>, seen: set<Place>, v: Level)
    requires WellFormed(types) && root < |types|
    requires Scanned(types, root, match_, d, count, current, |current|, visited, visited', seen, v)
    ensures LevelInv(types, root, match_, d, count, current, seen, v) && AllSeen(types, visited, current, seen)
    ensures forall t: Type :: t in visited' <==> t in visited || Listed(current, t)
  {
    assert current[..|current|] == current;
  }

  /** What has been scanned when the first k entries of the work list have been. */
  ghost predicate Scanned(types: Types, root: Type, match_: string -> bool, d: nat, count: map<Type, nat>,
      current: seq<Scan>, k: nat, visited: set<Type>, visited': set<Type>, seen: set<Place>, v: Level)
    requires WellFormed(types) && root < |types| && k <= |current|
  {
    && LevelInv(types, root, match_, d, count, current, seen, v)
    && AllSeen(types, visited, current[..k], seen)
    && forall t: Type :: t in visited' <==> t in visited || Listed(current[..k], t)
  }

  /** New types that are counted more than once are reached more than once. */
  ghost predicate CountsMean(types: Types, root: Type, d: nat, visited: set<Type>, current: seq<Scan>, count: map<Type,
      nat>)
    requires WellFormed(types) && root < |types|
  {
    forall k :: 0 <= k < |current| && current[k].typ !in visited && CountOf(count, current[k].typ) > 1 ==>
      Twice(types, root, d, current[k].typ)
  }

  lemma TopCounts(types: Types, root: Type, match_: string -> bool, d: nat, visited: set<Type>, current: seq<Scan>,
      count: map<Type, nat>)
    requires WellFormed(types) && root < |types| && Top(types, root, match_, d, visited, current, count)
    ensures CountsMean(types, root, d, visited, current, count)
  {
    forall k | 0 <= k < |current| ensures At(types, root, d, current[k].typ) {}
  }

  /** Entry k of the work list, unless its type has been visited. */
  method ScanEntry(types: Types, match_: string -> bool, count: map<Type, nat>, current: seq<Scan>, k: nat,
      visited': set<Type>, v: Level, ghost root: Type, ghost d: nat, ghost visited: set<Type>, ghost seen: set<Place>)
      returns (annihilated: bool, v': Level, visited'': set<Type>, ghost seen': set<Place>)
    requires WellFormed(types) && root < |types| && Leading(types, root, d, current) &&
      CountsMean(types, root, d, visited, current, count) && k < |current|
    requires Scanned(types, root, match_, d, count, current, k, visited, visited', seen, v)
    ensures annihilated ==> TwoHits(types, root, match_, d)
    ensures !annihilated ==> Scanned(types, root, match_, d, count, current, k + 1, visited, visited'', seen', v')
  {
    var scan := current[k];
    ListedNext(current, k);
    NotListedBefore(types, root, d, current, k);
    annihilated, v', visited'', seen' := false, v, visited', seen;
    if scan.typ in visited' {
      SeenNext(types, visited, current, k, seen, seen);
      return;
    }
    visited'' := visited' + {scan.typ};
    annihilated, v', seen' := ScanType(types, match_, count, scan, v, root, d, current, k, seen);
    if !annihilated { SeenNext(types, visited, current, k, seen, seen'); }
  }

  lemma SeenNext(types: Types, visited: set<Type>, current: seq<Scan>, k: nat, seen: set<Place>, seen': set<Place>)
    requires k < |current| && AllSeen(types, visited, current[..k], seen) && current[k].typ < |types|
    requires forall a: Place :: a in seen' <==>
      a in seen || (current[k].typ !in visited && a.0 == current[k].typ && a.1 < |types[current[k].typ]|)
    ensures AllSeen(types, visited, current[..k + 1], seen')
  {
    ListedNext(current, k);
  }

  lemma ListedNext(scans: seq<Scan>, k: nat)
    requires k < |scans|
    ensures forall t: Type :: Listed(scans[..k + 1], t) <==> Listed(scans[..k], t) || t == scans[k].typ
  {
    assert scans[..k + 1] == scans[..k] + [scans[k]];
    forall t: Type ensures Listed(scans[..k + 1], t) <==> Listed(scans[..k], t) || t == scans[k].typ {
      ListedPush(scans[..k], scans[k], t);
    }
  }

  lemma NotListedBefore(types: Types, root: Type, d: nat, current: seq<Scan>, k: nat)
    requires WellFormed(types) && root < |types| && Leading(types, root, d, current) && k < |current|
    ensures !Listed(current[..k], current[k].typ) && current[k].typ < |types|
  {}

  ghost function Below(n: nat): (s: set<Type>)
    ensures forall t: nat :: t in s <==> t < n
  {
    if n == 0 then {} else Below(n - 1) + {n - 1}
  }

  lemma OpenTop(types: Types, root: Type, match_: string -> bool)
    requires WellFormed(types) && root < |types|
    ensures Top(types, root, match_, 0, {}, [Scan(root, [])], map[])
  {
    assert [Scan(root, [])][0].typ == root;
    forall t: Type | At(types, root, 0, t) ensures t == root && !Twice(types, root, 0, t) {}
  }

  /** Every level visits a new type or leaves no work. */
  lemma Shrinks(types: Types, root: Type, d: nat, visited: set<Type>, current: seq<Scan>, seen: set<Place>,
      visited': set<Type>, next: seq<Scan>)
    requires WellFormed(types) && root < |types| && Leading(types, root, d, current) && current != [] &&
      AllSeen(types, visited, current, seen)
    requires forall t: Type :: t in visited' <==> t in visited || Listed(current, t)
    requires forall s :: Listed(next, s) <==> Once(types, seen, s)
    ensures Below(|types|) - visited' < Below(|types|) - visited ||
      (Below(|types|) - visited' == Below(|types|) - visited && next == [])
  {
    if t: Type :| Listed(current, t) && t !in visited {
      assert t in Below(|types|) - visited && t !in Below(|types|) - visited';
    } else {
      assert seen == {};
      if next != [] { assert Listed(next, next[0].typ); }
      assert Below(|types|) - visited' == Below(|types|) - visited;
    }
  }

  /** The field whose name matches uniquely at the shallowest depth that has a match; None if there is no such field. */
  method FieldByNameFunc(types: Types, root: Type, match_: string -> bool) returns (r: Option<Index>)
    requires WellFormed(types) && root < |types|
    ensures match r {
      case Some(p) => Denotes(types, root, match_, p)
      case None => forall p: Index :: !Denotes(types, root, match_, p)
    }
  {
    OpenTop(types, root, match_);
    var next, nextCount, visited := [Scan(root, [])], map[], {};
    ghost var d := 0;
    while |next| > 0
      invariant Top(types, root, match_, d, visited, next, nextCount)
      decreases Below(|types|) - visited, |next|
    {
      var annihilated, v, visited';
      ghost var seen;
      annihilated, v, visited', seen := ScanLevel(types, match_, nextCount, next, visited, root, d);
      if annihilated {
        Annihilated(types, root, match_, d, visited, next, nextCount);
        return None;
      }
      if v.result.Some? {
        FoundDenotes(types, root, match_, d, visited, next, nextCount, seen, v);
        return v.result;
      }
      NextTop(types, root, match_, d, visited, next, nextCount, seen, v, visited');
      Shrinks(types, root, d, visited, next, seen, visited', v.next);
      visited, next, nextCount, d := visited', v.next, v.nextCount, d + 1;
    }
    forall p: Index ensures !Hit(types, root, match_, p) { NothingLeft(types, root, match_, d, visited, nextCount, p); }
    return None;
  }

  function Named(name: string): string -> bool { s => s == name }

  ghost predicate TopHit(types: Types, root: Type, name: string, i: nat)
    requires root < |types|
  {
    i < |types[root]| && types[root][i].name == name
  }

  /** Where FieldByName's shortcut differs from the rule: for a named field of the struct itself
      that shares its name with another one, as blank fields do; there it takes the first. */
  ghost predicate Shortcut(types: Types, root: Type, name: string)
    requires WellFormed(types) && root < |types|
  {
    exists i: nat, j: nat :: i != j && TopHit(types, root, name, i) && TopHit(types, root, name, j) &&
      !types[root][i].anonymous
  }

  /** A struct with two blank fields: FieldByName finds the first, though the name denotes nothing. */
  method TwoBlanks() returns (types: Types, r: Option<Index>)
    ensures WellFormed(types) && |types| == 1 && Shortcut(types, 0, "_")
    ensures r.Some? && forall p: Index :: !Denotes(types, 0, Named("_"), p)
  {
    var blank := Field("_", false, None);
    types := [[blank, blank]];
    assert TopHit(types, 0, "_", 0) && TopHit(types, 0, "_", 1);
    TopHits(types, 0, "_", [0]);
    TopHits(types, 0, "_", [1]);
    assert [0][0] != [1][0];
    assert forall p: Index :: Denotes(types, 0, Named("_"), p) ==> p == [0] && p == [1];
    r := FieldByName(types, 0, "_");
  }

  /** Field i of the struct itself is the first that is not anonymous and has the name. */
  predicate FirstOwn(types: Types, root: Type, name: string, i: nat)
    requires root < |types|
  {
    && i < |types[root]| && !types[root][i].anonymous && types[root][i].name == name
    && forall j :: 0 <= j < i ==> types[root][j].anonymous || types[root][j].name != name
  }

  /** FieldByName follows the rule of FieldByNameFunc except exactly where Shortcut says that it differs; a field of the
      struct itself is found before any embedded one, the first if there are several. */
  method FieldByName(types: Types, root: Type, name: string) returns (r: Option<Index>)
    requires WellFormed(types) && root < |types|
    ensures Shortcut(types, root, name) <==> !match r {
      case Some(p) => Denotes(types, root, Named(name), p)
      case None => forall p: Index :: !Denotes(types, root, Named(name), p)
    }
    ensures forall i: nat :: name != "" && FirstOwn(types, root, name, i) ==> r == Some([i])
  {
    var hasAnon := false;
    if name != "" {
      for i := 0 to |types[root]|
        invariant hasAnon <==> exists j :: 0 <= j < i && types[root][j].anonymous
        invariant forall j :: 0 <= j < i && !types[root][j].anonymous ==> types[root][j].name != name
      {
        var tf := types[root][i];
        if tf.anonymous {
          hasAnon := true;
        } else if tf.name == name {
          TopMatch(types, root, name, i);
          return Some([i]);
        }
      }
    }
    if !hasAnon {
      if name != "" { NoAnonymous(types, root, name); } else { NoEmptyName(types, root); }
      return None;
    }
    assert !Shortcut(types, root, name);
    r := FieldByNameFunc(types, root, Named(name));
  }

  /** A field of the struct itself is the one denoted unless it shares its name with another. */
  lemma TopMatch(types: Types, root: Type, name: string, i: nat)
    requires WellFormed(types) && root < |types| && TopHit(types, root, name, i) && !types[root][i].anonymous &&
      name != ""
    ensures Denotes(types, root, Named(name), [i]) <==> !Shortcut(types, root, name)
  {
    var m := Named(name);
    TopHits(types, root, name, [i]);
    if exists j: nat :: j != i && TopHit(types, root, name, j) {
      var j: nat :| j != i && TopHit(types, root, name, j);
      TopHits(types, root, name, [j]);
      assert [i] != [j] by { assert [i][0] != [j][0]; }
    } else {
      forall q: Index | Hit(types, root, m, q) && |q| == 1 ensures q == [i] {
        TopHits(types, root, name, q);
        assert q == [q[0]];
      }
    }
  }

  lemma TopHits(types: Types, root: Type, name: string, q: Index)
    requires WellFormed(types) && root < |types| && |q| == 1
    ensures Hit(types, root, Named(name), q) <==> TopHit(types, root, name, q[0])
  {
    assert q[..0] == [];
  }

  lemma NoAnonymous(types: Types, root: Type, name: string)
    requires WellFormed(types) && root < |types|
    requires forall j :: 0 <= j < |types[root]| ==> !types[root][j].anonymous && types[root][j].name != name
    ensures forall p: Index :: !Hit(types, root, Named(name), p)
  {
    forall p: Index ensures !Hit(types, root, Named(name), p) {
      if |p| > 1 { NothingEmbedded(types, root, p[..|p| - 1]); } else if |p| == 1 { TopHits(types, root, name, p); }
    }
  }

  lemma NoEmptyName(types: Types, root: Type)
    requires WellFormed(types) && root < |types|
    ensures forall p: Index :: !Hit(types, root, Named(""), p)
  {
    forall p: Index ensures !Hit(types, root, Named(""), p) {
      if p != [] && Walk(types, root, p[..|p| - 1]).Some? {
        var t, i := Walk(types, root, p[..|p| - 1]).value, p[|p| - 1];
        if i < |types[t]| { assert FieldOk(types, types[t][i]); }
      }
    }
  }

  lemma {:induction false} NothingEmbedded(types: Types, root: Type, p: Index)
    requires WellFormed(types) && root < |types| && p != []
    requires forall j :: 0 <= j < |types[root]| ==> !types[root][j].anonymous
    ensures Walk(types, root, p).None?
  {
    if |p| > 1 { NothingEmbedded(types, root, p[..|p| - 1]); } else { assert p[..0] == []; }
  }
}
