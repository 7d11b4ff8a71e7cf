/** Shell file name patterns (src/path/match.go), over single-byte characters. */
module PathMatch {
  import opened Search

  // ------------------------------------------------------------- the pattern language

  datatype Range = Range(lo: char, hi: char)

  datatype Term = Star | Any | Class(negated: bool, ranges: seq<Range>) | Lit(c: char)

  predicate InRanges(ranges: seq<Range>, c: char) { exists i :: 0 <= i < |ranges| && ranges[i].lo <= c <= ranges[i].hi }

  /** Whether a term other than Star matches the character c. */
  predicate One(t: Term, c: char) {
    match t
    case Star => false
    case Any => c != '/'
    case Class(negated, ranges) => InRanges(ranges, c) != negated
    case Lit(d) => c == d
  }

  predicate NoSlash(s: string) { '/' !in s }

  /** The language of a pattern, as its documentation defines it: a star matches any sequence of non-/ characters. */
  ghost predicate Matches(ts: seq<Term>, name: string)
    decreases |ts|
  {
    if ts == [] then name == ""
    else if ts[0].Star? then exists k :: 0 <= k <= |name| && NoSlash(name[..k]) && Matches(ts[1..], name[k..])
    else name != "" && One(ts[0], name[0]) && Matches(ts[1..], name[1..])
  }

  /** A character of a class, possibly escaped, and the rest of the pattern, which must not be empty. */
  function GetEsc(p: string): (r: Option<(char, string)>)
    ensures r.Some? ==> 0 < |r.value.1| < |p|
  {
    if p == "" || p[0] == '-' || p[0] == ']' then None
    else
      var q := if p[0] == '\\' then p[1..] else p;
      if |q| <= 1 then None else Some((q[0], q[1..]))
  }

  /** lo, or lo '-' hi. */
  function ParseRange(p: string): (r: Option<(Range, string)>)
    ensures r.Some? ==> 0 < |r.value.1| < |p|
  {
    match GetEsc(p)
    case None => None
    case Some((lo, q)) =>
      if q[0] == '-' then
        match GetEsc(q[1..])
        case None => None
        case Some((hi, q')) => Some((Range(lo, hi), q'))
      else Some((Range(lo, lo), q))
  }

  lemma EscTail(p: string)
    requires GetEsc(p).Some?
    ensures GetEsc(p).value.1 == p[|p| - |GetEsc(p).value.1|..]
  {}

  lemma RangeTail(p: string)
    requires ParseRange(p).Some?
    ensures ParseRange(p).value.1 == p[|p| - |ParseRange(p).value.1|..]
  {
    var q := GetEsc(p).value.1;
    EscTail(p);
    if q[0] == '-' { EscTail(q[1..]); }
  }

  /** The rest of a class, of which got have been read: it ends at the first ']' behind a range. */
  function ParseRanges(p: string, got: seq<Range>): (r: Option<(seq<Range>, string)>)
    ensures r.Some? ==> |r.value.1| < |p| && got <= r.value.0
    decreases |p|
  {
    if p != "" && p[0] == ']' && got != [] then Some((got, p[1..]))
    else match ParseRange(p)
      case None => None
      case Some((range, q)) => ParseRanges(q, got + [range])
  }

  function ParseTerm(p: string): (r: Option<(Term, string)>)
    requires p != ""
    ensures r.Some? ==> |r.value.1| < |p|
  {
    match p[0]
    case '*' => Some((Star, p[1..]))
    case '?' => Some((Any, p[1..]))
    case '[' =>
      var negated := |p| > 1 && p[1] == '^';
      (match ParseRanges(if negated then p[2..] else p[1..], [])
       case None => None
       case Some((ranges, q)) => Some((Class(negated, ranges), q)))
    case '\\' => if |p| == 1 then None else Some((Lit(p[1]), p[2..]))
    case c => Some((Lit(c), p[1..]))
  }

  /** The terms of a pattern; None if it is malformed. */
  function Parse(p: string): Option<seq<Term>>
    decreases |p|
  {
    if p == "" then Some([])
    else match ParseTerm(p)
      case None => None
      case Some((t, q)) => Prepend([t], Parse(q))
  }

  function Prepend(ts: seq<Term>, o: Option<seq<Term>>): Option<seq<Term>> {
    match o
    case None => None
    case Some(us) => Some(ts + us)
  }

  ghost predicate InLanguage(pattern: string, name: string) { Parse(pattern).Some? &&
      Matches(Parse(pattern).value, name) }

  // ------------------------------------------------------------------------- chunks

  predicate NoStar(ts: seq<Term>) { Star !in ts }

  /** s begins with characters that the terms of ts match one by one. */
  predicate Fits(ts: seq<Term>, s: string) { |ts| <= |s| && forall i :: 0 <= i < |ts| ==> One(ts[i], s[i]) }

  /** The outcome of matching a chunk: the rest of the name, no match, or a malformed chunk. */
  datatype Outcome = Rest(s: string) | NoMatch | BadPattern

  /** How far the chunk search in a pattern goes: up to the first star outside of brackets. */
  function Scan(p: string, inrange: bool): (n: nat)
    ensures n <= |p|
    decreases |p|
  {
    if p == "" then 0
    else match p[0]
      case '\\' => if |p| > 1 then 2 + Scan(p[2..], inrange) else 1
      case '[' => 1 + Scan(p[1..], true)
      case ']' => 1 + Scan(p[1..], false)
      case '*' => if !inrange then 0 else 1 + Scan(p[1..], inrange)
      case _ => 1 + Scan(p[1..], inrange)
  }

  /** A pattern taken apart: n stars, a chunk up to the next star outside of brackets, and the rest. */
  ghost predicate PartsOf(pattern: string, n: nat, chunk: string, rest: string) {
    var p := Stripped(pattern);
    n == |pattern| - |p| && chunk == p[..Scan(p, false)] && rest == p[Scan(p, false)..]
  }

  lemma ScanStep(p: string, i: nat, inrange: bool)
    requires i < |p|
    ensures Scan(p[i..], inrange) ==
      match p[i] {
        case '\\' => if i + 1 < |p| then 2 + Scan(p[i + 2..], inrange) else 1
        case '[' => 1 + Scan(p[i + 1..], true)
        case ']' => 1 + Scan(p[i + 1..], false)
        case '*' => if !inrange then 0 else 1 + Scan(p[i + 1..], inrange)
        case _ => 1 + Scan(p[i + 1..], inrange)
      }
  {
    assert p[i..][1..] == p[i + 1..];
    if i + 1 < |p| { assert p[i..][2..] == p[i + 2..]; }
  }

  /** The leading stars of a pattern. */
  method StripStars(pattern: string) returns (p: string, star: bool)
    ensures p == Stripped(pattern) && (star <==> |p| < |pattern|)
  {
    p := pattern;
    star := false;
    while |p| > 0 && p[0] == '*'
      invariant Stripped(p) == Stripped(pattern) && |p| <= |pattern|
      invariant star <==> |p| < |pattern|
      decreases |p|
    {
      p := p[1..];
      star := true;
    }
  }

  /** The next chunk of a pattern, the leading stars stripped. */
  method ScanChunk(pattern: string) returns (star: bool, chunk: string, rest: string)
    ensures PartsOf(pattern, |pattern| - |Stripped(pattern)|, chunk, rest)
    ensures (star <==> |Stripped(pattern)| < |pattern|) && (pattern != "" ==> |rest| < |pattern|)
    ensures pattern != "" && |chunk| == 0 ==> star
  {
    var p;
    p, star := StripStars(pattern);
    var inrange := false;
    var i := 0;
    while i < |p|
      invariant 0 <= i <= |p| && i + Scan(p[i..], inrange) == Scan(p, false)
    {
      ScanStep(p, i, inrange);
      match p[i] {
        case '\\' =>
          if i + 1 < |p| {
            i := i + 1;
          }
        case '[' => inrange := true;
        case ']' => inrange := false;
        case '*' =>
          if !inrange {
            break;
          }
        case _ =>
      }
      i := i + 1;
    }
    return star, p[..i], p[i..];
  }

  function Stripped(p: string): (q: string)
    ensures |q| <= |p|
  {
    if p != "" && p[0] == '*' then Stripped(p[1..]) else p
  }

  /** After the terms in done have each matched one character, chunk and s are left. */
  ghost predicate Partway(chunk0: string, s0: string, chunk: string, s: string, done: seq<Term>) {
    && Parse(chunk0) == Prepend(done, Parse(chunk))
    && |done| <= |s0| && s == s0[|done|..]
    && forall i :: 0 <= i < |done| && done[i] != Star ==> One(done[i], s0[i])
  }

  lemma NothingDone(chunk: string, s: string)
    ensures Partway(chunk, s, chunk, s, [])
  {
    if Parse(chunk).Some? { assert [] + Parse(chunk).value == Parse(chunk).value; }
  }

  lemma TermDone(chunk0: string, s0: string, chunk: string, s: string, done: seq<Term>, t: Term, q: string)
    requires Partway(chunk0, s0, chunk, s, done) && s != ""
    requires chunk != "" && ParseTerm(chunk) == Some((t, q)) && (t != Star ==> One(t, s[0]))
    ensures Partway(chunk0, s0, q, s[1..], done + [t])
  {
    PrependTwice(done, t, Parse(q));
  }

  lemma Misfit(chunk0: string, s0: string, chunk: string, s: string, done: seq<Term>)
    requires Partway(chunk0, s0, chunk, s, done) && chunk != ""
    requires s == "" || (ParseTerm(chunk).Some? && (ParseTerm(chunk).value.0 != Star ==>
      !One(ParseTerm(chunk).value.0, s[0])))
    ensures var o := Parse(chunk0); o.Some? && NoStar(o.value) ==> !Fits(o.value, s0)
  {
    if Parse(chunk0).Some? {
      var (t, q) := ParseTerm(chunk).value;
      PrependTwice(done, t, Parse(q));
      assert Parse(chunk0).value[|done|] == t;
    }
  }

  /** One term of a chunk against one character; a star is taken literally. */
  method MatchTerm(chunk: string, c: char) returns (bad: bool, fits: bool, rest: string)
    requires chunk != ""
    ensures bad <==> ParseTerm(chunk).None?
    ensures !bad ==> ParseTerm(chunk).value.1 == rest
    ensures !bad && ParseTerm(chunk).value.0 != Star ==> (fits <==> One(ParseTerm(chunk).value.0, c))
  {
    match chunk[0] {
      case '[' =>
        bad, fits, rest := MatchClass(chunk, c);
      case '?' =>
        bad, fits, rest := false, c != '/', chunk[1..];
      case '\\' =>
        bad, fits, rest := |chunk| == 1, false, "";
        if !bad {
          fits, rest := chunk[1] == c, chunk[2..];
        }
      case _ =>
        bad, fits, rest := false, chunk[0] == c, chunk[1..];
    }
  }

  /** Matches a chunk, whose terms match one character each, with the beginning of s0. */
  method MatchChunk(chunk0: string, s0: string) returns (r: Outcome)
    ensures var o := Parse(chunk0);
      match r {
        case Rest(s) => o.Some? && |o.value| <= |s0| && s == s0[|o.value|..] && (NoStar(o.value) ==> Fits(o.value, s0))
        case NoMatch => o.Some? && NoStar(o.value) ==> !Fits(o.value, s0)
        case BadPattern => o.None?
      }
  {
    var chunk, s := chunk0, s0;
    ghost var done: seq<Term> := [];
    NothingDone(chunk, s);
    while |chunk| > 0
      invariant Partway(chunk0, s0, chunk, s, done)
      decreases |chunk|
    {
      if |s| == 0 {
        Misfit(chunk0, s0, chunk, s, done);
        return NoMatch;
      }
      var bad, fits, rest := MatchTerm(chunk, s[0]);
      if bad {
        return BadPattern;
      }
      if !fits {
        Misfit(chunk0, s0, chunk, s, done);
        return NoMatch;
      }
      ghost var t := ParseTerm(chunk).value.0;
      TermDone(chunk0, s0, chunk, s, done, t, rest);
      s, chunk, done := s[1..], rest, done + [t];
    }
    return Rest(s);
  }

  lemma PrependTwice(done: seq<Term>, t: Term, o: Option<seq<Term>>)
    ensures Prepend(done, Prepend([t], o)) == Prepend(done + [t], o)
  {
    if o.Some? { assert done + ([t] + o.value) == done + [t] + o.value; }
  }

  /** A character class against the character r: reads all of its ranges. */
  method MatchClass(chunk0: string, r: char) returns (bad: bool, fits: bool, rest: string)
    requires chunk0 != "" && chunk0[0] == '['
    ensures bad <==> ParseTerm(chunk0).None?
    ensures !bad ==> ParseTerm(chunk0).value.1 == rest && (fits <==> One(ParseTerm(chunk0).value.0, r))
  {
    var chunk := chunk0[1..];
    var notNegated := true;
    if |chunk| > 0 && chunk[0] == '^' {
      notNegated := false;
      chunk := chunk[1..];
    }
    var matched, nrange := false, 0;
    ghost var got: seq<Range> := [];
    ghost var start := chunk;
    while true
      invariant ParseRanges(start, []) == ParseRanges(chunk, got) && nrange == |got|
      invariant matched <==> InRanges(got, r)
      decreases |chunk|
    {
      if |chunk| > 0 && chunk[0] == ']' && nrange > 0 {
        chunk := chunk[1..];
        break;
      }
      var e := GetEsc(chunk);
      if e.None? {
        return true, false, "";
      }
      var lo, hi;
      lo, chunk := e.value.0, e.value.1;
      hi := lo;
      if chunk[0] == '-' {
        e := GetEsc(chunk[1..]);
        if e.None? {
          return true, false, "";
        }
        hi, chunk := e.value.0, e.value.1;
      }
      if lo <= r <= hi {
        matched := true;
      }
      InRangesNext(got, Range(lo, hi), r);
      got := got + [Range(lo, hi)];
      nrange := nrange + 1;
    }
    return false, matched == notNegated, chunk;
  }

  lemma InRangesNext(ranges: seq<Range>, next: Range, c: char)
    ensures InRanges(ranges + [next], c) <==> InRanges(ranges, c) || next.lo <= c <= next.hi
  {
    var all := ranges + [next];
    if InRanges(ranges, c) {
      var i :| 0 <= i < |ranges| && ranges[i].lo <= c <= ranges[i].hi;
      assert all[i] == ranges[i];
    }
    if next.lo <= c <= next.hi { assert all[|ranges|] == next; }
  }

  // --------------------------------------------------------- patterns split at stars

  /** Parsing a character of a class does not look further than the character behind it. */
  lemma GetEscLocal(p: string, y: string)
    requires GetEsc(p).Some? && y != ""
    ensures var n := |p| - |GetEsc(p).value.1|; GetEsc(p[..n] + y) == Some((GetEsc(p).value.0, y))
  {
    var q := GetEsc(p).value.1;
    var n := |p| - |q|;
    assert (p[..n] + y)[n..] == y;
  }

  lemma LoneRangeLocal(p: string, lo: char, q: string, y: string)
    requires GetEsc(p) == Some((lo, q)) && y != "" && y[0] != '-'
    ensures ParseRange(p[..|p| - |q|] + y) == Some((Range(lo, lo), y))
  {
    GetEscLocal(p, y);
  }

  lemma RangePairLocal(p: string, lo: char, q: string, hi: char, r: string, y: string)
    requires GetEsc(p) == Some((lo, q)) && q[0] == '-' && GetEsc(q[1..]) == Some((hi, r)) && y != ""
    ensures ParseRange(p[..|p| - |r|] + y) == Some((Range(lo, hi), y))
  {
    var x := q[..|q| - |r|] + y;
    UpperEndLocal(q, hi, r, y);
    GetEscLocal(p, x);
    assert p[..|p| - |q|] + x == p[..|p| - |r|] + y;
    ReadPair(p[..|p| - |r|] + y, lo, x, hi, y);
  }

  lemma UpperEndLocal(q: string, hi: char, r: string, y: string)
    requires q != "" && GetEsc(q[1..]) == Some((hi, r)) && y != ""
    ensures var x := q[..|q| - |r|] + y; x[0] == q[0] && GetEsc(x[1..]) == Some((hi, y))
  {
    GetEscLocal(q[1..], y);
    assert (q[..|q| - |r|] + y)[1..] == q[1..][..|q| - 1 - |r|] + y;
  }

  lemma ReadPair(p: string, lo: char, q: string, hi: char, r: string)
    requires GetEsc(p) == Some((lo, q)) && q[0] == '-' && GetEsc(q[1..]) == Some((hi, r))
    ensures ParseRange(p) == Some((Range(lo, hi), r))
  {}

  lemma ParseRangeLocal(p: string, y: string)
    requires ParseRange(p).Some? && y != "" && y[0] == ParseRange(p).value.1[0]
    ensures var n := |p| - |ParseRange(p).value.1|; ParseRange(p[..n] + y) == Some((ParseRange(p).value.0, y))
  {
    var (lo, q) := GetEsc(p).value;
    if q[0] == '-' {
      var (hi, r) := GetEsc(q[1..]).value;
      RangePairLocal(p, lo, q, hi, r, y);
    } else {
      LoneRangeLocal(p, lo, q, y);
    }
  }

  lemma {:induction false} ParseRangesLocal(p: string, got: seq<Range>, y: string)
    requires ParseRanges(p, got).Some?
    ensures var n := |p| - |ParseRanges(p, got).value.1|;
      ParseRanges(p[..n] + y, got) == Some((ParseRanges(p, got).value.0, y))
    decreases |p|
  {
    if p != "" && p[0] == ']' && got != [] {
      assert (p[..1] + y)[1..] == y;
    } else {
      var (range, q) := ParseRange(p).value;
      ParseRangesLocal(q, got + [range], y);
      RangesLocal(p, got, range, q, ParseRanges(p, got).value.0, ParseRanges(p, got).value.1, y);
    }
  }

  lemma RangesLocal(p: string, got: seq<Range>, range: Range, q: string, all: seq<Range>, r: string, y: string)
    requires ParseRange(p) == Some((range, q)) && !(p[0] == ']' && got != [])
    requires |r| < |q| && ParseRanges(q[..|q| - |r|] + y, got + [range]) == Some((all, y))
    ensures ParseRanges(p[..|p| - |r|] + y, got) == Some((all, y))
  {
    RangeAgain(p, range, q, |r|, y);
    OneRangeMore(p[..|p| - |r|] + y, got, range, q[..|q| - |r|] + y);
  }

  /** The range is read alike when something else comes behind more than its end. */
  lemma RangeAgain(p: string, range: Range, q: string, n: nat, y: string)
    requires ParseRange(p) == Some((range, q)) && n < |q|
    ensures var w := p[..|p| - n] + y; w != "" && w[0] == p[0] && ParseRange(w) == Some((range, q[..|q| - n] + y))
  {
    var x := q[..|q| - n] + y;
    assert x[0] == q[0];
    RangeSplits(p, n, y);
    ParseRangeLocal(p, x);
  }

  lemma RangeSplits(p: string, n: nat, y: string)
    requires ParseRange(p).Some? && n <= |ParseRange(p).value.1|
    ensures var q := ParseRange(p).value.1;
      p[..|p| - |q|] + (q[..|q| - n] + y) == p[..|p| - n] + y && (p[..|p| - n] + y)[0] == p[0]
  {
    RangeTail(p);
    FrontSplits(p, |p| - |ParseRange(p).value.1|, |p| - n, y);
  }

  lemma OneRangeMore(p: string, got: seq<Range>, range: Range, q: string)
    requires ParseRange(p) == Some((range, q)) && !(p != "" && p[0] == ']' && got != [])
    ensures ParseRanges(p, got) == ParseRanges(q, got + [range])
  {}

  lemma FrontSplits(p: string, m: nat, n: nat, y: string)
    requires 0 < m <= n <= |p|
    ensures p[..m] + (p[m..][..n - m] + y) == p[..n] + y && (p[..n] + y)[0] == p[0]
  {}

  function ClassStart(p: string): nat { if |p| > 1 && p[1] == '^' then 2 else 1 }

  lemma ClassParses(p: string)
    requires p != "" && p[0] == '['
    ensures ParseTerm(p) == match ParseRanges(p[ClassStart(p)..], [])
      case None => None
      case Some((ranges, q)) => Some((Class(ClassStart(p) == 2, ranges), q))
  {}

  lemma ParseClassLocal(p: string, y: string)
    requires p != "" && p[0] == '[' && ParseTerm(p).Some?
    ensures var n := |p| - |ParseTerm(p).value.1|; ParseTerm(p[..n] + y) == Some((ParseTerm(p).value.0, y))
  {
    ClassParses(p);
    var n, k := |p| - |ParseTerm(p).value.1|, ClassStart(p);
    ParseRangesLocal(p[k..], [], y);
    ClassFront(p, k, n, y);
    ClassParses(p[..n] + y);
  }

  lemma ClassFront(p: string, k: nat, n: nat, y: string)
    requires 1 <= k < n <= |p|
    ensures (p[..n] + y)[k..] == p[k..][..n - k] + y && (p[..n] + y)[0] == p[0] && (p[..n] + y)[1] == p[1] &&
      |p[..n] + y| > 1
  {}

  /** A term is parsed the same whatever follows it. */
  lemma ParseTermLocal(p: string, y: string)
    requires p != "" && ParseTerm(p).Some?
    ensures var n := |p| - |ParseTerm(p).value.1|; ParseTerm(p[..n] + y) == Some((ParseTerm(p).value.0, y))
  {
    if p[0] == '[' {
      ParseClassLocal(p, y);
    } else {
      var n := |p| - |ParseTerm(p).value.1|;
      assert (p[..n] + y)[n..] == y && (p[..n] + y)[0] == p[0];
    }
  }

  /** What is left of a pattern after its first term. */
  lemma TermSuffix(p: string)
    requires p != "" && ParseTerm(p).Some?
    ensures var q := ParseTerm(p).value.1; q == p[|p| - |q|..]
  {
    if p[0] == '[' { RangesSuffix(if |p| > 1 && p[1] == '^' then p[2..] else p[1..], []); }
  }

  lemma {:induction false} RangesSuffix(p: string, got: seq<Range>)
    requires ParseRanges(p, got).Some?
    ensures var q := ParseRanges(p, got).value.1; q == p[|p| - |q|..]
    decreases |p|
  {
    if !(p != "" && p[0] == ']' && got != []) {
      RangesSuffix(ParseRange(p).value.1, got + [ParseRange(p).value.0]);
    }
  }

  lemma ParseStep(p: string, t: Term, q: string)
    requires p != "" && ParseTerm(p) == Some((t, q))
    ensures Parse(p) == Prepend([t], Parse(q))
  {}

  lemma TermThen(a: string, b: string, t: Term, q: string)
    requires a != "" && ParseTerm(a) == Some((t, q))
    ensures a + b != "" && ParseTerm(a + b) == Some((t, q + b))
  {
    TermSuffix(a);
    ParseTermLocal(a, q + b);
    assert a[..|a| - |q|] + (q + b) == a + b;
  }

  /** Parsing distributes over concatenation at a term boundary. */
  lemma {:induction false} ParseConcat(a: string, b: string)
    requires Parse(a).Some?
    ensures Parse(a + b) == Prepend(Parse(a).value, Parse(b))
    decreases |a|
  {
    if a == "" {
      assert a + b == b;
      if Parse(b).Some? { assert [] + Parse(b).value == Parse(b).value; }
    } else {
      var t, q := ParseTerm(a).value.0, ParseTerm(a).value.1;
      ParseStep(a, t, q);
      TermThen(a, b, t, q);
      ParseStep(a + b, t, q + b);
      ParseConcat(q, b);
      PrependAssoc(t, Parse(q).value, Parse(b));
    }
  }

  lemma PrependAssoc(t: Term, ts: seq<Term>, o: Option<seq<Term>>)
    ensures Prepend([t], Prepend(ts, o)) == Prepend([t] + ts, o)
  {
    if o.Some? { assert [t] + (ts + o.value) == [t] + ts + o.value; }
  }

  /** Inside brackets the scan passes over one character of a class at a time. */
  lemma ScanEsc(p: string)
    requires GetEsc(p).Some?
    ensures Scan(p, true) == |p| - |GetEsc(p).value.1| + Scan(GetEsc(p).value.1, true)
  {}

  lemma {:induction false} ScanRanges(p: string, got: seq<Range>)
    requires ParseRanges(p, got).Some?
    ensures var q := ParseRanges(p, got).value.1; Scan(p, true) == |p| - |q| + Scan(q, false)
    decreases |p|
  {
    if !(p != "" && p[0] == ']' && got != []) {
      var q := ParseRange(p).value.1;
      ScanEsc(p);
      var q1 := GetEsc(p).value.1;
      if q1[0] == '-' { ScanEsc(q1[1..]); }
      ScanRanges(q, got + [ParseRange(p).value.0]);
    }
  }

  lemma ScanClass(p: string)
    requires p != "" && p[0] == '[' && ParseTerm(p).Some?
    ensures Scan(p, false) == |p| - |ParseTerm(p).value.1| + Scan(ParseTerm(p).value.1, false)
  {
    var k, q := ClassRanges(p);
    ScanBracket(p);
    ScanRanges(p[k..], []);
    if k == 2 { ScanCaret(p[1..]); assert p[1..][1..] == p[2..]; }
  }

  lemma ClassRanges(p: string) returns (k: nat, q: string)
    requires p != "" && p[0] == '[' && ParseTerm(p).Some?
    ensures k == (if |p| > 1 && p[1] == '^' then 2 else 1)
    ensures ParseRanges(p[k..], []).Some? && q == ParseRanges(p[k..], []).value.1 == ParseTerm(p).value.1
  {
    k := if |p| > 1 && p[1] == '^' then 2 else 1;
    q := ParseTerm(p).value.1;
  }

  lemma ScanBracket(p: string)
    requires p != "" && p[0] == '['
    ensures Scan(p, false) == 1 + Scan(p[1..], true)
  {}

  lemma ScanCaret(p: string)
    requires p != "" && p[0] == '^'
    ensures Scan(p, true) == 1 + Scan(p[1..], true)
  {}

  /** Outside of brackets it passes over one term at a time. */
  lemma ScanTerm(p: string)
    requires p != "" && p[0] != '*' && ParseTerm(p).Some?
    ensures var q := ParseTerm(p).value.1; Scan(p, false) == |p| - |q| + Scan(q, false)
  {
    if p[0] == '[' { ScanClass(p); }
  }

  /** Only the character * is a star. */
  lemma StarTerm(p: string)
    requires p != "" && ParseTerm(p).Some?
    ensures ParseTerm(p).value.0 == Star <==> p[0] == '*'
  {}

  lemma ParseCons(p: string, t: Term, q: string, us: seq<Term>)
    requires p != "" && ParseTerm(p) == Some((t, q)) && Parse(q) == Some(us)
    ensures Parse(p) == Some([t] + us)
  {}

  lemma ParseUncons(p: string, ts: seq<Term>) returns (t: Term, q: string, us: seq<Term>)
    requires p != "" && Parse(p) == Some(ts)
    ensures ParseTerm(p) == Some((t, q)) && Parse(q) == Some(us) && ts == [t] + us && |q| < |p|
  {
    t, q := ParseTerm(p).value.0, ParseTerm(p).value.1;
    us := Parse(q).value;
  }

  /** Where the scan stops, n characters on, a well-formed pattern is split at its first star. */
  ghost predicate Splits(p: string, ts: seq<Term>, n: nat) {
    && n <= |p| && Parse(p[..n]).Some? && Parse(p[n..]).Some?
    && |Parse(p[..n]).value| <= |ts|
    && Parse(p[..n]).value == ts[..|Parse(p[..n]).value|] && Parse(p[n..]).value == ts[|Parse(p[..n]).value|..]
  }

  lemma {:induction false} ScanSplits(p: string, ts: seq<Term>)
    requires Parse(p) == Some(ts)
    ensures Splits(p, ts, Scan(p, false))
    decreases |p|
  {
    ScanSplitsAt(p, ts, Scan(p, false));
  }

  /** How far the scan goes, term by term. */
  lemma ScanOn(p: string, t: Term, q: string, n: nat) returns (k: nat)
    requires p != "" && p[0] != '*' && ParseTerm(p) == Some((t, q)) && n == Scan(p, false)
    ensures k == Scan(q, false) && n == |p| - |q| + k
  {
    ScanTerm(p);
    k := Scan(q, false);
  }

  lemma {:induction false} ScanSplitsAt(p: string, ts: seq<Term>, n: nat)
    requires Parse(p) == Some(ts) && n == Scan(p, false)
    ensures Splits(p, ts, n)
    decreases |p|
  {
    if p == "" || p[0] == '*' {
      SplitsAtStart(p, ts);
    } else {
      var t, q, us := ParseUncons(p, ts);
      var k := ScanOn(p, t, q, n);
      ScanSplitsAt(q, us, k);
      SplitsBehind(p, t, q, us, k, n);
    }
  }

  lemma SplitsBehind(p: string, t: Term, q: string, us: seq<Term>, k: nat, n: nat)
    requires p != "" && ParseTerm(p) == Some((t, q)) && Splits(q, us, k) && n == |p| - |q| + k
    ensures Splits(p, [t] + us, n)
  {
    TermSuffix(p);
    SplitsOn(p, t, q, us, k);
  }

  lemma SplitsAtStart(p: string, ts: seq<Term>)
    requires Parse(p) == Some(ts)
    ensures Splits(p, ts, 0)
  {
    var none, all := p[..0], p[0..];
    assert none == "";
    assert all == p;
    assert ts[..0] == [];
    assert ts[0..] == ts;
  }

  lemma PrefixTerms(p: string, t: Term, q: string, k: nat)
    requires p != "" && ParseTerm(p) == Some((t, q)) && q == p[|p| - |q|..] && k <= |q| && Parse(q[..k]).Some?
    ensures Parse(p[..|p| - |q| + k]) == Some([t] + Parse(q[..k]).value)
  {
    Spliced(p, q, k);
    PieceTerms(p, t, q, q[..k], Parse(q[..k]).value);
  }

  lemma Spliced(p: string, q: string, k: nat)
    requires k <= |q| <= |p| && q == p[|p| - |q|..]
    ensures p[..|p| - |q| + k] == p[..|p| - |q|] + q[..k]
  {}

  lemma PieceTerms(p: string, t: Term, q: string, y: string, us: seq<Term>)
    requires p != "" && ParseTerm(p) == Some((t, q)) && Parse(y) == Some(us)
    ensures Parse(p[..|p| - |q|] + y) == Some([t] + us)
  {
    ParseTermLocal(p, y);
    ParseCons(p[..|p| - |q|] + y, t, y, us);
  }

  lemma SplitsOn(p: string, t: Term, q: string, us: seq<Term>, k: nat)
    requires p != "" && ParseTerm(p) == Some((t, q)) && q == p[|p| - |q|..] && Splits(q, us, k)
    ensures Splits(p, [t] + us, |p| - |q| + k)
  {
    PrefixTerms(p, t, q, k);
    assert p[|p| - |q| + k..] == q[k..];
    OneTermMore(t, us, Parse(q[..k]).value);
  }

  lemma OneTermMore(t: Term, us: seq<Term>, cs: seq<Term>)
    requires |cs| <= |us| && cs == us[..|cs|]
    ensures ([t] + us)[..1 + |cs|] == [t] + cs && ([t] + us)[1 + |cs|..] == us[|cs|..]
  {}

  /** The scan of what it has passed over does not stop earlier. */
  lemma {:induction false} ScanAgain(p: string, inrange: bool)
    ensures var n := Scan(p, inrange); Scan(p[..n], inrange) == n
    decreases |p|
  {
    var n := Scan(p, inrange);
    if n > 0 {
      if p[0] == '\\' && |p| > 1 {
        ScanAgain(p[2..], inrange);
        assert p[..n][2..] == p[2..][..n - 2];
      } else if p[0] != '\\' {
        ScanAgain(p[1..], if p[0] == '[' then true else if p[0] == ']' then false else inrange);
        assert p[..n][1..] == p[1..][..n - 1];
      }
    }
  }

  lemma {:induction false} ScannedHasNoStar(q: string, ts: seq<Term>)
    requires Parse(q) == Some(ts) && Scan(q, false) == |q|
    ensures NoStar(ts)
    decreases |q|
  {
    if q != "" {
      var t, r, us := ParseUncons(q, ts);
      StarTerm(q);
      StarStops(q);
      ScanTerm(q);
      ScannedHasNoStar(r, us);
    }
  }

  lemma StarStops(q: string)
    requires q != "" && Scan(q, false) == |q|
    ensures q[0] != '*'
  {}

  // ------------------------------------------------------- leftmost placement is enough

  /** Chunks match character by character. */
  lemma {:induction false} MatchesChunk(cs: seq<Term>, rs: seq<Term>, name: string)
    requires NoStar(cs)
    ensures Matches(cs + rs, name) <==> Fits(cs, name) && Matches(rs, name[|cs|..])
  {
    if cs == [] {
      assert cs + rs == rs;
      assert name[0..] == name;
    } else {
      assert (cs + rs)[1..] == cs[1..] + rs;
      if name != "" {
        MatchesChunk(cs[1..], rs, name[1..]);
        FitsCons(cs, name);
        if |cs| <= |name| { assert name[1..][|cs| - 1..] == name[|cs|..]; }
      }
    }
  }

  lemma FitsCons(cs: seq<Term>, name: string)
    requires cs != [] && name != ""
    ensures Fits(cs, name) <==> One(cs[0], name[0]) && Fits(cs[1..], name[1..])
  {
    if One(cs[0], name[0]) && Fits(cs[1..], name[1..]) {
      forall i | 0 <= i < |cs| ensures One(cs[i], name[i]) {
        if i > 0 { assert cs[i] == cs[1..][i - 1] && name[i] == name[1..][i - 1]; }
      }
    }
    if Fits(cs, name) {
      forall i | 0 <= i < |cs| - 1 ensures One(cs[1..][i], name[1..][i]) { assert One(cs[i + 1], name[i + 1]); }
    }
  }

  lemma NoSlashAt(s: string, k: nat, i: nat)
    requires i < k <= |s| && NoSlash(s[..k])
    ensures s[i] != '/'
  {
    assert s[..k][i] in s[..k];
  }

  lemma NoSlashBelow(s: string, k: nat)
    requires k <= |s| && NoSlash(s[..k])
    ensures forall i :: 0 <= i < k ==> s[i] != '/'
  {
    forall i | 0 <= i < k ensures s[i] != '/' { NoSlashAt(s, k, i); }
  }

  /** No class of the chunk matches a slash. */
  predicate SlashFree(cs: seq<Term>) { forall i :: 0 <= i < |cs| && cs[i].Class? ==> !One(cs[i], '/') }

  /** Between two places where a chunk fits, the first reached from the beginning without a slash,
      no slash is lost. */
  lemma NoSlashBetween(cs: seq<Term>, name: string, k0: nat, k: nat, x: nat)
    requires NoStar(cs) && SlashFree(cs) && k0 <= k <= |name| && NoSlash(name[..k])
    requires Fits(cs, name[k0..]) && Fits(cs, name[k..]) && k0 + |cs| <= x < k + |cs|
    ensures name[x] != '/'
  {
    if name[x] == '/' {
      if x < k {
        NoSlashAt(name, k, x);
      } else {
        SlashIsLiteral(cs, name, k, x - k);
        FirstSlash(cs, x - k, name, k0, k);
      }
    }
  }

  lemma SlashIsLiteral(cs: seq<Term>, name: string, k: nat, i: nat)
    requires SlashFree(cs) && k <= |name| && Fits(cs, name[k..]) && i < |cs| && name[k + i] == '/'
    ensures cs[i] == Lit('/')
  {
    assert One(cs[i], name[k..][i]);
  }

  lemma NotBefore(cs: seq<Term>, i: nat, name: string, k0: nat, k: nat)
    requires k0 <= k <= |name| && NoSlash(name[..k]) && i < |cs| && cs[i] == Lit('/') && Fits(cs, name[k0..])
    ensures k0 + i >= k && name[k0 + i] == '/'
  {
    NoSlashBelow(name, k);
    assert One(cs[i], name[k0..][i]);
  }

  /** A literal slash pins the chunk to one place. */
  lemma {:induction false} FirstSlash(cs: seq<Term>, i: nat, name: string, k0: nat, k: nat)
    requires SlashFree(cs) && k0 <= k <= |name| && NoSlash(name[..k]) && i < |cs| && cs[i] == Lit('/')
    requires Fits(cs, name[k0..]) && Fits(cs, name[k..])
    ensures k0 == k
    decreases i
  {
    NotBefore(cs, i, name, k0, k);
    if k0 < k {
      SlashIsLiteral(cs, name, k, k0 + i - k);
      FirstSlash(cs, k0 + i - k, name, k0, k);
    }
  }

  /** c can stand at position i of a word in which the chunk fits at 0 and at d, with no slash before d. */
  predicate FitsBoth(cs: seq<Term>, d: nat, i: nat, c: char) {
    (i < |cs| ==> One(cs[i], c)) && (d <= i < d + |cs| ==> One(cs[i - d], c)) && (i < d ==> c != '/')
  }

  ghost predicate HasBoth(cs: seq<Term>, d: nat, i: nat) { exists c: char :: FitsBoth(cs, d, i, c) }

  /** The chunk fits a second time, d characters on, over a slash that is behind its first place. */
  ghost predicate Shifts(cs: seq<Term>, d: nat) {
    && 0 < d <= |cs| && (forall i: nat :: i < |cs| + d ==> HasBoth(cs, d, i))
    && exists i :: |cs| - d <= i < |cs| && One(cs[i], '/')
  }

  ghost predicate Shiftable(cs: seq<Term>) { exists d: nat :: Shifts(cs, d) }

  /** The same of a word: cs fits it at 0 and at d. */
  ghost predicate ShiftedIn(cs: seq<Term>, d: nat, w: string) {
    0 < d && |w| == |cs| + d && Fits(cs, w) && Fits(cs, w[d..]) && NoSlash(w[..d]) && !NoSlash(w[|cs|..])
  }

  lemma ShortShift(cs: seq<Term>, d: nat, w: string)
    requires ShiftedIn(cs, d, w) && d <= |cs|
    ensures Shifts(cs, d)
  {
    NoSlashBelow(w, d);
    forall i: nat | i < |cs| + d ensures HasBoth(cs, d, i) {
      if i >= d { assert One(cs[i - d], w[d..][i - d]); }
      assert FitsBoth(cs, d, i, w[i]);
    }
    var x :| 0 <= x < |w[|cs|..]| && w[|cs|..][x] == '/';
    assert One(cs[|cs| + x - d], w[d..][|cs| + x - d]);
  }

  /** Beyond its length a chunk need not be shifted. */
  lemma WordShifts(cs: seq<Term>, d: nat, w: string)
    requires ShiftedIn(cs, d, w)
    ensures Shiftable(cs)
  {
    if d <= |cs| {
      ShortShift(cs, d, w);
    } else {
      var x :| 0 <= x < |w[|cs|..]| && w[|cs|..][x] == '/';
      NoSlashBelow(w, d);
      assert |cs| + x >= d && w[d..][|cs| + x - d] == '/';
      CloserShift(cs, d, w);
    }
  }

  lemma CloserShift(cs: seq<Term>, d: nat, w: string)
    requires ShiftedIn(cs, d, w) && d > |cs| > 0 && !NoSlash(w[d..])
    ensures Shiftable(cs)
  {
    var v := w[..|cs|] + w[d..];
    assert v[|cs|..] == w[d..] && v[..|cs|] == w[..|cs|];
    NoSlashBelow(w, d);
    ShortShift(cs, |cs|, v);
  }

  /** A chunk whose classes do not match a slash cannot be shifted. */
  lemma SlashFreeStays(cs: seq<Term>)
    requires NoStar(cs) && SlashFree(cs)
    ensures !Shiftable(cs)
  {
    forall d: nat ensures !Shifts(cs, d) {
      if Shifts(cs, d) {
        var w := ShiftWord(cs, d);
        var x :| 0 <= x < |w[|cs|..]| && w[|cs|..][x] == '/';
        assert w[0..] == w;
        NoSlashBetween(cs, w, 0, d, |cs| + x);
      }
    }
  }

  /** A word for a shift. */
  lemma ShiftWord(cs: seq<Term>, d: nat) returns (w: string)
    requires Shifts(cs, d)
    ensures ShiftedIn(cs, d, w)
  {
    var i :| |cs| - d <= i < |cs| && One(cs[i], '/');
    assert FitsBoth(cs, d, i + d, '/');
    w := FirstPart(cs, d, i + d, |cs| + d);
    assert w[|cs|..][i + d - |cs|] == '/';
    forall j | 0 <= j < |cs| ensures One(cs[j], w[j]) && One(cs[j], w[d..][j]) {
      assert FitsBoth(cs, d, j, w[j]) && FitsBoth(cs, d, j + d, w[j + d]);
    }
    forall j | 0 <= j < d ensures w[..d][j] != '/' { assert FitsBoth(cs, d, j, w[j]); }
  }

  /** Its first n characters, a slash at x. */
  lemma {:induction false} FirstPart(cs: seq<Term>, d: nat, x: nat, n: nat) returns (w: string)
    requires Shifts(cs, d) && n <= |cs| + d && FitsBoth(cs, d, x, '/')
    ensures |w| == n && (forall i: nat :: i < n ==> FitsBoth(cs, d, i, w[i])) && (x < n ==> w[x] == '/')
  {
    if n == 0 {
      w := "";
    } else {
      var v := FirstPart(cs, d, x, n - 1);
      assert HasBoth(cs, d, n - 1);
      var c: char :| FitsBoth(cs, d, n - 1, c);
      w := v + [if n - 1 == x then '/' else c];
    }
  }

  /** If a chunk between two stars cannot be shifted and can be placed so that the rest matches, its
      leftmost place will do. */
  lemma LeftmostWillDo(cs: seq<Term>, rs: seq<Term>, name: string, k0: nat, k: nat)
    requires !Shiftable(cs) && rs != [] && rs[0] == Star && k0 <= k <= |name| && NoSlash(name[..k])
    requires Fits(cs, name[k0..]) && Fits(cs, name[k..]) && Matches(rs, name[k + |cs|..])
    ensures Matches(rs, name[k0 + |cs|..])
  {
    if k0 < k {
      var w := name[k0..k + |cs|];
      PieceFits(cs, name, k0, k);
      if !NoSlash(w[|cs|..]) { WordShifts(cs, k - k0, w); }
      assert name[k0 + |cs|..][..k - k0] == w[|cs|..] && name[k0 + |cs|..][k - k0..] == name[k + |cs|..];
      StarTakes(rs, name[k0 + |cs|..], k - k0);
    }
  }

  lemma PieceFits(cs: seq<Term>, name: string, k0: nat, k: nat)
    requires k0 < k <= |name| && NoSlash(name[..k]) && Fits(cs, name[k0..]) && Fits(cs, name[k..])
    ensures var w := name[k0..k + |cs|];
      |w| == |cs| + (k - k0) && Fits(cs, w) && Fits(cs, w[k - k0..]) && NoSlash(w[..k - k0])
  {
    var w := name[k0..k + |cs|];
    forall i | 0 <= i < |cs| ensures One(cs[i], w[i]) && One(cs[i], w[k - k0..][i]) {
      assert One(cs[i], name[k0..][i]) && One(cs[i], name[k..][i]);
    }
    NoSlashBelow(name, k);
  }

  /** A star takes what comes before a match, if it has no slash. */
  lemma StarTakes(rs: seq<Term>, t: string, k: nat)
    requires rs != [] && rs[0] == Star && k <= |t| && NoSlash(t[..k]) && Matches(rs, t[k..])
    ensures Matches(rs, t)
  {
    var u := t[k..];
    var j :| 0 <= j <= |u| && NoSlash(u[..j]) && Matches(rs[1..], u[j..]);
    assert t[k + j..] == u[j..] && t[..k + j] == t[..k] + u[..j];
    assert NoSlash(t[..k + j]) && Matches(rs[1..], t[k + j..]);
  }

  // -------------------------------------------------------------- leading stars

  /** ts, where a star may come first. */
  ghost predicate StarMatches(star: bool, ts: seq<Term>, name: string) {
    if star then exists k :: 0 <= k <= |name| && NoSlash(name[..k]) && Matches(ts, name[k..]) else Matches(ts, name)
  }

  lemma TwoStars(more: bool, ts: seq<Term>, us: seq<Term>, name: string)
    requires forall k :: 0 <= k <= |name| ==> (Matches(ts, name[k..]) <==> StarMatches(more, us, name[k..]))
    ensures StarMatches(true, ts, name) <==> StarMatches(true, us, name)
  {
    if k :| 0 <= k <= |name| && NoSlash(name[..k]) && Matches(ts, name[k..]) {
      if more { StarOn(us, name, k); }
    }
    if k :| 0 <= k <= |name| && NoSlash(name[..k]) && Matches(us, name[k..]) {
      EmptyStar(us, name[k..]);
      assert StarMatches(more, us, name[k..]);
    }
  }

  lemma EmptyStar(us: seq<Term>, s: string)
    requires Matches(us, s)
    ensures StarMatches(true, us, s)
  {
    var k := 0;
    assert NoSlash(s[..k]);
    assert s[k..] == s;
  }

  lemma StarOn(us: seq<Term>, name: string, k: nat)
    requires k <= |name| && NoSlash(name[..k]) && StarMatches(true, us, name[k..])
    ensures StarMatches(true, us, name)
  {
    var s := name[k..];
    var j :| 0 <= j <= |s| && NoSlash(s[..j]) && Matches(us, s[j..]);
    assert name[k + j..] == s[j..];
    assert name[..k + j] == name[..k] + s[..j];
  }

  /** The terms of a pattern taken apart: n stars, a chunk without any, and a rest that is empty or begins with one. */
  ghost predicate Decomposes(ts: seq<Term>, n: nat, cs: seq<Term>, rs: seq<Term>) {
    && |ts| == n + |cs| + |rs| && NoStar(cs) && (rs != [] ==> rs[0] == Star)
    && (forall i :: 0 <= i < n ==> ts[i] == Star)
    && (forall i :: 0 <= i < |cs| ==> ts[n + i] == cs[i])
    && forall i :: 0 <= i < |rs| ==> ts[n + |cs| + i] == rs[i]
  }

  /** Any number of leading stars is as good as one. */
  lemma {:induction false} MatchesParts(ts: seq<Term>, n: nat, cs: seq<Term>, rs: seq<Term>, name: string)
    requires Decomposes(ts, n, cs, rs)
    ensures Matches(ts, name) <==> StarMatches(n > 0, cs + rs, name)
    decreases n
  {
    if n == 0 {
      assert ts == cs + rs;
    } else {
      var us := ts[1..];
      assert Decomposes(us, n - 1, cs, rs);
      forall k | 0 <= k <= |name| ensures Matches(us, name[k..]) <==> StarMatches(n > 1, cs + rs, name[k..]) {
        MatchesParts(us, n - 1, cs, rs, name[k..]);
      }
      TwoStars(n > 1, us, cs + rs, name);
    }
  }

  // ------------------------------------------------------------------- placing a chunk

  /** No chunk between two stars can be shifted. */
  ghost predicate Steady(ts: seq<Term>) {
    forall a, b :: 0 <= a < b < |ts| && ts[a] == Star && ts[b] == Star && NoStar(ts[a + 1..b]) ==>
      !Shiftable(ts[a + 1..b])
  }

  ghost predicate Hopeless(t: Term) { t != Star && forall c: char :: !One(t, c) }

  /** Some term matches no character, so that no name matches. */
  ghost predicate Barren(ts: seq<Term>) { exists i :: 0 <= i < |ts| && Hopeless(ts[i]) }

  /** What the answer is exact for. */
  ghost predicate Exact(ts: seq<Term>) { Barren(ts) || Steady(ts) }

  lemma SteadyParts(ts: seq<Term>, n: nat, cs: seq<Term>, rs: seq<Term>)
    requires Steady(ts) && Decomposes(ts, n, cs, rs)
    ensures Steady(rs) && (n > 0 && rs != [] ==> !Shiftable(cs))
  {
    var m := n + |cs|;
    forall a, b | 0 <= a < b < |rs| && rs[a] == Star && rs[b] == Star && NoStar(rs[a + 1..b])
      ensures !Shiftable(rs[a + 1..b])
    {
      assert ts[m + a] == rs[a] && ts[m + b] == rs[b];
      SamePiece(ts, m, rs, a + 1, b);
    }
    if n > 0 && rs != [] {
      assert ts[n - 1] == Star && ts[m + 0] == rs[0];
      assert ts[n - 1 + 1..m] == cs;
    }
  }

  lemma SamePiece(ts: seq<Term>, m: nat, rs: seq<Term>, a: nat, b: nat)
    requires |ts| == m + |rs| && (forall i :: 0 <= i < |rs| ==> ts[m + i] == rs[i]) && a <= b <= |rs|
    ensures ts[m + a..m + b] == rs[a..b]
  {}

  /** No class that matches a slash stands between two stars: a simple test that suffices. */
  ghost predicate Safe(ts: seq<Term>) {
    forall a, i, b :: 0 <= a < i < b < |ts| && ts[a] == Star && ts[b] == Star && ts[i].Class? ==> !One(ts[i], '/')
  }

  lemma SafeIsSteady(ts: seq<Term>)
    requires Safe(ts)
    ensures Steady(ts)
  {
    forall a, b | 0 <= a < b < |ts| && ts[a] == Star && ts[b] == Star && NoStar(ts[a + 1..b])
      ensures !Shiftable(ts[a + 1..b])
    {
      var cs := ts[a + 1..b];
      forall i | 0 <= i < |cs| && cs[i].Class? ensures !One(cs[i], '/') { assert ts[a + 1 + i] == cs[i]; }
      SlashFreeStays(cs);
    }
  }

  /** A name that matches needs a character for every term. */
  lemma {:induction false} BarrenNever(ts: seq<Term>, name: string)
    requires Barren(ts)
    ensures !Matches(ts, name)
    decreases |ts|
  {
    var i :| 0 <= i < |ts| && Hopeless(ts[i]);
    if i > 0 {
      assert Hopeless(ts[1..][i - 1]);
      if ts[0].Star? {
        forall k | 0 <= k <= |name| ensures !Matches(ts[1..], name[k..]) { BarrenNever(ts[1..], name[k..]); }
      } else if name != "" {
        BarrenNever(ts[1..], name[1..]);
      }
    }
  }

  /** Where a chunk may be placed: behind what a star matches, or at the beginning. */
  predicate Reaches(star: bool, name: string, k: nat) { k <= |name| && if star then NoSlash(name[..k]) else k == 0 }

  /** Placing the chunk anywhere is sound. */
  lemma PlacedSoundly(ts: seq<Term>, n: nat, cs: seq<Term>, rs: seq<Term>, name: string, k: nat)
    requires Decomposes(ts, n, cs, rs) && Reaches(n > 0, name, k) && Fits(cs, name[k..]) &&
      Matches(rs, name[k + |cs|..])
    ensures Matches(ts, name)
  {
    MatchesParts(ts, n, cs, rs, name);
    MatchesChunk(cs, rs, name[k..]);
    assert name[k..][|cs|..] == name[k + |cs|..];
    if n == 0 { assert name[k..] == name; }
  }

  /** A name that matches has a place for the chunk from which the rest matches. */
  lemma SomePlace(ts: seq<Term>, n: nat, cs: seq<Term>, rs: seq<Term>, name: string) returns (k: nat)
    requires Decomposes(ts, n, cs, rs) && Matches(ts, name)
    ensures Reaches(n > 0, name, k) && Fits(cs, name[k..]) && Matches(rs, name[k + |cs|..])
  {
    MatchesParts(ts, n, cs, rs, name);
    k := 0;
    if n > 0 { k :| 0 <= k <= |name| && NoSlash(name[..k]) && Matches(cs + rs, name[k..]); }
      else { assert name[k..] == name; }
    MatchesChunk(cs, rs, name[k..]);
    assert name[k..][|cs|..] == name[k + |cs|..];
  }

  /** The chunk does not fit at k, or it is the last one and falls short of the end of the name. */
  predicate Misses(cs: seq<Term>, last: bool, name: string, k: nat)
    requires k <= |name|
  {
    Fits(cs, name[k..]) ==> last && k + |cs| < |name|
  }

  /** Taking the leftmost place of a chunk behind a star, or the only one otherwise, loses nothing;
      the last chunk has to end where the name does. */
  lemma PlacedCompletely(ts: seq<Term>, n: nat, cs: seq<Term>, rs: seq<Term>, name: string, k0: nat)
    requires Decomposes(ts, n, cs, rs) && Steady(ts) && Matches(ts, name)
    requires Reaches(n > 0, name, k0) && Fits(cs, name[k0..]) && (rs == [] ==> k0 + |cs| == |name|)
    requires rs != [] ==> forall j :: 0 <= j < k0 ==> Misses(cs, false, name, j)
    ensures Matches(rs, name[k0 + |cs|..])
  {
    if rs != [] {
      var k := SomePlace(ts, n, cs, rs, name);
      SteadyParts(ts, n, cs, rs);
      if k < k0 { var here := Misses(cs, false, name, k); }
      if n > 0 { LeftmostWillDo(cs, rs, name, k0, k); }
    }
  }

  /** A star at the very end of the pattern. */
  lemma TrailingStar(ts: seq<Term>, n: nat, name: string)
    requires n > 0 && Decomposes(ts, n, [], [])
    ensures Matches(ts, name) <==> NoSlash(name)
  {
    if NoSlash(name) {
      assert name[..|name|] == name;
      PlacedSoundly(ts, n, [], [], name, |name|);
    }
    if Matches(ts, name) {
      var k := SomePlace(ts, n, [], [], name);
      assert name[..k] == name;
    }
  }

  // ------------------------------------------------------------------ the parts of a pattern

  lemma {:induction false} StrippedStarts(p: string)
    ensures Stripped(p) != "" ==> Stripped(p)[0] != '*'
  {
    if p != "" && p[0] == '*' { StrippedStarts(p[1..]); }
  }

  lemma {:induction false} ScanStopsAtStar(p: string, inrange: bool)
    ensures Scan(p, inrange) < |p| ==> p[Scan(p, inrange)] == '*'
    decreases |p|
  {
    if p != "" {
      if p[0] == '\\' {
        if |p| > 1 { ScanStopsAtStar(p[2..], inrange); }
      } else if p[0] != '*' || inrange {
        ScanStopsAtStar(p[1..], if p[0] == '[' then true else if p[0] == ']' then false else inrange);
      }
    }
  }

  lemma BeginsWithStar(q: string, rs: seq<Term>)
    requires Parse(q) == Some(rs) && (q != "" ==> q[0] == '*')
    ensures (rs == [] <==> q == "") && (rs != [] ==> rs[0] == Star)
  {}

  /** Without leading stars: a well-formed pattern is a well-formed chunk and a well-formed rest. */
  lemma ChunkTerms(p: string, chunk: string, rest: string) returns (cs: seq<Term>, rs: seq<Term>)
    requires Parse(p).Some? && chunk == p[..Scan(p, false)] && rest == p[Scan(p, false)..]
    ensures Parse(chunk) == Some(cs) && Parse(rest) == Some(rs) && Decomposes(Parse(p).value, 0, cs, rs) &&
      (rs == [] <==> rest == "")
  {
    var ts, k := Parse(p).value, Scan(p, false);
    ScanSplits(p, ts);
    cs, rs := Parse(chunk).value, Parse(rest).value;
    ScanAgain(p, false);
    ScannedHasNoStar(chunk, cs);
    ScanStopsAtStar(p, false);
    BeginsWithStar(rest, rs);
  }

  /** And the other way round. */
  lemma ChunkTogether(p: string, chunk: string, rest: string, cs: seq<Term>, rs: seq<Term>)
    requires chunk == p[..Scan(p, false)] && rest == p[Scan(p, false)..] && Parse(chunk) == Some(cs) &&
      Parse(rest) == Some(rs)
    ensures Parse(p) == Some(cs + rs)
  {
    ParseConcat(chunk, rest);
    Rejoined(p, Scan(p, false), Some(cs + rs));
  }

  lemma Rejoined(p: string, n: nat, o: Option<seq<Term>>)
    requires n <= |p| && Parse(p[..n] + p[n..]) == o
    ensures Parse(p) == o
  {
    assert p[..n] + p[n..] == p;
  }

  lemma StarFirst(p: string)
    requires p != "" && p[0] == '*'
    ensures Parse(p) == Prepend([Star], Parse(p[1..])) && Stripped(p) == Stripped(p[1..])
  {}

  lemma {:induction false} StrippedParses(pattern: string)
    ensures Parse(pattern).Some? <==> Parse(Stripped(pattern)).Some?
  {
    if pattern != "" && pattern[0] == '*' {
      StarFirst(pattern);
      StrippedParses(pattern[1..]);
    }
  }

  lemma OneStarMore(ts: seq<Term>, n: nat, cs: seq<Term>, rs: seq<Term>)
    requires Decomposes(ts, n, cs, rs)
    ensures Decomposes([Star] + ts, n + 1, cs, rs)
  {
    var us := [Star] + ts;
    assert forall i :: 0 <= i < |ts| ==> us[i + 1] == ts[i];
    forall i | 0 <= i < n + 1 ensures us[i] == Star {
      if i > 0 { assert us[i] == ts[i - 1]; }
    }
  }

  lemma {:induction false} StrippedDecomposes(pattern: string, cs: seq<Term>, rs: seq<Term>)
    requires Parse(pattern).Some? && Parse(Stripped(pattern)).Some? &&
      Decomposes(Parse(Stripped(pattern)).value, 0, cs, rs)
    ensures Decomposes(Parse(pattern).value, |pattern| - |Stripped(pattern)|, cs, rs)
  {
    if pattern != "" && pattern[0] == '*' {
      StarFirst(pattern);
      StrippedDecomposes(pattern[1..], cs, rs);
      OneStarMore(Parse(pattern[1..]).value, |pattern[1..]| - |Stripped(pattern[1..])|, cs, rs);
    }
  }

  /** Leading stars are terms of their own. */
  lemma StrippedTerms(pattern: string, cs: seq<Term>, rs: seq<Term>)
    ensures Parse(pattern).Some? <==> Parse(Stripped(pattern)).Some?
    ensures Parse(Stripped(pattern)).Some? && Decomposes(Parse(Stripped(pattern)).value, 0, cs, rs) ==>
      Decomposes(Parse(pattern).value, |pattern| - |Stripped(pattern)|, cs, rs)
  {
    StrippedParses(pattern);
    if Parse(Stripped(pattern)).Some? && Decomposes(Parse(Stripped(pattern)).value, 0, cs, rs) {
      StrippedDecomposes(pattern, cs, rs);
    }
  }

  lemma PartsDown(pattern: string, n: nat, chunk: string, rest: string) returns (cs: seq<Term>, rs: seq<Term>)
    requires PartsOf(pattern, n, chunk, rest) && Parse(pattern).Some?
    ensures Parse(chunk) == Some(cs) && Parse(rest) == Some(rs) && Decomposes(Parse(pattern).value, n, cs, rs) &&
      (rs == [] <==> rest == "")
  {
    StrippedTerms(pattern, [], []);
    cs, rs := ChunkTerms(Stripped(pattern), chunk, rest);
    StrippedTerms(pattern, cs, rs);
  }

  lemma PartsUp(pattern: string, n: nat, chunk: string, rest: string, cs: seq<Term>, rs: seq<Term>)
    requires PartsOf(pattern, n, chunk, rest) && Parse(chunk) == Some(cs) && Parse(rest) == Some(rs)
    ensures Parse(pattern).Some? && Decomposes(Parse(pattern).value, n, cs, rs) && (rs == [] <==> rest == "")
  {
    ChunkTogether(Stripped(pattern), chunk, rest, cs, rs);
    StrippedTerms(pattern, [], []);
    var cs', rs' := PartsDown(pattern, n, chunk, rest);
  }

  lemma ChunkHasNoStar(pattern: string, n: nat, chunk: string, rest: string, cs: seq<Term>)
    requires PartsOf(pattern, n, chunk, rest) && Parse(chunk) == Some(cs)
    ensures NoStar(cs)
  {
    ScanAgain(Stripped(pattern), false);
    ScannedHasNoStar(chunk, cs);
  }

  lemma EmptyChunk(pattern: string, n: nat, rest: string)
    requires PartsOf(pattern, n, "", rest)
    ensures rest == ""
  {
    StrippedStarts(pattern);
    ScanZero(Stripped(pattern));
  }

  lemma ScanZero(p: string)
    requires Scan(p, false) == 0
    ensures p == "" || p[0] == '*'
  {}

  // ------------------------------------------------------------------------ the matcher

  lemma NoSlashNext(name: string, i: nat)
    requires i < |name| && NoSlash(name[..i]) && name[i] != '/'
    ensures NoSlash(name[..i + 1])
  {
    assert name[..i + 1] == name[..i] + [name[i]];
  }

  lemma ReachesUpTo(name: string, i: nat)
    requires i <= |name| && (i < |name| ==> name[i] == '/')
    ensures forall j: nat :: Reaches(true, name, j) ==> j <= i
  {
    forall j: nat | Reaches(true, name, j) ensures j <= i {
      NoSlashBelow(name, j);
    }
  }

  // ------------------------------------------------------------ what greedy placement finds

  function Leading(ts: seq<Term>): nat { if ts != [] && ts[0] == Star then 1 + Leading(ts[1..]) else 0 }

  function ChunkLength(ts: seq<Term>): nat { if ts == [] || ts[0] == Star then 0 else 1 + ChunkLength(ts[1..]) }

  lemma {:induction false} LeadingOf(ts: seq<Term>, n: nat)
    requires n <= |ts| && (forall i :: 0 <= i < n ==> ts[i] == Star) && (n < |ts| ==> ts[n] != Star)
    ensures Leading(ts) == n
  {
    if n > 0 { LeadingOf(ts[1..], n - 1); }
  }

  lemma {:induction false} ChunkLengthOf(ts: seq<Term>, m: nat)
    requires m <= |ts| && (forall i :: 0 <= i < m ==> ts[i] != Star) && (m < |ts| ==> ts[m] == Star)
    ensures ChunkLength(ts) == m
  {
    if m > 0 { ChunkLengthOf(ts[1..], m - 1); }
  }

  /** Where greedy placement puts a chunk: as far left as it fits, or, for the last one, at the end. */
  predicate Placed(star: bool, cs: seq<Term>, last: bool, name: string, k: nat) {
    Reaches(star, name, k) && Fits(cs, name[k..]) && (last ==> k + |cs| == |name|) && forall j :: 0 <= j < k ==>
      Misses(cs, last, name, j)
  }

  /** The same place, found by trying one place after the other. */
  function FirstFit(star: bool, cs: seq<Term>, last: bool, name: string, k: nat): (r: Option<nat>)
    requires k <= |name|
    ensures r.Some? ==> k <= r.value && r.value + |cs| <= |name|
    decreases |name| - k
  {
    if !Misses(cs, last, name, k) then Some(k)
    else if star && k < |name| && name[k] != '/' then FirstFit(star, cs, last, name, k + 1)
    else None
  }

  /** o is the first place, or there is none. */
  ghost predicate FoundPlace(star: bool, cs: seq<Term>, last: bool, name: string, o: Option<nat>) {
    match o
    case Some(m) => Placed(star, cs, last, name, m)
    case None => forall j: nat :: Reaches(star, name, j) ==> Misses(cs, last, name, j)
  }

  lemma {:induction false} FirstFitReaches(star: bool, cs: seq<Term>, last: bool, name: string, k: nat, m: nat)
    requires Reaches(star, name, k) && FirstFit(star, cs, last, name, k) == Some(m)
    ensures Reaches(star, name, m) && !Misses(cs, last, name, m)
    decreases |name| - k
  {
    if Misses(cs, last, name, k) {
      NoSlashNext(name, k);
      FirstFitReaches(star, cs, last, name, k + 1, m);
    }
  }

  /** No place within reach is passed over. */
  lemma {:induction false} FirstFitMisses(star: bool, cs: seq<Term>, last: bool, name: string, k: nat, j: nat)
    requires Reaches(star, name, k) && Reaches(star, name, j) && k <= j
    requires FirstFit(star, cs, last, name, k).Some? ==> j < FirstFit(star, cs, last, name, k).value
    ensures Misses(cs, last, name, j)
    decreases |name| - k
  {
    if k < j {
      NoSlashBelow(name, j);
      NoSlashNext(name, k);
      FirstFitMisses(star, cs, last, name, k + 1, j);
    }
  }

  lemma FirstFitPlaced(star: bool, cs: seq<Term>, last: bool, name: string)
    ensures FoundPlace(star, cs, last, name, FirstFit(star, cs, last, name, 0))
  {
    match FirstFit(star, cs, last, name, 0) {
      case Some(m) =>
        FirstFitReaches(star, cs, last, name, 0, m);
        forall j | 0 <= j < m ensures Misses(cs, last, name, j) {
          assert star ==> name[..j] == name[..m][..j];
          FirstFitMisses(star, cs, last, name, 0, j);
        }
      case None =>
        forall j: nat | Reaches(star, name, j) ensures Misses(cs, last, name, j) {
          FirstFitMisses(star, cs, last, name, 0, j);
        }
    }
  }

  lemma {:induction false} PlacedIsFirst(star: bool, cs: seq<Term>, last: bool, name: string, k: nat, m: nat)
    requires k <= m && Placed(star, cs, last, name, m)
    ensures FirstFit(star, cs, last, name, k) == Some(m)
    decreases m - k
  {
    if k < m {
      var here := Misses(cs, last, name, k);
      NoSlashBelow(name, m);
      PlacedIsFirst(star, cs, last, name, k + 1, m);
    }
  }

  /** Tries the chunk at k. */
  method TryAt(chunk: string, last: bool, name: string, k: nat) returns (r: Outcome)
    requires k <= |name| && (Parse(chunk).Some? ==> NoStar(Parse(chunk).value))
    ensures var o := Parse(chunk);
      match r {
        case Rest(t) => o.Some? && Fits(o.value, name[k..]) && t == name[k + |o.value|..] && (last ==> t == "")
        case NoMatch => o.Some? ==> Misses(o.value, last, name, k)
        case BadPattern => o.None?
      }
  {
    r := MatchChunk(chunk, name[k..]);
    if r.Rest? {
      assert name[k..][|Parse(chunk).value|..] == name[k + |Parse(chunk).value|..];
      if !(|r.s| == 0 || !last) {
        return NoMatch;
      }
    }
  }

  /** Looks for a place of the chunk: at the beginning of name or, behind a star, after one more
      character at a time. The last chunk has to reach the end of the name. */
  method Place(star: bool, chunk: string, last: bool, name: string) returns (r: Outcome)
    requires Parse(chunk).Some? ==> NoStar(Parse(chunk).value)
    ensures r.BadPattern? ==> Parse(chunk).None?
    ensures r.Rest? ==> Parse(chunk).Some?
    ensures Parse(chunk).Some? ==> match FirstFit(star, Parse(chunk).value, last, name, 0) {
      case None => r == NoMatch
      case Some(k) => r == Rest(name[k + |Parse(chunk).value|..])
    }
  {
    r := TryAt(chunk, last, name, 0);
    if r.NoMatch? && star {
      r := PlaceFurther(chunk, last, name);
    }
  }

  /** Behind a star: skips one more character at a time, but no slash. */
  method PlaceFurther(chunk: string, last: bool, name: string) returns (r: Outcome)
    requires Parse(chunk).Some? ==> NoStar(Parse(chunk).value) && Misses(Parse(chunk).value, last, name, 0)
    ensures r.BadPattern? ==> Parse(chunk).None?
    ensures r.Rest? ==> Parse(chunk).Some?
    ensures Parse(chunk).Some? ==> match FirstFit(true, Parse(chunk).value, last, name, 0) {
      case None => r == NoMatch
      case Some(k) => r == Rest(name[k + |Parse(chunk).value|..])
    }
  {
    ghost var o := Parse(chunk);
    var i := 0;
    while i < |name| && name[i] != '/'
      invariant 0 <= i <= |name|
      invariant o.Some? ==>
        && Misses(o.value, last, name, i)
        && FirstFit(true, o.value, last, name, 0) == FirstFit(true, o.value, last, name, i)
    {
      r := TryAt(chunk, last, name, i + 1);
      if !r.NoMatch? {
        return;
      }
      i := i + 1;
    }
    return NoMatch;
  }

  /** Whether the chunks of ts can be placed greedily, one after the other. */
  ghost predicate Greedy(ts: seq<Term>, name: string)
    decreases |ts|, 1
  {
    var n := Leading(ts);
    if n > |ts| || n + ChunkLength(ts[n..]) > |ts| then false
    else
      var m := n + ChunkLength(ts[n..]);
      if m == n then if n == 0 then name == "" else NoSlash(name) else GreedyWith(n > 0, ts[n..m], ts[m..], name)
  }

  /** With the next chunk cs and the rest rs. */
  ghost predicate GreedyWith(star: bool, cs: seq<Term>, rs: seq<Term>, name: string)
    requires cs != []
    decreases |cs| + |rs|, 0
  {
    match FirstFit(star, cs, rs == [], name, 0)
    case None => false
    case Some(k) => Greedy(rs, name[k + |cs|..])
  }

  /** The parts that Greedy takes are the parts of the pattern. */
  lemma GreedyParts(ts: seq<Term>, n: nat, cs: seq<Term>, rs: seq<Term>, name: string)
    requires Decomposes(ts, n, cs, rs) && cs != []
    ensures Greedy(ts, name) <==> GreedyWith(n > 0, cs, rs, name)
  {
    PartsFound(ts, n, cs, rs);
  }

  lemma PartsFound(ts: seq<Term>, n: nat, cs: seq<Term>, rs: seq<Term>)
    requires Decomposes(ts, n, cs, rs) && cs != []
    ensures Leading(ts) == n && ChunkLength(ts[n..]) == |cs| && ts[n..n + |cs|] == cs && ts[n + |cs|..] == rs
  {
    var m := n + |cs|;
    assert ts[n] == cs[0];
    LeadingOf(ts, n);
    if rs != [] { assert ts[m] == rs[0]; }
    forall i | 0 <= i < |cs| ensures ts[n..][i] != Star { assert ts[n + i] == cs[i]; }
    ChunkLengthOf(ts[n..], |cs|);
  }

  lemma GreedyStep(ts: seq<Term>, n: nat, cs: seq<Term>, rs: seq<Term>, name: string, k: nat)
    requires Decomposes(ts, n, cs, rs) && cs != [] && Placed(n > 0, cs, rs == [], name, k)
    ensures Greedy(ts, name) <==> Greedy(rs, name[k + |cs|..])
  {
    GreedyParts(ts, n, cs, rs, name);
    PlacedIsFirst(n > 0, cs, rs == [], name, 0, k);
  }

  lemma GreedyStars(ts: seq<Term>, n: nat, name: string)
    requires Decomposes(ts, n, [], [])
    ensures Greedy(ts, name) <==> if n == 0 then name == "" else NoSlash(name)
  {
    LeadingOf(ts, n);
  }

  /** Every pattern can be taken apart, with an empty chunk only at its end. */
  lemma TakeApart(ts: seq<Term>) returns (n: nat, cs: seq<Term>, rs: seq<Term>)
    ensures Decomposes(ts, n, cs, rs) && (cs == [] ==> rs == [])
  {
    n := LeadingAtMost(ts);
    var m := ChunkAtMost(ts[n..]);
    cs, rs := ts[n..n + m], ts[n + m..];
    assert forall i :: 0 <= i < m ==> cs[i] == ts[n..][i];
    if rs != [] { assert rs[0] == ts[n..][m]; }
  }

  lemma {:induction false} LeadingAtMost(ts: seq<Term>) returns (n: nat)
    ensures n <= |ts| && (forall i :: 0 <= i < n ==> ts[i] == Star) && (n < |ts| ==> ts[n] != Star)
  {
    n := 0;
    if ts != [] && ts[0] == Star {
      n := LeadingAtMost(ts[1..]);
      n := n + 1;
    }
  }

  lemma {:induction false} ChunkAtMost(ts: seq<Term>) returns (m: nat)
    ensures m <= |ts| && (forall i :: 0 <= i < m ==> ts[i] != Star) && (m < |ts| ==> ts[m] == Star)
  {
    m := 0;
    if ts != [] && ts[0] != Star {
      m := ChunkAtMost(ts[1..]);
      m := m + 1;
    }
  }

  lemma OnlyStars(ts: seq<Term>, n: nat, name: string)
    requires Decomposes(ts, n, [], [])
    ensures Greedy(ts, name) <==> Matches(ts, name)
  {
    GreedyStars(ts, n, name);
    if n > 0 { TrailingStar(ts, n, name); } else { assert ts == []; }
  }

  /** What greedy placement finds is in the language. */
  lemma {:induction false} GreedySound(ts: seq<Term>, name: string)
    requires Greedy(ts, name)
    ensures Matches(ts, name)
    decreases |ts|
  {
    var n, cs, rs := TakeApart(ts);
    if cs == [] {
      OnlyStars(ts, n, name);
    } else {
      var k := GreedyPlace(ts, n, cs, rs, name);
      GreedySound(rs, name[k + |cs|..]);
      PlacedSoundly(ts, n, cs, rs, name, k);
    }
  }

  lemma GreedyPlace(ts: seq<Term>, n: nat, cs: seq<Term>, rs: seq<Term>, name: string) returns (k: nat)
    requires Decomposes(ts, n, cs, rs) && cs != [] && Greedy(ts, name)
    ensures Placed(n > 0, cs, rs == [], name, k) && Greedy(rs, name[k + |cs|..]) && |rs| < |ts|
  {
    GreedyParts(ts, n, cs, rs, name);
    k := GreedyWithPlace(n > 0, cs, rs, name);
    FirstFitPlaced(n > 0, cs, rs == [], name);
  }

  lemma GreedyWithPlace(star: bool, cs: seq<Term>, rs: seq<Term>, name: string) returns (k: nat)
    requires cs != [] && GreedyWith(star, cs, rs, name)
    ensures FirstFit(star, cs, rs == [], name, 0) == Some(k) && Greedy(rs, name[k + |cs|..])
  {
    k := FirstFit(star, cs, rs == [], name, 0).value;
  }

  /** Leftmost placement is enough for every pattern in which no chunk between two stars can be shifted. */
  lemma {:induction false} SteadyComplete(ts: seq<Term>, name: string)
    requires Steady(ts) && Matches(ts, name)
    ensures Greedy(ts, name)
    decreases |ts|
  {
    var n, cs, rs := TakeApart(ts);
    if cs == [] {
      OnlyStars(ts, n, name);
    } else {
      var k := SomePlace(ts, n, cs, rs, name);
      if rs == [] {
        LastReachesEnd(rs, name[k + |cs|..]);
        assert forall j :: 0 <= j < k ==> Misses(cs, true, name, j);
      } else {
        k := Leftmost(n > 0, cs, name, k);
        PlacedCompletely(ts, n, cs, rs, name, k);
      }
      SteadyParts(ts, n, cs, rs);
      SteadyComplete(rs, name[k + |cs|..]);
      GreedyStep(ts, n, cs, rs, name, k);
    }
  }

  /** The names of the language are all found if the pattern is exact. */
  lemma GreedyComplete(ts: seq<Term>, name: string)
    requires Exact(ts) && Matches(ts, name)
    ensures Greedy(ts, name)
  {
    if Barren(ts) { BarrenNever(ts, name); } else { SteadyComplete(ts, name); }
  }

  lemma {:induction false} Leftmost(star: bool, cs: seq<Term>, name: string, k: nat) returns (k0: nat)
    requires Reaches(star, name, k) && Fits(cs, name[k..])
    ensures k0 <= k && Placed(star, cs, false, name, k0)
  {
    k0 := k;
    if j :| 0 <= j < k && Fits(cs, name[j..]) {
      NoSlashShorter(name, k, j);
      k0 := Leftmost(star, cs, name, j);
    }
  }

  lemma NoSlashShorter(name: string, k: nat, j: nat)
    requires j <= k <= |name| && NoSlash(name[..k])
    ensures NoSlash(name[..j])
  {
    assert name[..j] == name[..k][..j];
  }

  lemma LastReachesEnd(rs: seq<Term>, t: string)
    requires rs == [] && Matches(rs, t)
    ensures t == ""
  {}

  /** The terms of the pattern below: a star, the chunk "[^x]/", another star and the letter c. */
  function SlashClass(): seq<Term> { [Star, NotX(), Lit('/'), Star, Lit('c')] }

  function NotX(): Term { Class(true, [Range('x', 'x')]) }

  // Where a class before a star matches a slash the leftmost place may be the wrong one: the name
  // "a//c" is in the language of the pattern, but its chunk "[^x]/" already fits at the beginning,
  // and the next star cannot pass the slash that is left then.
  lemma GreedyMayFail()
    ensures Parse("*[^x]/*c") == Some(SlashClass())
    ensures !Exact(SlashClass()) && Matches(SlashClass(), "a//c") && !Greedy(SlashClass(), "a//c")
  {
    ParseSlashClass();
    StarC();
    var name := "a//c";
    assert name[3..] == "c" && name[2..] == "/c";
    SlashClassMatches(name);
    SlashClassMisplaced(name);
    if Exact(SlashClass()) { GreedyComplete(SlashClass(), name); }
  }

  lemma NotXMatches()
    ensures One(NotX(), '/') && One(NotX(), 'a')
  {
    assert !InRanges([Range('x', 'x')], '/') && !InRanges([Range('x', 'x')], 'a');
  }

  lemma ParseSlashClass()
    ensures Parse("*[^x]/*c") == Some(SlashClass())
  {
    var p := "*[^x]/*c";
    PutPlain('c', Lit('c'), p[7..], p[8..], [], [Lit('c')]);
    PutPlain('*', Star, p[6..], p[7..], [Lit('c')], [Star, Lit('c')]);
    PutPlain('/', Lit('/'), p[5..], p[6..], [Star, Lit('c')], [Lit('/'), Star, Lit('c')]);
    PutNotX(p[1..], p[5..], [Lit('/'), Star, Lit('c')], [NotX(), Lit('/'), Star, Lit('c')]);
    PutPlain('*', Star, p, p[1..], [NotX(), Lit('/'), Star, Lit('c')], SlashClass());
  }

  lemma PutInFront(p: string, t: Term, q: string, us: seq<Term>, ts: seq<Term>)
    requires p != "" && ParseTerm(p) == Some((t, q)) && Parse(q) == Some(us) && ts == [t] + us
    ensures Parse(p) == Some(ts)
  {}

  lemma PutPlain(c: char, t: Term, p: string, q: string, us: seq<Term>, ts: seq<Term>)
    requires p == [c] + q && Plain(c, t) && Parse(q) == Some(us) && ts == [t] + us
    ensures Parse(p) == Some(ts)
  {
    assert p[1..] == q;
  }

  /** A character that is a term by itself. */
  predicate Plain(c: char, t: Term) {
    if c == '*' then t == Star else c != '?' && c != '[' && c != '\\' && t == Lit(c)
  }

  lemma PutNotX(p: string, q: string, us: seq<Term>, ts: seq<Term>)
    requires p == ['[', '^', 'x', ']'] + q && Parse(q) == Some(us) && ts == [NotX()] + us
    ensures Parse(p) == Some(ts)
  {
    ParseNotX(p, q);
    PutInFront(p, NotX(), q, us, ts);
  }

  lemma ParseNotX(p: string, q: string)
    requires p == ['[', '^', 'x', ']'] + q
    ensures ParseTerm(p) == Some((NotX(), q))
  {
    var r := p[2..];
    assert r == ['x', ']'] + q && r[1..] == [']'] + q && r[1..][1..] == q;
    assert GetEsc(r) == Some(('x', r[1..]));
    assert ParseRange(r) == Some((Range('x', 'x'), r[1..]));
    assert ParseRanges(r[1..], [Range('x', 'x')]) == Some(([Range('x', 'x')], q));
    assert [] + [Range('x', 'x')] == [Range('x', 'x')];
  }

  lemma SlashClassParts()
    ensures Decomposes(SlashClass(), 1, [NotX(), Lit('/')], [Star, Lit('c')])
  {}

  lemma NotXSlashFits(name: string, k: nat)
    requires k + 2 <= |name| && name[k + 1] == '/' && One(NotX(), name[k])
    ensures Fits([NotX(), Lit('/')], name[k..])
  {}

  lemma SlashClassMatches(name: string)
    requires |name| == 4 && name[0] == 'a' && name[1] == '/' && name[2] == '/'
    requires Matches([Star, Lit('c')], name[3..])
    ensures Matches(SlashClass(), name)
  {
    SlashClassParts();
    NotXMatches();
    NotXSlashFits(name, 1);
    assert NoSlash(name[..1]);
    PlacedSoundly(SlashClass(), 1, [NotX(), Lit('/')], [Star, Lit('c')], name, 1);
  }

  lemma SlashClassMisplaced(name: string)
    requires |name| == 4 && name[0] == 'a' && name[1] == '/' && name[2] == '/'
    requires !Greedy([Star, Lit('c')], name[2..])
    ensures !Greedy(SlashClass(), name)
  {
    SlashClassParts();
    NotXMatches();
    NotXSlashFits(name, 0);
    assert NoSlash(name[..0]);
    GreedyStep(SlashClass(), 1, [NotX(), Lit('/')], [Star, Lit('c')], name, 0);
  }

  lemma StarC()
    ensures Matches([Star, Lit('c')], "c")
    ensures !Greedy([Star, Lit('c')], "/c")
  {
    var rs, cs := [Star, Lit('c')], [Lit('c')];
    assert "c"[..0] == "" && "c"[0..] == "c";
    assert Decomposes(rs, 1, cs, []);
    PlacedSoundly(rs, 1, cs, [], "c", 0);
    GreedyParts(rs, 1, cs, [], "/c");
  }

  // ----------------------------------------------------------------------- the main loop

  /** What is left to match stands for what was to be matched. */
  ghost predicate StandsFor(pattern: string, name: string, pattern0: string, name0: string) {
    && (InLanguage(pattern, name) ==> InLanguage(pattern0, name0))
    && (Parse(pattern0).Some? ==> Parse(pattern).Some? && (Greedy(Parse(pattern0).value, name0) <==>
      Greedy(Parse(pattern).value, name)))
  }

  lemma StandsForOn(pattern: string, name: string, n: nat, chunk: string, rest: string, k: nat, pattern0: string,
      name0: string)
    requires StandsFor(pattern, name, pattern0, name0) && PartsOf(pattern, n, chunk, rest) && chunk != ""
    requires Parse(chunk).Some? && Placed(n > 0, Parse(chunk).value, rest == "", name, k)
    ensures StandsFor(rest, name[k + |Parse(chunk).value|..], pattern0, name0)
  {
    var cs := Parse(chunk).value;
    var t := name[k + |cs|..];
    if InLanguage(rest, t) {
      var rs := Parse(rest).value;
      PartsUp(pattern, n, chunk, rest, cs, rs);
      PlacedSoundly(Parse(pattern).value, n, cs, rs, name, k);
    }
    if Parse(pattern0).Some? {
      var _, rs := PartsDown(pattern, n, chunk, rest);
      ChunkNotEmpty(chunk, cs);
      GreedyStep(Parse(pattern).value, n, cs, rs, name, k);
    }
  }

  lemma NotPlaced(pattern: string, name: string, n: nat, chunk: string, rest: string)
    requires PartsOf(pattern, n, chunk, rest) && Parse(pattern).Some? && chunk != ""
    requires Parse(chunk).Some? ==> FirstFit(n > 0, Parse(chunk).value, rest == "", name, 0).None?
    ensures !Greedy(Parse(pattern).value, name)
  {
    var cs, rs := PartsDown(pattern, n, chunk, rest);
    ChunkNotEmpty(chunk, cs);
    GreedyParts(Parse(pattern).value, n, cs, rs, name);
  }

  lemma ChunkNotEmpty(chunk: string, cs: seq<Term>)
    requires chunk != "" && Parse(chunk) == Some(cs)
    ensures cs != []
  {}

  method IndexSlash(name: string) returns (i: int)
    ensures i < 0 <==> NoSlash(name)
  {
    i := 0;
    while i < |name|
      invariant 0 <= i <= |name| && forall j :: 0 <= j < i ==> name[j] != '/'
    {
      if name[i] == '/' {
        return;
      }
      i := i + 1;
    }
    return -1;
  }

  /** Whether name matches the pattern; bad says that the pattern is malformed, which is noticed
      only if the matching gets that far. For a well-formed pattern the answer is what greedy
      placement finds; a positive answer is right for any pattern, and for an exact pattern a
      negative one is, too. */
  method Match(pattern0: string, name0: string) returns (matched: bool, bad: bool)
    ensures matched ==> InLanguage(pattern0, name0) && !bad
    ensures bad ==> Parse(pattern0).None?
    ensures Parse(pattern0).Some? ==> (matched <==> Greedy(Parse(pattern0).value, name0))
    ensures Parse(pattern0).Some? && Exact(Parse(pattern0).value) ==> (matched <==> InLanguage(pattern0, name0))
  {
    matched, bad := MatchGreedily(pattern0, name0);
    if Parse(pattern0).Some? && Exact(Parse(pattern0).value) && InLanguage(pattern0, name0) {
      GreedyComplete(Parse(pattern0).value, name0);
    }
  }

  /** An input on which the answer is wrong. */
  method TwoSlashes() returns (matched: bool, bad: bool)
    ensures InLanguage("*[^x]/*c", "a//c") && !matched && !bad
  {
    GreedyMayFail();
    matched, bad := Match("*[^x]/*c", "a//c");
  }

  method MatchGreedily(pattern0: string, name0: string) returns (matched: bool, bad: bool)
    ensures matched ==> InLanguage(pattern0, name0) && !bad
    ensures bad ==> Parse(pattern0).None?
    ensures Parse(pattern0).Some? ==> (matched <==> Greedy(Parse(pattern0).value, name0))
  {
    var pattern, name := pattern0, name0;
    while |pattern| > 0
      invariant StandsFor(pattern, name, pattern0, name0)
      decreases |pattern|
    {
      var done;
      done, matched, bad, pattern, name := MatchNext(pattern, name, pattern0, name0);
      if done {
        return;
      }
    }
    GreedyStars([], 0, name);
    return |name| == 0, false;
  }

  /** The loop body: matches the next chunk, or decides. */
  method MatchNext(pattern: string, name: string, ghost pattern0: string, ghost name0: string)
      returns (done: bool, matched: bool, bad: bool, rest: string, t: string)
    requires StandsFor(pattern, name, pattern0, name0) && pattern != ""
    ensures if done then Decided(matched, bad, pattern0, name0)
      else StandsFor(rest, t, pattern0, name0) && |rest| < |pattern|
  {
    var star, chunk;
    star, chunk, rest := ScanChunk(pattern);
    ghost var n := |pattern| - |Stripped(pattern)|;
    if star && |chunk| == 0 {
      done, bad, t := true, false, name;
      matched := MatchTrailing(pattern, n, chunk, rest, name, pattern0, name0);
    } else {
      done, bad, t := MatchAt(pattern, n, star, chunk, rest, name, pattern0, name0);
      matched := false;
    }
  }

  /** A trailing star matches the rest of the name unless it has a slash. */
  method MatchTrailing(ghost pattern: string, ghost n: nat, ghost chunk: string, ghost rest: string, name: string,
      ghost pattern0: string, ghost name0: string)
      returns (matched: bool)
    requires StandsFor(pattern, name, pattern0, name0) && PartsOf(pattern, n, chunk, rest) && |chunk| == 0 && n > 0
    ensures Decided(matched, false, pattern0, name0)
  {
    TrailingParts(pattern, n, rest, name);
    var i := IndexSlash(name);
    matched := i < 0;
  }

  /** A chunk that has a place leaves the rest to be matched; without one nothing matches. */
  method MatchAt(pattern: string, ghost n: nat, star: bool, chunk: string, rest: string, name: string,
      ghost pattern0: string, ghost name0: string)
      returns (done: bool, bad: bool, t: string)
    requires StandsFor(pattern, name, pattern0, name0) && PartsOf(pattern, n, chunk, rest) && (star <==> n > 0) &&
      |chunk| > 0
    ensures if done then Decided(false, bad, pattern0, name0) else StandsFor(rest, t, pattern0, name0)
  {
    var r;
    ghost var k;
    r, k := PlaceChunk(pattern, n, star, chunk, rest, name);
    if r.Rest? {
      StandsForOn(pattern, name, n, chunk, rest, k, pattern0, name0);
      return false, false, r.s;
    }
    return true, r.BadPattern?, name;
  }

  ghost predicate Decided(matched: bool, bad: bool, pattern0: string, name0: string) {
    && (matched ==> InLanguage(pattern0, name0) && !bad) && (bad ==> Parse(pattern0).None?)
    && (Parse(pattern0).Some? ==> (matched <==> Greedy(Parse(pattern0).value, name0)))
  }

  lemma TrailingParts(pattern: string, n: nat, rest: string, name: string)
    requires PartsOf(pattern, n, "", rest) && n > 0
    ensures Parse(pattern).Some? && (Matches(Parse(pattern).value, name) <==> NoSlash(name)) &&
      (Greedy(Parse(pattern).value, name) <==> NoSlash(name))
  {
    EmptyChunk(pattern, n, rest);
    PartsUp(pattern, n, "", rest, [], []);
    TrailingStar(Parse(pattern).value, n, name);
    GreedyStars(Parse(pattern).value, n, name);
  }

  /** Place, in terms of the whole pattern. */
  method PlaceChunk(pattern: string, ghost n: nat, star: bool, chunk: string, rest: string, name: string)
      returns (r: Outcome, ghost k: nat)
    requires PartsOf(pattern, n, chunk, rest) && (star <==> n > 0) && chunk != ""
    ensures match r {
      case Rest(t) => Parse(chunk).Some? && Placed(n > 0, Parse(chunk).value, rest == "", name, k) &&
        t == name[k + |Parse(chunk).value|..]
      case NoMatch => Parse(pattern).Some? ==> !Greedy(Parse(pattern).value, name)
      case BadPattern => Parse(pattern).None?
    }
  {
    k := 0;
    if Parse(chunk).Some? {
      ChunkHasNoStar(pattern, n, chunk, rest, Parse(chunk).value);
      FirstFitPlaced(star, Parse(chunk).value, |rest| == 0, name);
      var o := FirstFit(star, Parse(chunk).value, |rest| == 0, name, 0);
      if o.Some? { k := o.value; }
    }
    r := Place(star, chunk, |rest| == 0, name);
    if !r.Rest? && Parse(pattern).Some? {
      var _, _ := PartsDown(pattern, n, chunk, rest);
      NotPlaced(pattern, name, n, chunk, rest);
    }
  }
}
