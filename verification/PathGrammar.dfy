/** The pattern language of path.Match as its documentation lays it down (src/path/match.go:16-37):
    what can be written for a sequence of terms, and that the parser reads that and nothing else. */
module PathGrammar {
  import opened Search
  import opened PathMatch

  // ------------------------------------------------------------------------ the grammar

  /** What has to be escaped outside of brackets, and inside. */
  const SPECIAL := "*?[\\"
  const SPECIAL_IN_CLASS := "\\-]"

  /** A character is written as it is, unless it is special, or behind a backslash. */
  predicate CharText(c: char, special: string, w: string) { (w == [c] && c !in special) || w == ['\\', c] }

  /** A range is one character, or two with a hyphen between them. */
  ghost predicate RangeText(r: Range, w: string) {
    || (r.lo == r.hi && CharText(r.lo, SPECIAL_IN_CLASS, w))
    || exists u, v ::
      CharText(r.lo, SPECIAL_IN_CLASS, u) && CharText(r.hi, SPECIAL_IN_CLASS, v) && w == u + "-" + v
  }

  ghost predicate RangesText(rs: seq<Range>, w: string)
    decreases |rs|
  {
    if rs == [] then w == ""
    else exists u, v :: RangeText(rs[0], u) && RangesText(rs[1..], v) && w == u + v
  }

  /** A class has at least one range; without negation the first one does not begin with a caret. */
  ghost predicate ClassText(negated: bool, rs: seq<Range>, w: string) {
    rs != [] && exists v ::
      RangesText(rs, v) && (negated || v == "" || v[0] != '^') && w == (if negated then "[^" else "[") + v + "]"
  }

  ghost predicate TermText(t: Term, w: string) {
    match t
    case Star => w == "*"
    case Any => w == "?"
    case Class(negated, rs) => ClassText(negated, rs, w)
    case Lit(c) => CharText(c, SPECIAL, w)
  }

  ghost predicate PatternText(ts: seq<Term>, p: string)
    decreases |ts|
  {
    if ts == [] then p == "" else exists u, v :: TermText(ts[0], u) && PatternText(ts[1..], v) && p == u + v
  }

  // ------------------------------------------------------------------- what is written is read

  lemma CharRead(c: char, w: string, rest: string)
    requires CharText(c, SPECIAL_IN_CLASS, w) && rest != ""
    ensures GetEsc(w + rest) == Some((c, rest)) && w != "" && w[0] != ']' && w[0] != '-'
  {
    if w == [c] {
      assert (w + rest)[1..] == rest;
    } else {
      assert (w + rest)[1..] == [c] + rest && ([c] + rest)[1..] == rest;
    }
  }

  lemma Assoc(u: string, v: string, w: string)
    ensures u + v + w == u + (v + w)
  {}

  lemma RangeRead(r: Range, w: string, rest: string)
    requires RangeText(r, w) && rest != "" && rest[0] != '-'
    ensures ParseRange(w + rest) == Some((r, rest)) && w != "" && w[0] != ']' && w[0] != '-'
  {
    if r.lo == r.hi && CharText(r.lo, SPECIAL_IN_CLASS, w) {
      CharRead(r.lo, w, rest);
    } else {
      var u, v :| CharText(r.lo, SPECIAL_IN_CLASS, u) && CharText(r.hi, SPECIAL_IN_CLASS, v) && w == u + "-" + v;
      PairRead(r, u, v, w, rest);
    }
  }

  lemma PairRead(r: Range, u: string, v: string, w: string, rest: string)
    requires CharText(r.lo, SPECIAL_IN_CLASS, u) && CharText(r.hi, SPECIAL_IN_CLASS, v) && w == u + "-" + v &&
      rest != ""
    ensures ParseRange(w + rest) == Some((r, rest)) && w != "" && w[0] == u[0] && u[0] != ']' && u[0] != '-'
  {
    var q := "-" + (v + rest);
    CharRead(r.lo, u, q);
    CharRead(r.hi, v, rest);
    PairText(u, v, rest);
    assert q[1..] == v + rest;
    ReadPair(w + rest, r.lo, q, r.hi, rest);
  }

  lemma PairText(u: string, v: string, rest: string)
    ensures u + "-" + v + rest == u + ("-" + (v + rest))
  {}

  /** What follows a range: another one, or the end of the class. */
  lemma RangesStart(rs: seq<Range>, w: string, close: string)
    requires RangesText(rs, w) && close != "" && close[0] == ']'
    ensures w + close != "" && (w + close)[0] != '-' && (rs != [] ==> w != "" && w[0] != ']')
  {
    if rs != [] {
      var u, v :| RangeText(rs[0], u) && RangesText(rs[1..], v) && w == u + v;
      RangeRead(rs[0], u, "]");
    }
  }

  lemma {:induction false} RangesRead(rs: seq<Range>, w: string, got: seq<Range>, close: string)
    requires RangesText(rs, w) && got + rs != [] && close != "" && close[0] == ']'
    ensures ParseRanges(w + close, got) == Some((got + rs, close[1..]))
    decreases |rs|
  {
    if rs == [] {
      NothingMore(w, got, rs, close);
    } else {
      var u, v :| RangeText(rs[0], u) && RangesText(rs[1..], v) && w == u + v;
      RangesStart(rs, w, close);
      RangesStart(rs[1..], v, close);
      RangeRead(rs[0], u, v + close);
      Assoc(u, v, close);
      RangesRead(rs[1..], v, got + [rs[0]], close);
      RangeThenRanges(u + (v + close), rs, got, v + close, close[1..]);
    }
  }

  lemma NothingMore(w: string, got: seq<Range>, rs: seq<Range>, close: string)
    requires w == "" && rs == [] && got != [] && close != "" && close[0] == ']'
    ensures ParseRanges(w + close, got) == Some((got + rs, close[1..]))
  {
    assert w + close == close && got + rs == got;
  }

  lemma RangeThenRanges(p: string, rs: seq<Range>, got: seq<Range>, q: string, rest: string)
    requires rs != [] && p != "" && p[0] != ']' && ParseRange(p) == Some((rs[0], q))
    requires ParseRanges(q, got + [rs[0]]) == Some((got + [rs[0]] + rs[1..], rest))
    ensures ParseRanges(p, got) == Some((got + rs, rest))
  {
    OneRangeMore(p, got, rs[0], q);
    assert got + [rs[0]] + rs[1..] == got + rs;
  }

  lemma ClassRead(negated: bool, rs: seq<Range>, w: string, rest: string)
    requires ClassText(negated, rs, w)
    ensures w != "" && ParseTerm(w + rest) == Some((Class(negated, rs), rest))
  {
    var v :| RangesText(rs, v) && (negated || v == "" || v[0] != '^') && w == (if negated then "[^" else "[") + v + "]";
    var close := "]" + rest;
    assert close[1..] == rest;
    RangesStart(rs, v, close);
    RangesRead(rs, v, [], close);
    Bracketed(negated, v, w, rest);
    ClassParses(w + rest);
    assert [] + rs == rs;
  }

  lemma Bracketed(negated: bool, v: string, w: string, rest: string)
    requires v != "" && (negated || v[0] != '^') && w == (if negated then "[^" else "[") + v + "]"
    ensures var p := w + rest; p != "" && p[0] == '[' && (ClassStart(p) == 2 <==> negated)
    ensures (w + rest)[ClassStart(w + rest)..] == v + ("]" + rest)
  {}

  lemma TermRead(t: Term, w: string, rest: string)
    requires TermText(t, w)
    ensures w != "" && ParseTerm(w + rest) == Some((t, rest))
  {
    match t {
      case Class(negated, rs) => ClassRead(negated, rs, w, rest);
      case Lit(c) =>
        var p := w + rest;
        if w == [c] { assert p[0] == c && p[1..] == rest; } else { assert p[0] == '\\' && p[1] == c && p[2..] == rest; }
      case _ => assert (w + rest)[1..] == rest;
    }
  }

  lemma {:induction false} PatternRead(ts: seq<Term>, p: string)
    requires PatternText(ts, p)
    ensures Parse(p) == Some(ts)
    decreases |ts|
  {
    if ts != [] {
      var u, v :| TermText(ts[0], u) && PatternText(ts[1..], v) && p == u + v;
      TermRead(ts[0], u, v);
      PatternRead(ts[1..], v);
      ParseCons(p, ts[0], v, ts[1..]);
      assert [ts[0]] + ts[1..] == ts;
    }
  }

  // ------------------------------------------------------------------- what is read is written

  lemma CharWritten(p: string) returns (w: string)
    requires GetEsc(p).Some?
    ensures CharText(GetEsc(p).value.0, SPECIAL_IN_CLASS, w) && p == w + GetEsc(p).value.1
  {
    w := if p[0] == '\\' then p[..2] else p[..1];
    assert p == w + GetEsc(p).value.1;
  }

  lemma RangeWritten(p: string) returns (w: string)
    requires ParseRange(p).Some?
    ensures RangeText(ParseRange(p).value.0, w) && p == w + ParseRange(p).value.1
  {
    var (lo, q) := GetEsc(p).value;
    var u := CharWritten(p);
    w := u;
    if q[0] == '-' {
      var v := CharWritten(q[1..]);
      w := PairWritten(p, q, u, v);
    }
  }

  lemma PairWritten(p: string, q: string, u: string, v: string) returns (w: string)
    requires GetEsc(p).Some? && q == GetEsc(p).value.1 && q[0] == '-' && GetEsc(q[1..]).Some?
    requires CharText(GetEsc(p).value.0, SPECIAL_IN_CLASS, u) && p == u + q
    requires CharText(GetEsc(q[1..]).value.0, SPECIAL_IN_CLASS, v) && q[1..] == v + GetEsc(q[1..]).value.1
    ensures RangeText(ParseRange(p).value.0, w) && p == w + ParseRange(p).value.1
  {
    w := u + "-" + v;
    PairText(u, v, GetEsc(q[1..]).value.1);
    assert q == "-" + q[1..];
  }

  lemma {:induction false} RangesWritten(p: string, got: seq<Range>) returns (rs: seq<Range>, w: string)
    requires ParseRanges(p, got).Some?
    ensures ParseRanges(p, got).value.0 == got + rs && RangesText(rs, w)
    ensures p == w + ("]" + ParseRanges(p, got).value.1) && got + rs != []
    decreases |p|
  {
    if p != "" && p[0] == ']' && got != [] {
      rs, w := [], "";
      AtClose(p, got);
    } else {
      var (range, q) := ParseRange(p).value;
      var u := RangeWritten(p);
      OneRangeMore(p, got, range, q);
      var more, v := RangesWritten(q, got + [range]);
      rs, w := [range] + more, u + v;
      RangesGrow(range, more, u, v);
      GotGrows(got, range, more);
      Assoc(u, v, "]" + ParseRanges(p, got).value.1);
    }
  }

  lemma AtClose(p: string, got: seq<Range>)
    requires p != "" && p[0] == ']'
    ensures p == "" + ("]" + p[1..]) && got + [] == got
  {}

  lemma RangesGrow(range: Range, more: seq<Range>, u: string, v: string)
    requires RangeText(range, u) && RangesText(more, v)
    ensures RangesText([range] + more, u + v)
  {
    assert ([range] + more)[1..] == more;
  }

  lemma GotGrows(got: seq<Range>, range: Range, more: seq<Range>)
    ensures got + [range] + more == got + ([range] + more) && got + ([range] + more) != []
  {}

  lemma ClassWritten(p: string) returns (w: string)
    requires p != "" && p[0] == '[' && ParseTerm(p).Some?
    ensures TermText(ParseTerm(p).value.0, w) && p == w + ParseTerm(p).value.1
  {
    ClassParses(p);
    var k := ClassStart(p);
    var rs, v := RangesWritten(p[k..], []);
    assert [] + rs == rs;
    w := Opened(p, k, v, ParseTerm(p).value.1);
  }

  lemma Opened(p: string, k: nat, v: string, q: string) returns (w: string)
    requires p != "" && p[0] == '[' && k == ClassStart(p) && p[k..] == v + ("]" + q)
    ensures p == w + q && w == (if k == 2 then "[^" else "[") + v + "]" && (k == 2 || v == "" || v[0] != '^')
  {
    w := (if k == 2 then "[^" else "[") + v + "]";
    assert p[..k] == if k == 2 then "[^" else "[";
    assert p == p[..k] + p[k..];
    if v != "" { assert p[k] == v[0]; }
  }

  lemma TermWritten(p: string) returns (w: string)
    requires p != "" && ParseTerm(p).Some?
    ensures TermText(ParseTerm(p).value.0, w) && p == w + ParseTerm(p).value.1
  {
    if p[0] == '[' {
      w := ClassWritten(p);
    } else {
      w := if p[0] == '\\' then p[..2] else p[..1];
      assert p == w + ParseTerm(p).value.1;
    }
  }

  lemma {:induction false} PatternWritten(p: string)
    requires Parse(p).Some?
    ensures PatternText(Parse(p).value, p)
    decreases |p|
  {
    if p != "" {
      var t, q, us := ParseUncons(p, Parse(p).value);
      var w := TermWritten(p);
      PatternWritten(q);
      assert Parse(p).value[1..] == us;
    }
  }

  /** The parser accepts the patterns of the grammar and no other text, and reads each as what it was written for. */
  lemma PatternLanguage(ts: seq<Term>, p: string)
    ensures Parse(p) == Some(ts) <==> PatternText(ts, p)
  {
    if Parse(p) == Some(ts) { PatternWritten(p); }
    if PatternText(ts, p) { PatternRead(ts, p); }
  }
}
