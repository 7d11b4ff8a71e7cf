/** The text of an address as section 2.2 of RFC 4291 and section 4 of RFC 5952 lay it down, told without the printer of
    src/net/ip.go:258-313. */
module IPNotation {
  import opened Search
  import opened IPText

  // ------------------------------------------------------------------------ numerals

  const LOWER := "0123456789abcdef"

  /** The number with these digits, the last of which counts one. */
  function Sum(ds: seq<nat>, base: nat): nat {
    if ds == [] then 0 else base * Sum(ds[..|ds| - 1], base) + ds[|ds| - 1]
  }

  predicate Written(w: string, ds: seq<nat>, base: nat)
    requires base <= 16
  {
    |w| == |ds| && forall k :: 0 <= k < |w| ==> ds[k] < base && w[k] == LOWER[ds[k]]
  }

  /** w is n in this base, in lower case and without leading zeros. */
  ghost predicate NumeralOf(w: string, n: nat, base: nat)
    requires base <= 16
  {
    w != "" && (|w| > 1 ==> w[0] != '0') && exists ds :: Written(w, ds, base) && n == Sum(ds, base)
  }

  lemma {:induction false} DigitsWritten(n: nat, base: nat) returns (ds: seq<nat>)
    requires 2 <= base <= 16
    ensures Written(Digits(n, base), ds, base) && Sum(ds, base) == n && (n > 0 ==> Digits(n, base)[0] != '0')
    decreases n
  {
    if n < base {
      LastDigit(n);
      ds := [n];
      assert Sum([], base) == 0 && ds[..0] == [];
    } else {
      var q, d := Quotient(n, base);
      var before := DigitsWritten(q, base);
      ds := OneDigitMore(Digits(q, base), before, d, base);
    }
  }

  lemma Quotient(n: nat, base: nat) returns (q: nat, d: nat)
    requires 2 <= base <= n
    ensures q == n / base && d == n % base < base && 0 < q < n && base * q + d == n
  {
    q, d := n / base, n % base;
  }

  lemma OneDigitMore(w: string, before: seq<nat>, d: nat, base: nat) returns (ds: seq<nat>)
    requires d < base <= 16 && Written(w, before, base)
    ensures Written(w + [HexDigit(d)], ds, base) && Sum(ds, base) == base * Sum(before, base) + d
  {
    LastDigit(d);
    ds := before + [d];
    assert ds[..|ds| - 1] == before;
  }

  lemma LastDigit(d: nat)
    requires d < 16
    ensures HexDigit(d) == LOWER[d] && (d > 0 ==> HexDigit(d) != '0')
  {}

  lemma DigitsNumeral(n: nat, base: nat)
    requires 2 <= base <= 16
    ensures NumeralOf(Digits(n, base), n, base)
  {
    var ds := DigitsWritten(n, base);
  }

  // ----------------------------------------------------------------------- notations

  function Joined(ws: seq<string>, sep: string): string {
    if ws == [] then "" else if |ws| == 1 then ws[0] else ws[0] + sep + Joined(ws[1..], sep)
  }

  ghost predicate Spelled(ws: seq<string>, ns: seq<nat>, base: nat)
    requires base <= 16
  {
    |ws| == |ns| && forall k :: 0 <= k < |ws| ==> NumeralOf(ws[k], ns[k], base)
  }

  /** The octets in decimal, with dots in between. */
  ghost predicate DottedText(p: seq<nat>, w: string) { exists ws :: Spelled(ws, p, 10) && w == Joined(ws, ".") }

  /** The groups of two bytes each, the first of them the higher one. */
  function Groups(p: IP): (gs: seq<nat>)
    ensures |gs| == |p| / 2
  {
    seq(|p| / 2, k requires 0 <= k < |p| / 2 => 0x100 * (p[2 * k] as int) + (p[2 * k + 1] as int))
  }

  predicate ZeroGroups(gs: seq<nat>, a: int, b: int) {
    0 <= a <= b <= |gs| && forall k :: a <= k < b ==> gs[k] == 0
  }

  /** The groups from a up to b are the first longest run of zeros, and more than one. */
  ghost predicate FirstLongest(gs: seq<nat>, a: int, b: int) {
    && ZeroGroups(gs, a, b) && a + 2 <= b
    && forall c, d :: ZeroGroups(gs, c, d) ==> d - c <= b - a && (d - c == b - a ==> a <= c)
  }

  /** The groups in hexadecimal, with colons in between and a double colon for that run, if there is one. */
  ghost predicate HexText(gs: seq<nat>, w: string) {
    exists ws :: Spelled(ws, gs, 16) &&
      if exists a, b :: FirstLongest(gs, a, b) then
        exists a, b :: FirstLongest(gs, a, b) && w == Joined(ws[..a], ":") + "::" + Joined(ws[b..], ":")
      else w == Joined(ws, ":")
  }

  /** An IPv4 address in the form of an IPv6 address. */
  predicate Mapped(ip: IP) { |ip| == 16 && ZeroGroups(Groups(ip), 0, 5) && Groups(ip)[5] == 0xFFFF }

  ghost predicate AddressText(ip: IP, w: string) {
    if |ip| == 4 then DottedText(ip, w)
    else if Mapped(ip) then DottedText(ip[12..], w)
    else if |ip| == 16 then HexText(Groups(ip), w)
    else w == if ip == [] then "<nil>" else "?"
  }

  // ------------------------------------------------------------------------ printing

  function Words(q: seq<Byte>): (ws: seq<string>)
    ensures |ws| == |q| / 2
  {
    seq(|q| / 2, k requires 0 <= k < |q| / 2 => Digits(Group(q, 2 * k), 16))
  }

  lemma {:induction false} JoinIsJoined(q: seq<Byte>)
    requires |q| % 2 == 0
    ensures Join(q) == Joined(Words(q), ":")
    decreases |q|
  {
    if |q| > 2 {
      JoinIsJoined(q[2..]);
      WordsOfRest(q);
      Regroup(Digits(Group(q, 0), 16), ":", Join(q[2..]));
    }
  }

  lemma WordsOfRest(q: seq<Byte>)
    requires |q| % 2 == 0 && |q| > 2
    ensures Words(q)[1..] == Words(q[2..]) && Words(q)[0] == Digits(Group(q, 0), 16)
  {
    forall k | 0 <= k < |q| / 2 - 1 ensures Words(q)[1..][k] == Words(q[2..])[k] {
      assert Group(q[2..], 2 * k) == Group(q, 2 * (k + 1));
    }
  }

  lemma WordsSpelled(p: IP)
    ensures Spelled(Words(p), Groups(p), 16)
  {
    forall k | 0 <= k < |p| / 2 ensures NumeralOf(Words(p)[k], Groups(p)[k], 16) { DigitsNumeral(Group(p, 2 * k), 16); }
  }

  /** The groups from a up to b. */
  function Between(p: IP, a: nat, b: nat): string
    requires a <= b <= 8 && |p| == 16
  {
    Join(p[2 * a..2 * b])
  }

  /** A text with a double colon in it. */
  predicate Around(w: string, before: string, behind: string) { w == before + "::" + behind }

  lemma AroundMore(d: string, t: string, before: string, behind: string)
    requires Around(t, before, behind)
    ensures Around(d + (":" + t), d + (":" + before), behind)
  {
    assert d + (":" + (before + "::" + behind)) == d + (":" + before) + "::" + behind;
  }

  lemma FirstBetween(p: IP, a: nat, b: nat)
    requires a < b <= 8 && |p| == 16
    ensures Between(p, a, b) ==
      var d := Digits(Group(p, 2 * a), 16); if a + 1 == b then d else d + (":" + Between(p, a + 1, b))
  {
    var q := p[2 * a..2 * b];
    assert q[2..] == p[2 * (a + 1)..2 * b] && Group(q, 0) == Group(p, 2 * a);
  }

  lemma TailNext(p: IP, k: nat, a: nat, run: Run)
    requires |p| == 16 && RunOk(p, run) && run.e0 == 2 * a && k + 1 < a
    ensures Tail(p, 2 * k, run) == Digits(Group(p, 2 * k), 16) + (":" + Tail(p, 2 * (k + 1), run))
  {
    PrintIs(p, 2 * (k + 1), run);
  }

  lemma TailLast(p: IP, a: nat, b: nat, run: Run)
    requires |p| == 16 && run == Run(2 * a, 2 * b) && RunOk(p, run) && a > 0
    ensures Around(Tail(p, 2 * (a - 1), run), Digits(Group(p, 2 * (a - 1)), 16), Between(p, b, 8))
  {
    PrintBehind(p, run);
    assert p[2 * b..16] == p[2 * b..];
    Regroup(Digits(Group(p, 2 * (a - 1)), 16), "::", Between(p, b, 8));
  }

  /** Up to the run, and what is behind it. */
  lemma {:induction false} TailBefore(p: IP, k: nat, a: nat, b: nat, run: Run)
    requires |p| == 16 && run == Run(2 * a, 2 * b) && RunOk(p, run) && k < a
    ensures Around(Tail(p, 2 * k, run), Between(p, k, a), Between(p, b, 8))
    decreases a - k
  {
    if k + 1 == a {
      FirstBetween(p, k, a);
      TailLast(p, a, b, run);
    } else {
      TailBefore(p, k + 1, a, b, run);
      OneMoreBefore(p, k, a, run, Between(p, k + 1, a), Between(p, b, 8));
    }
  }

  lemma OneMoreBefore(p: IP, k: nat, a: nat, run: Run, before: string, behind: string)
    requires |p| == 16 && RunOk(p, run) && run.e0 == 2 * a && k + 1 < a <= 8 && before == Between(p, k + 1, a)
    requires Around(Tail(p, 2 * (k + 1), run), before, behind)
    ensures Around(Tail(p, 2 * k, run), Between(p, k, a), behind)
  {
    FirstBetween(p, k, a);
    TailNext(p, k, a, run);
    AroundMore(Digits(Group(p, 2 * k), 16), Tail(p, 2 * (k + 1), run), before, behind);
  }

  lemma PrintedWithRun(p: IP, a: nat, b: nat, run: Run)
    requires |p| == 16 && run == Run(2 * a, 2 * b) && RunOk(p, run)
    ensures Around(Print(p, 0, run), Between(p, 0, a), Between(p, b, 8))
  {
    PrintIs(p, 0, run);
    if a == 0 {
      TailBehind(p, run);
      assert p[2 * b..16] == p[2 * b..];
    } else {
      TailBefore(p, 0, a, b, run);
    }
  }

  lemma PrintedInFull(p: IP)
    requires |p| == 16
    ensures Print(p, 0, NO_RUN) == Join(p)
  {
    PrintIs(p, 0, NO_RUN);
    TailPast(p, 0, NO_RUN);
    assert p[0..] == p;
  }

  lemma RunOfGroups(p: IP, a: int, b: int)
    requires |p| == 16
    ensures ZeroGroups(Groups(p), a, b) <==> IsRun(p, 2 * a, 2 * b)
  {
    if ZeroGroups(Groups(p), a, b) {
      forall k | 2 * a <= k < 2 * b ensures p[k] == 0 { assert Groups(p)[k / 2] == 0; }
    }
    if IsRun(p, 2 * a, 2 * b) {
      forall k | a <= k < b ensures Groups(p)[k] == 0 { assert p[2 * k] == 0 && p[2 * k + 1] == 0; }
    }
  }

  /** The run that is abbreviated is the one that the notation wants. */
  lemma RunIsFirstLongest(p: IP)
    requires |p| == 16
    ensures var r := ZeroRun(p);
      if r == NO_RUN then forall a, b :: !FirstLongest(Groups(p), a, b)
      else RunOk(p, r) && FirstLongest(Groups(p), r.e0 / 2, r.e1 / 2)
  {
    ZeroRunIsFirstLongest(p);
    var r := ZeroRun(p);
    forall a, b ensures ZeroGroups(Groups(p), a, b) <==> IsRun(p, 2 * a, 2 * b) { RunOfGroups(p, a, b); }
  }

  lemma HexIsNotation(p: IP)
    requires |p| == 16
    ensures RunOk(p, ZeroRun(p)) && HexText(Groups(p), Print(p, 0, ZeroRun(p)))
  {
    RunIsFirstLongest(p);
    WordsSpelled(p);
    var r := ZeroRun(p);
    if r == NO_RUN {
      PrintedInFull(p);
      JoinIsJoined(p);
    } else {
      Elided(p, r.e0 / 2, r.e1 / 2, r);
    }
  }

  lemma Elided(p: IP, a: nat, b: nat, run: Run)
    requires |p| == 16 && run == Run(2 * a, 2 * b) && RunOk(p, run)
    ensures Print(p, 0, run) == Joined(Words(p)[..a], ":") + "::" + Joined(Words(p)[b..], ":")
  {
    PrintedWithRun(p, a, b, run);
    PartsJoined(p, a, b);
  }

  lemma PartsJoined(p: IP, a: nat, b: nat)
    requires |p| == 16 && a <= 8 && b <= 8
    ensures Between(p, 0, a) == Joined(Words(p)[..a], ":") && Between(p, b, 8) == Joined(Words(p)[b..], ":")
  {
    JoinIsJoined(p[0..2 * a]);
    JoinIsJoined(p[2 * b..16]);
    WordsOfParts(p, a, b);
    assert p[0..2 * a] == p[..2 * a] && p[2 * b..16] == p[2 * b..];
  }

  lemma WordsOfParts(p: IP, a: nat, b: nat)
    requires |p| == 16 && a <= 8 && b <= 8
    ensures Words(p[..2 * a]) == Words(p)[..a] && Words(p[2 * b..]) == Words(p)[b..]
  {
    forall k | 0 <= k < a ensures Words(p[..2 * a])[k] == Words(p)[k] {
      assert Group(p[..2 * a], 2 * k) == Group(p, 2 * k);
    }
    forall k | 0 <= k < 8 - b ensures Words(p[2 * b..])[k] == Words(p)[b + k] {
      assert Group(p[2 * b..], 2 * k) == Group(p, 2 * (b + k));
    }
  }

  lemma DottedIsNotation(p: IP)
    requires |p| == 4
    ensures DottedText(p, Dotted(p))
  {
    var ws := [Digits(p[0], 10), Digits(p[1], 10), Digits(p[2], 10), Digits(p[3], 10)];
    forall k | 0 <= k < 4 ensures NumeralOf(ws[k], p[k], 10) { DigitsNumeral(p[k], 10); }
    assert Joined(ws[3..], ".") == ws[3];
    forall k | 0 <= k < 3 ensures Joined(ws[k..], ".") == ws[k] + "." + Joined(ws[k + 1..], ".") {
      assert ws[k..][1..] == ws[k + 1..];
    }
    assert ws[0..] == ws;
    RegroupDots(ws[0], ws[1], ws[2], ws[3]);
  }

  lemma RegroupDots(a: string, b: string, c: string, d: string)
    ensures a + "." + b + "." + c + "." + d == a + "." + (b + "." + (c + "." + d))
  {}

  lemma MappedIsTo4(ip: IP)
    requires |ip| == 16
    ensures Mapped(ip) <==> To4(ip).Some?
  {
    RunOfGroups(ip, 0, 5);
    assert IsZeros(ip[..10]) <==> IsRun(ip, 0, 10);
  }

  /** The text of every address is the one that the notation lays down. */
  lemma TextIsNotation(ip: IP)
    ensures AddressText(ip, Text(ip))
  {
    if |ip| == 4 {
      DottedIsNotation(ip);
    } else if |ip| == 16 {
      MappedIsTo4(ip);
      if Mapped(ip) { DottedIsNotation(ip[12..]); } else { HexIsNotation(ip); }
    }
  }
}
