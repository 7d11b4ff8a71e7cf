/** Printing and parsing IP addresses (src/net/ip.go:258-313, 495-649; src/net/parse.go:121-212). */
module IPText {
  import opened Search

  type Byte = x: int | 0 <= x < 256

  /** An address: 4 or 16 bytes; other lengths can occur but do not name an address. */
  type IP = seq<Byte>

  // ------------------------------------------------------------------------- numbers

  const BIG := 0xFFFFFF

  predicate IsDigit(c: char) { '0' <= c <= '9' }

  /** The digits of n in a base up to 16, without leading zeros. */
  function Digits(n: nat, base: nat): (s: string)
    requires 2 <= base <= 16
    ensures |s| > 0
    decreases n
  {
    if n < base then [HexDigit(n)] else Digits(n / base, base) + [HexDigit(n % base)]
  }

  function HexDigit(n: nat): char
    requires n < 16
  {
    if n < 10 then '0' + n as char else 'a' + (n - 10) as char
  }

  function HexValue(c: char): Option<nat> {
    if '0' <= c <= '9' then Some((c - '0') as nat)
    else if 'a' <= c <= 'f' then Some((c - 'a') as nat + 10)
    else if 'A' <= c <= 'F' then Some((c - 'A') as nat + 10)
    else None
  }

  function DecValue(c: char): Option<nat> { if '0' <= c <= '9' then Some((c - '0') as nat) else None }

  function ValueIn(base: nat, c: char): Option<nat> { if base == 16 then HexValue(c) else DecValue(c) }

  /** Reads digits on top of n: the number and the rest of the text; None when it gets too big. */
  function ReadOn(base: nat, s: string, n: nat): (r: Option<(nat, string)>)
    ensures r.Some? ==> |r.value.1| <= |s|
    decreases |s|
  {
    if s == "" || ValueIn(base, s[0]).None? then Some((n, s))
    else
      var m := n * base + ValueIn(base, s[0]).value;
      if m >= BIG then None else ReadOn(base, s[1..], m)
  }

  /** Reads a number, of at least one digit. */
  function Read(base: nat, s: string): (r: Option<(nat, string)>)
    ensures r.Some? ==> |r.value.1| < |s|
  {
    if s == "" || ValueIn(base, s[0]).None? then None else ReadOn(base, s, 0)
  }

  lemma HexDigitValue(n: nat, base: nat)
    requires n < base && (base == 10 || base == 16)
    ensures ValueIn(base, HexDigit(n)) == Some(n)
  {}

  /** Reading on over the digits of n. */
  lemma {:induction false} ReadDigits(base: nat, n: nat, rest: string)
    requires (base == 10 || base == 16) && n < BIG && (rest == "" || ValueIn(base, rest[0]).None?)
    ensures ReadOn(base, Digits(n, base) + rest, 0) == Some((n, rest))
    decreases n
  {
    ReadFrom(base, n, rest);
    assert rest == "" || ValueIn(base, rest[0]).None?;
  }

  lemma {:induction false} ReadFrom(base: nat, n: nat, rest: string)
    requires (base == 10 || base == 16) && n < BIG
    ensures ReadOn(base, Digits(n, base) + rest, 0) == ReadOn(base, rest, n)
    decreases n
  {
    if n < base {
      ReadDigit(base, 0, n, rest);
    } else {
      var q, r := QuotientAndRest(n, base);
      ReadFrom(base, q, [HexDigit(r)] + rest);
      ReadDigit(base, q, r, rest);
      assert Digits(n, base) + rest == Digits(q, base) + ([HexDigit(r)] + rest);
    }
  }

  lemma QuotientAndRest(n: nat, base: nat) returns (q: nat, r: nat)
    requires (base == 10 || base == 16) && n >= base
    ensures q == n / base < n && r == n % base < base && q * base + r == n
  {
    q, r := n / base, n % base;
  }

  /** One digit on top of m. */
  lemma ReadDigit(base: nat, m: nat, d: nat, rest: string)
    requires (base == 10 || base == 16) && d < base && m * base + d < BIG
    ensures ReadOn(base, [HexDigit(d)] + rest, m) == ReadOn(base, rest, m * base + d)
  {
    HexDigitValue(d, base);
    assert ([HexDigit(d)] + rest)[1..] == rest;
  }

  lemma {:induction false} DigitsStart(n: nat, base: nat)
    requires base == 10 || base == 16
    ensures forall c :: c in Digits(n, base) ==> ValueIn(base, c).Some?
    decreases n
  {
    HexDigitValue(n % base, base);
    if n >= base { DigitsStart(n / base, base); }
  }

  /** A printed number is read back, whatever follows that is not a digit. */
  lemma ReadBack(base: nat, n: nat, rest: string)
    requires (base == 10 || base == 16) && n < BIG && (rest == "" || ValueIn(base, rest[0]).None?)
    ensures Read(base, Digits(n, base) + rest) == Some((n, rest))
  {
    ReadDigits(base, n, rest);
    DigitsStart(n, base);
    assert Digits(n, base)[0] in Digits(n, base);
    assert (Digits(n, base) + rest)[0] == Digits(n, base)[0];
  }

  // ------------------------------------------------------------------------ printing

  predicate IsZeros(p: seq<Byte>) { forall i :: 0 <= i < |p| ==> p[i] == 0 }

  /** The four bytes of an IPv4 address, also when it comes in the 16-byte form. */
  function To4(ip: IP): Option<IP> {
    if |ip| == 4 then Some(ip)
    else if |ip| == 16 && IsZeros(ip[..10]) && ip[10] == 0xff && ip[11] == 0xff then Some(ip[12..])
    else None
  }

  function IPv4(p: seq<Byte>): IP
    requires |p| == 4
  {
    var v4InV6Prefix: seq<Byte> := [0, 0, 0, 0, 0, 0, 0, 0, 0, 0, 0xff, 0xff];
    v4InV6Prefix + p
  }

  /** The 16-byte form of an address. */
  function To16(ip: IP): Option<IP> { if |ip| == 4 then Some(IPv4(ip)) else if |ip| == 16 then Some(ip) else None }

  /** The group of two bytes at i. */
  function Group(p: IP, i: nat): nat
    requires i + 1 < |p|
  {
    (p[i] as int) * 0x100 + (p[i + 1] as int)
  }

  predicate ZeroGroup(p: IP, i: nat)
    requires i + 1 < |p|
  {
    p[i] == 0 && p[i + 1] == 0
  }

  /** Where the run of zero groups that begins at i ends. */
  function RunEnd(p: IP, i: nat): (j: nat)
    requires |p| == 16 && i <= 16 && i % 2 == 0
    ensures i <= j <= 16 && j % 2 == 0
    decreases |p| - i
  {
    if i < 16 && ZeroGroup(p, i) then RunEnd(p, i + 2) else i
  }

  datatype Run = Run(e0: int, e1: int)

  const NO_RUN := Run(-1, -1)

  /** The longest run of zero groups from i on that beats the one found so far. */
  function FindRun(p: IP, i: nat, best: Run): Run
    requires |p| == 16 && i % 2 == 0
    decreases |p| + 2 - i
  {
    if i >= 16 then best
    else
      var j := RunEnd(p, i);
      if j > i && j - i > best.e1 - best.e0 then FindRun(p, j + 2, Run(i, j)) else FindRun(p, i + 2, best)
  }

  /** The run that is abbreviated: a single group is not. */
  function ZeroRun(p: IP): Run
    requires |p| == 16
  {
    var r := FindRun(p, 0, NO_RUN);
    if r.e1 - r.e0 <= 2 then NO_RUN else r
  }

  /** [a, b) are the bytes of consecutive zero groups. */
  predicate IsRun(p: IP, a: int, b: int)
    requires |p| == 16
  {
    0 <= a <= b <= 16 && a % 2 == 0 && b % 2 == 0 && forall k :: a <= k < b ==> p[k] == 0
  }

  lemma {:induction false} RunEndIs(p: IP, i: nat)
    requires |p| == 16 && i <= 16 && i % 2 == 0
    ensures IsRun(p, i, RunEnd(p, i)) && (RunEnd(p, i) < 16 ==> !ZeroGroup(p, RunEnd(p, i)))
    decreases 16 - i
  {
    if i < 16 && ZeroGroup(p, i) { RunEndIs(p, i + 2); }
  }

  /** No run of zero groups that begins before i is longer than best, or as long and further left. */
  ghost predicate BestBefore(p: IP, i: nat, best: Run)
    requires |p| == 16
  {
    && (best != NO_RUN ==> IsRun(p, best.e0, best.e1) && best.e0 < best.e1)
    && forall a, b :: IsRun(p, a, b) && a < b && a < i ==>
      b - a <= best.e1 - best.e0 && (b - a == best.e1 - best.e0 ==> best.e0 <= a)
  }

  lemma RunCovers(p: IP, a: nat, b: nat)
    requires |p| == 16 && IsRun(p, a, b)
    ensures forall i :: a <= i < b && i % 2 == 0 ==> ZeroGroup(p, i)
  {}

  lemma {:induction false} FindRunBest(p: IP, i: nat, best: Run)
    requires |p| == 16 && i % 2 == 0 && BestBefore(p, i, best) && (best == NO_RUN || 0 <= best.e0 < i)
    ensures BestBefore(p, 16, FindRun(p, i, best))
    decreases 18 - i
  {
    if i < 16 {
      var j := RunEnd(p, i);
      RunEndIs(p, i);
      if j > i && j - i > best.e1 - best.e0 {
        BetterRun(p, i, best);
        FindRunBest(p, j + 2, Run(i, j));
      } else {
        SameRun(p, i, best);
        FindRunBest(p, i + 2, best);
      }
    }
  }

  lemma BetterRun(p: IP, i: nat, best: Run)
    requires |p| == 16 && i < 16 && i % 2 == 0 && BestBefore(p, i, best) && RunEnd(p, i) > i &&
      RunEnd(p, i) - i > best.e1 - best.e0
    ensures BestBefore(p, RunEnd(p, i) + 2, Run(i, RunEnd(p, i)))
  {
    var j := RunEnd(p, i);
    RunEndIs(p, i);
    forall a, b | IsRun(p, a, b) && a < b && a < j + 2 ensures b - a <= j - i && (b - a == j - i ==> i <= a) {
      RunCovers(p, a, b);
    }
  }

  lemma SameRun(p: IP, i: nat, best: Run)
    requires |p| == 16 && i < 16 && i % 2 == 0 && BestBefore(p, i, best) && (best == NO_RUN || 0 <= best.e0 < i)
    requires RunEnd(p, i) == i || RunEnd(p, i) - i <= best.e1 - best.e0
    ensures BestBefore(p, i + 2, best)
  {
    RunEndIs(p, i);
    forall a, b | IsRun(p, a, b) && a < b && a < i + 2
      ensures b - a <= best.e1 - best.e0 && (b - a == best.e1 - best.e0 ==> best.e0 <= a)
    {
      RunCovers(p, a, b);
    }
  }

  /** The abbreviated run is the first longest one of at least two zero groups, if there is one. */
  lemma ZeroRunIsFirstLongest(p: IP)
    requires |p| == 16
    ensures var r := ZeroRun(p);
      if r == NO_RUN then forall a, b :: IsRun(p, a, b) ==> b - a <= 2
      else IsRun(p, r.e0, r.e1) && r.e1 - r.e0 >= 4 &&
           forall a, b :: IsRun(p, a, b) ==> b - a <= r.e1 - r.e0 && (b - a == r.e1 - r.e0 ==> r.e0 <= a)
  {
    FindRunBest(p, 0, NO_RUN);
    var r := FindRun(p, 0, NO_RUN);
    forall a, b | IsRun(p, a, b) ensures b - a <= (if r == NO_RUN then 0 else r.e1 - r.e0) {
      if a < b { assert a < 16; }
    }
  }

  predicate RunOk(p: IP, run: Run)
    requires |p| == 16
  {
    run == NO_RUN || (IsRun(p, run.e0, run.e1) && run.e0 < run.e1)
  }

  /** The groups from i on, with "::" for the run. */
  function Print(p: IP, i: nat, run: Run): string
    requires |p| == 16 && i % 2 == 0 && RunOk(p, run)
    decreases |p| + 2 - i
  {
    if i >= 16 then ""
    else if i == run.e0 then
      "::" + if run.e1 >= 16 then "" else Digits(Group(p, run.e1), 16) + Print(p, run.e1 + 2, run)
    else (if i > 0 then ":" else "") + Digits(Group(p, i), 16) + Print(p, i + 2, run)
  }

  function Dotted(p: IP): string
    requires |p| == 4
  {
    Digits(p[0], 10) + "." + Digits(p[1], 10) + "." + Digits(p[2], 10) + "." + Digits(p[3], 10)
  }

  function Text(ip: IP): string {
    if |ip| == 0 then "<nil>"
    else if To4(ip).Some? then Dotted(To4(ip).value)
    else if |ip| != 16 then "?"
    else
      ZeroRunIsFirstLongest(ip);
      Print(ip, 0, ZeroRun(ip))
  }

  // ------------------------------------------------------------------------- parsing

  /** Octets j to 3 of a dotted address, after those in p. */
  function ParseOctets(s: string, p: seq<Byte>): Option<IP>
    requires |p| <= 4
    decreases |s|
  {
    if |p| == 4 then if s == "" then Some(IPv4(p)) else None
    else if s == "" || (|p| > 0 && s[0] != '.') then None
    else match Read(10, if |p| > 0 then s[1..] else s)
      case None => None
      case Some((n, rest)) => if n > 0xFF then None else ParseOctets(rest, p + [n])
  }

  function ParseIPv4(s: string): Option<IP> { ParseOctets(s, []) }

  /** The groups of an IPv6 address, after those in ip; e is where an ellipsis was, if there was one. */
  function ParseGroups(s: string, ip: seq<Byte>, e: Option<nat>): Option<(seq<Byte>, Option<nat>)>
    requires |ip| <= 16 && |ip| % 2 == 0
    decreases |s|, 2
  {
    if |ip| == 16 then if s == "" then Some((ip, e)) else None
    else match Read(16, s)
      case None => None
      case Some((n, rest)) => if n > 0xFFFF then None else ParseBehind(s, n, rest, ip, e)
  }

  /** Behind the number n: a dot makes it the beginning of a trailing IPv4 address. */
  function ParseBehind(s: string, n: nat, rest: string, ip: seq<Byte>, e: Option<nat>): Option<(seq<Byte>, Option<nat>)>
    requires |ip| < 16 && |ip| % 2 == 0 && n <= 0xFFFF && |rest| < |s|
    decreases |s|, 1
  {
    if rest != "" && rest[0] == '.' then ParseTrailer(s, ip, e) else ParseColon(rest, ip + [n / 0x100, n % 0x100], e)
  }

  function ParseTrailer(s: string, ip: seq<Byte>, e: Option<nat>): Option<(seq<Byte>, Option<nat>)> {
    if (e.None? && |ip| != 12) || |ip| + 4 > 16 then None
    else match ParseIPv4(s)
      case None => None
      case Some(ip4) => if |ip4| == 16 then Some((ip + ip4[12..], e)) else None
  }

  /** Behind a group: the end, a colon, or the ellipsis. */
  function ParseColon(s: string, ip: seq<Byte>, e: Option<nat>): Option<(seq<Byte>, Option<nat>)>
    requires |ip| <= 16 && |ip| % 2 == 0
    decreases |s|, 3
  {
    if s == "" then Some((ip, e))
    else if s[0] != ':' || |s| == 1 then None
    else if s[1] == ':' then
      if e.Some? then None
      else if |s| == 2 then Some((ip, Some(|ip|)))
      else ParseGroups(s[2..], ip, Some(|ip|))
    else ParseGroups(s[1..], ip, e)
  }

  function Zeros(n: nat): seq<Byte> { seq(n, i => 0) }

  /** Makes room for the groups that the ellipsis stands for. */
  function Expand(ip: seq<Byte>, e: Option<nat>): Option<IP> {
    if |ip| < 16 then
      if e.None? || e.value > |ip| then None else Some(ip[..e.value] + Zeros(16 - |ip|) + ip[e.value..])
    else if e.Some? then None else Some(ip)
  }

  function ParseIPv6(s: string): Option<IP> {
    if |s| >= 2 && s[0] == ':' && s[1] == ':' then
      if |s| == 2 then Some(Zeros(16)) else Finish(ParseGroups(s[2..], [], Some(0)))
    else Finish(ParseGroups(s, [], None))
  }

  function Finish(o: Option<(seq<Byte>, Option<nat>)>): Option<IP> { if o.None? then None
      else Expand(o.value.0, o.value.1) }

  function FirstOf(s: string): Option<char> {
    if s == "" then None else if s[0] == '.' || s[0] == ':' then Some(s[0]) else FirstOf(s[1..])
  }

  function ParseIP(s: string): Option<IP> {
    match FirstOf(s)
    case None => None
    case Some(c) => if c == '.' then ParseIPv4(s) else ParseIPv6(s)
  }

  // ---------------------------------------------------------------------- round trips

  lemma {:induction false} FirstOfDigits(s: string, rest: string)
    requires forall c :: c in s ==> HexValue(c).Some?
    ensures FirstOf(s + rest) == FirstOf(rest)
  {
    if s == "" {
      assert s + rest == rest;
    } else {
      assert s[0] in s && (s + rest)[1..] == s[1..] + rest;
      FirstOfDigits(s[1..], rest);
    }
  }

  /** One octet of a dotted address is read back. */
  lemma OctetBack(p: seq<Byte>, n: Byte, rest: string)
    requires |p| < 4 && (rest == "" || !IsDigit(rest[0]))
    ensures ParseOctets((if |p| > 0 then "." else "") + (Digits(n, 10) + rest), p) == ParseOctets(rest, p + [n])
  {
    var d := Digits(n, 10) + rest;
    ReadBack(10, n, rest);
    if |p| > 0 { assert ("." + d)[1..] == d; } else { assert "" + d == d; }
  }

  /** The octets from j on, separated by dots. */
  function Dots(p: IP, j: nat): string
    requires |p| == 4 && j < 4
    decreases |p| - j
  {
    if j == 3 then Digits(p[j], 10) else Digits(p[j], 10) + ("." + Dots(p, j + 1))
  }

  lemma {:induction false} DotsBack(p: IP, j: nat)
    requires |p| == 4 && j < 4
    ensures ParseOctets((if j > 0 then "." else "") + Dots(p, j), p[..j]) == Some(IPv4(p))
    decreases 4 - j
  {
    assert p[..j] + [p[j]] == p[..j + 1];
    if j == 3 {
      OctetBack(p[..j], p[j], "");
      assert Digits(p[j], 10) + "" == Digits(p[j], 10) && p[..4] == p;
    } else {
      OctetBack(p[..j], p[j], "." + Dots(p, j + 1));
      DotsBack(p, j + 1);
    }
  }

  lemma DottedIsDots(p: IP)
    requires |p| == 4
    ensures Dotted(p) == Dots(p, 0)
  {
    var a, b, c, d := Digits(p[0], 10), Digits(p[1], 10), Digits(p[2], 10), Digits(p[3], 10);
    assert Dots(p, 2) == c + ("." + d) && Dots(p, 1) == b + ("." + Dots(p, 2)) && Dots(p, 0) == a + ("." + Dots(p, 1));
    assert a + "." + b + "." + c + "." + d == a + ("." + (b + ("." + (c + ("." + d)))));
  }

  lemma DottedBack(p: IP)
    requires |p| == 4
    ensures ParseIPv4(Dotted(p)) == Some(IPv4(p)) && FirstOf(Dotted(p)) == Some('.')
  {
    DottedIsDots(p);
    DotsBack(p, 0);
    assert "" + Dots(p, 0) == Dots(p, 0) && p[..0] == [];
    DigitsStart(p[0], 10);
    FirstOfDigits(Digits(p[0], 10), "." + Dots(p, 1));
  }

  /** The printed text from the group at i on, without what separates it from the groups before. */
  function Tail(p: IP, i: nat, run: Run): string
    requires |p| == 16 && i % 2 == 0 && RunOk(p, run)
  {
    if i >= 16 then "" else Digits(Group(p, i), 16) + Print(p, i + 2, run)
  }

  lemma PrintIs(p: IP, i: nat, run: Run)
    requires |p| == 16 && i % 2 == 0 && RunOk(p, run)
    ensures Print(p, i, run) ==
      if i >= 16 then "" else if i == run.e0 then "::" + Tail(p, run.e1, run) else if i > 0 then ":" + Tail(p, i, run)
        else Tail(p, i, run)
  {
    if i < 16 {
      if i == run.e0 { PrintIsRun(p, run); } else { PrintIsGroup(p, i, run, Digits(Group(p, i), 16),
        Print(p, i + 2, run)); }
    }
  }

  lemma PrintIsRun(p: IP, run: Run)
    requires |p| == 16 && RunOk(p, run) && 0 <= run.e0 < 16
    ensures Print(p, run.e0, run) == "::" + Tail(p, run.e1, run)
  {}

  lemma PrintIsGroup(p: IP, i: nat, run: Run, d: string, t: string)
    requires |p| == 16 && i % 2 == 0 && RunOk(p, run) && i < 16 && i != run.e0
    requires d == Digits(Group(p, i), 16) && t == Print(p, i + 2, run)
    ensures Print(p, i, run) == if i > 0 then ":" + (d + t) else d + t
  {
    Glue(d, t);
    assert Print(p, i, run) == (if i > 0 then ":" else "") + d + t;
  }

  lemma Glue(d: string, t: string)
    ensures ":" + d + t == ":" + (d + t) && "" + d + t == d + t
  {}

  /** Groups, separated by colons. */
  function Join(q: seq<Byte>): string
    requires |q| % 2 == 0
  {
    if q == [] then ""
    else if |q| == 2 then Digits(Group(q, 0), 16)
    else Digits(Group(q, 0), 16) + (":" + Join(q[2..]))
  }

  lemma JoinStarts(q: seq<Byte>)
    requires |q| % 2 == 0 && q != []
    ensures Join(q) != "" && Join(q)[0] != ':'
  {
    DigitsStart(Group(q, 0), 16);
    assert Digits(Group(q, 0), 16)[0] in Digits(Group(q, 0), 16);
  }

  /** A group in hexadecimal is read back, up to a colon or the end. */
  lemma GroupStep(a: Byte, b: Byte, rest: string, ip: seq<Byte>, e: Option<nat>)
    requires (rest == "" || rest[0] == ':') && |ip| % 2 == 0 && |ip| < 16
    ensures ParseGroups(Digits(Group([a, b], 0), 16) + rest, ip, e) == ParseColon(rest, ip + [a, b], e)
  {
    var g := Group([a, b], 0);
    ReadBack(16, g, rest);
    assert g <= 0xFFFF && g / 0x100 == a && g % 0x100 == b;
  }

  lemma ColonStep(t: string, ip: seq<Byte>, e: Option<nat>)
    requires t != "" && t[0] != ':' && |ip| % 2 == 0 && |ip| <= 16
    ensures ParseColon(":" + t, ip, e) == ParseGroups(t, ip, e)
  {
    assert (":" + t)[1..] == t;
  }

  lemma EllipsisStep(t: string, ip: seq<Byte>)
    requires |ip| % 2 == 0 && |ip| <= 16
    ensures ParseColon("::" + t, ip, None) == if t == "" then Some((ip, Some(|ip|))) else ParseGroups(t, ip, Some(|ip|))
  {
    assert ("::" + t)[2..] == t;
  }

  /** Groups are read back one by one. */
  lemma {:induction false} JoinBack(q: seq<Byte>, ip: seq<Byte>, e: Option<nat>)
    requires |q| % 2 == 0 && q != [] && |ip| % 2 == 0 && |ip| + |q| <= 16
    ensures ParseGroups(Join(q), ip, e) == Some((ip + q, e))
    decreases |q|
  {
    assert Group(q, 0) == Group([q[0], q[1]], 0);
    if |q| == 2 {
      LastGroup(q, ip, e);
    } else {
      GroupStep(q[0], q[1], ":" + Join(q[2..]), ip, e);
      JoinStarts(q[2..]);
      ColonStep(Join(q[2..]), ip + [q[0], q[1]], e);
      JoinBack(q[2..], ip + [q[0], q[1]], e);
      TwoMore(q, ip);
    }
  }

  lemma LastGroup(q: seq<Byte>, ip: seq<Byte>, e: Option<nat>)
    requires |q| == 2 && |ip| % 2 == 0 && |ip| < 16
    ensures ParseGroups(Join(q), ip, e) == Some((ip + q, e))
  {
    assert q == [q[0], q[1]];
    GroupStep(q[0], q[1], "", ip, e);
    assert Digits(Group(q, 0), 16) + "" == Digits(Group(q, 0), 16);
  }

  lemma TwoMore(q: seq<Byte>, ip: seq<Byte>)
    requires |q| >= 2
    ensures ip + [q[0], q[1]] + q[2..] == ip + q
  {}

  /** Where nothing more is abbreviated the text is all the groups. */
  lemma {:induction false} TailPast(p: IP, i: nat, run: Run)
    requires |p| == 16 && i % 2 == 0 && i < 16 && RunOk(p, run) && run.e0 < i
    ensures Tail(p, i, run) == Join(p[i..])
    decreases 16 - i
  {
    var q := p[i..];
    assert Group(q, 0) == Group(p, i);
    PrintIs(p, i + 2, run);
    if i + 2 < 16 {
      TailPast(p, i + 2, run);
      assert q[2..] == p[i + 2..];
    } else {
      assert Digits(Group(p, i), 16) + "" == Digits(Group(p, i), 16);
    }
  }

  lemma TailBehind(p: IP, run: Run)
    requires |p| == 16 && run != NO_RUN && RunOk(p, run)
    ensures Tail(p, run.e1, run) == Join(p[run.e1..])
  {
    if run.e1 < 16 { TailPast(p, run.e1, run); } else { assert p[run.e1..] == []; }
  }

  /** The bytes that are printed, the run left out. */
  function Kept(p: IP, run: Run): seq<Byte>
    requires |p| == 16 && run != NO_RUN && RunOk(p, run)
  {
    p[..run.e0] + p[run.e1..]
  }

  lemma ExpandBack(p: IP, run: Run)
    requires |p| == 16 && run != NO_RUN && RunOk(p, run)
    ensures Expand(Kept(p, run), Some(run.e0)) == Some(p)
  {
    var ip := Kept(p, run);
    assert ip[..run.e0] == p[..run.e0] && ip[run.e0..] == p[run.e1..];
    assert p == p[..run.e0] + Zeros(run.e1 - run.e0) + p[run.e1..];
  }

  /** What stands behind an ellipsis. */
  lemma EllipsisBack(q: seq<Byte>, ip: seq<Byte>)
    requires |q| % 2 == 0 && |ip| % 2 == 0 && |ip| + |q| <= 16
    ensures ParseColon("::" + Join(q), ip, None) == Some((ip + q, Some(|ip|)))
  {
    EllipsisStep(Join(q), ip);
    if q == [] {
      assert ip + q == ip;
    } else {
      JoinStarts(q);
      JoinBack(q, ip, Some(|ip|));
    }
  }

  /** Up to the ellipsis, and on behind it. */
  lemma {:induction false} BeforeBack(p: IP, i: nat, run: Run)
    requires |p| == 16 && i % 2 == 0 && run != NO_RUN && RunOk(p, run) && i < run.e0
    ensures ParseGroups(Tail(p, i, run), p[..i], None) == Some((Kept(p, run), Some(run.e0)))
    decreases 16 - i
  {
    GroupBefore(p, i, run);
    if i + 2 == run.e0 {
      EllipsisBefore(p, run);
    } else {
      ColonBefore(p, i + 2, run);
      BeforeBack(p, i + 2, run);
    }
  }

  lemma EllipsisBefore(p: IP, run: Run)
    requires |p| == 16 && run != NO_RUN && RunOk(p, run) && run.e0 < 16
    ensures ParseColon(Print(p, run.e0, run), p[..run.e0], None) == Some((Kept(p, run), Some(run.e0)))
  {
    PrintBehind(p, run);
    EllipsisBack(p[run.e1..], p[..run.e0]);
  }

  lemma PrintBehind(p: IP, run: Run)
    requires |p| == 16 && run != NO_RUN && RunOk(p, run) && run.e0 < 16
    ensures Print(p, run.e0, run) == "::" + Join(p[run.e1..])
  {
    PrintIs(p, run.e0, run);
    TailBehind(p, run);
  }

  lemma GroupBefore(p: IP, i: nat, run: Run)
    requires |p| == 16 && i % 2 == 0 && RunOk(p, run) && i < run.e0
    ensures ParseGroups(Tail(p, i, run), p[..i], None) == ParseColon(Print(p, i + 2, run), p[..i + 2], None)
  {
    assert p[..i] + [p[i], p[i + 1]] == p[..i + 2];
    assert Group([p[i], p[i + 1]], 0) == Group(p, i);
    PrintIs(p, i + 2, run);
    GroupStep(p[i], p[i + 1], Print(p, i + 2, run), p[..i], None);
  }

  lemma ColonBefore(p: IP, i: nat, run: Run)
    requires |p| == 16 && i % 2 == 0 && RunOk(p, run) && 0 < i < run.e0
    ensures ParseColon(Print(p, i, run), p[..i], None) == ParseGroups(Tail(p, i, run), p[..i], None)
  {
    PrintIs(p, i, run);
    TailStarts(p, i, run);
    ColonStep(Tail(p, i, run), p[..i], None);
  }

  lemma TailStarts(p: IP, i: nat, run: Run)
    requires |p| == 16 && i % 2 == 0 && i < 16 && RunOk(p, run)
    ensures Tail(p, i, run) != "" && Tail(p, i, run)[0] != ':'
  {
    DigitsStart(Group(p, i), 16);
    assert Digits(Group(p, i), 16)[0] in Digits(Group(p, i), 16);
  }

  lemma PlainBack(p: IP)
    requires |p| == 16
    ensures ParseIPv6(Join(p)) == Some(p)
  {
    JoinStarts(p);
    JoinBack(p, [], None);
    assert [] + p == p;
  }

  lemma MiddleBack(p: IP, run: Run)
    requires |p| == 16 && run != NO_RUN && RunOk(p, run) && run.e0 > 0
    ensures ParseIPv6(Tail(p, 0, run)) == Some(p)
  {
    TailStarts(p, 0, run);
    assert p[..0] == [];
    BeforeBack(p, 0, run);
    ExpandBack(p, run);
  }

  lemma LeadingBack(p: IP, run: Run)
    requires |p| == 16 && run != NO_RUN && RunOk(p, run) && run.e0 == 0
    ensures ParseIPv6("::" + Join(p[run.e1..])) == Some(p)
  {
    var back := p[run.e1..];
    EllipsisBack(back, []);
    EllipsisStep(Join(back), []);
    assert ("::" + Join(back))[2..] == Join(back) && Kept(p, run) == [] + back;
    ExpandBack(p, run);
    if back == [] { assert p == Zeros(16); } else { JoinStarts(back); }
  }

  /** An address is read back from its hexadecimal form, whichever run of zero groups it abbreviates. */
  lemma HexBack(p: IP, run: Run)
    requires |p| == 16 && RunOk(p, run)
    ensures ParseIPv6(Print(p, 0, run)) == Some(p)
  {
    PrintIs(p, 0, run);
    if run == NO_RUN {
      TailPast(p, 0, run);
      assert p[0..] == p;
      PlainBack(p);
    } else if run.e0 == 0 {
      TailBehind(p, run);
      LeadingBack(p, run);
    } else {
      MiddleBack(p, run);
    }
  }

  /** Its first separator is a colon. */
  lemma HexHasColon(p: IP, run: Run)
    requires |p| == 16 && RunOk(p, run)
    ensures FirstOf(Print(p, 0, run)) == Some(':')
  {
    PrintIs(p, 0, run);
    if run.e0 != 0 {
      PrintIs(p, 2, run);
      DigitsStart(Group(p, 0), 16);
      FirstOfDigits(Digits(Group(p, 0), 16), Print(p, 2, run));
    }
  }

  lemma ZeroRunOk(p: IP)
    requires |p| == 16
    ensures RunOk(p, ZeroRun(p))
  {
    ZeroRunIsFirstLongest(p);
  }

  /** Every address is read back from its text: an IPv4 address in the 16-byte form, whichever form it had. */
  lemma ParseText(ip: IP)
    requires |ip| == 4 || |ip| == 16
    ensures ParseIP(Text(ip)) == To16(ip)
  {
    if To4(ip).Some? {
      var p := To4(ip).value;
      DottedBack(p);
      if |ip| == 16 { MappedForm(ip); }
    } else {
      ZeroRunOk(ip);
      HexHasColon(ip, ZeroRun(ip));
      HexBack(ip, ZeroRun(ip));
    }
  }

  lemma MappedForm(ip: IP)
    requires |ip| == 16 && To4(ip).Some?
    ensures IPv4(ip[12..]) == ip
  {
    forall i | 0 <= i < 10 ensures ip[i] == 0 { assert ip[..10][i] == 0; }
  }

  // ------------------------------------------------------------------- the loops: numbers

  /** x >> 4j. */
  function Shr(x: nat, j: nat): nat { if j == 0 then x else Shr(x, j - 1) / 16 }

  lemma Shr8(x: nat)
    requires x < 0x1_0000_0000
    ensures Shr(x, 8) == 0
  {
    assert Shr(x, 1) == x / 16;
    assert Shr(x, 2) < 0x100_0000;
    assert Shr(x, 3) == Shr(x, 2) / 16;
    assert Shr(x, 4) < 0x1_0000;
    assert Shr(x, 6) < 0x100;
  }

  /** Appends i in hexadecimal, from the most significant digit on. */
  method AppendHex(dst: string, i: nat) returns (r: string)
    requires i < 0x1_0000_0000
    ensures r == dst + Digits(i, 16)
  {
    if i == 0 {
      return dst + "0";
    }
    r := dst;
    Shr8(i);
    var j := 8;
    while j > 0
      invariant 0 <= j <= 8 && r == if Shr(i, j) == 0 then dst else dst + Digits(Shr(i, j), 16)
    {
      j := j - 1;
      var v := Shr(i, j);
      assert Shr(i, j + 1) == v / 16;
      if v > 0 {
        r := r + [HexDigit(v % 16)];
      }
    }
  }

  function Pow10(k: nat): nat { if k == 0 then 1 else 10 * Pow10(k - 1) }

  lemma {:induction false} DigitsLength(n: nat, k: nat)
    requires n < Pow10(k) && k > 0
    ensures |Digits(n, 10)| <= k
  {
    if n >= 10 && k > 1 { DigitsLength(n / 10, k - 1); }
  }

  lemma Pow20()
    ensures Pow10(20) == 100_000_000_000_000_000_000
  {
    assert Pow10(2) == 100;
    assert Pow10(4) == 1_0000;
    assert Pow10(6) == 100_0000;
    assert Pow10(8) == 1_0000_0000;
    assert Pow10(10) == 100_0000_0000;
    assert Pow10(12) == 1_0000_0000_0000;
    assert Pow10(14) == 100_0000_0000_0000;
    assert Pow10(16) == 1_0000_0000_0000_0000;
    assert Pow10(18) == 100_0000_0000_0000_0000;
  }

  /** One digit more in front of those written so far. */
  lemma DigitBefore(val: nat, written: string)
    requires val >= 10
    ensures Digits(val / 10, 10) + ([HexDigit(val % 10)] + written) == Digits(val, 10) + written
  {
    assert Digits(val / 10, 10) + ([HexDigit(val % 10)] + written) == Digits(val / 10, 10) + [HexDigit(val % 10)] +
      written;
  }

  /** Writes a digit into the buffer in front of what is there. */
  method WriteDigit(buf: array<char>, i: nat, d: nat)
    requires i < buf.Length && d < 10
    modifies buf
    ensures buf[i..] == [HexDigit(d)] + old(buf[i + 1..])
  {
    ghost var before := buf[i + 1..];
    buf[i] := '0' + d as char;
    assert buf[i..] == [HexDigit(d)] + before;
  }

  /** A 64-bit number in decimal, written from the end of a buffer of 20 bytes. */
  method Uitoa(val0: nat) returns (r: string)
    requires val0 < 0x1_0000_0000_0000_0000
    ensures r == Digits(val0, 10)
  {
    var val := val0;
    if val == 0 {
      return "0";
    }
    var buf := new char[20](i => '0');
    var i := buf.Length - 1;
    FitsIn20(val0);
    assert buf[i + 1..] == "";
    while val >= 10
      invariant 0 <= i < 20 && Digits(val, 10) + buf[i + 1..] == Digits(val0, 10)
      invariant |Digits(val, 10)| <= i + 1
      decreases val
    {
      var q := val / 10;
      DigitBefore(val, buf[i + 1..]);
      WriteDigit(buf, i, val - q * 10);
      i := i - 1;
      val := q;
    }
    WriteDigit(buf, i, val);
    return buf[i..];
  }

  lemma FitsIn20(val: nat)
    requires val < 0x1_0000_0000_0000_0000
    ensures |Digits(val, 10)| <= 20
  {
    Pow20();
    DigitsLength(val, 20);
  }

  /** Reads a decimal number at i0. */
  method Dtoi(s: string, i0: nat) returns (n: nat, i: nat, ok: bool)
    requires i0 <= |s|
    ensures i <= |s|
    ensures match Read(10, s[i0..]) {
      case None => !ok
      case Some((m, rest)) => ok && n == m && s[i..] == rest && i > i0
    }
  {
    n, i := 0, i0;
    while i < |s| && '0' <= s[i] <= '9'
      invariant i0 <= i <= |s| && ReadOn(10, s[i..], n) == ReadOn(10, s[i0..], 0)
    {
      assert s[i..][0] == s[i] && s[i..][1..] == s[i + 1..];
      n := n * 10 + (s[i] - '0') as nat;
      if n >= BIG {
        return 0, i, false;
      }
      i := i + 1;
    }
    if i == i0 {
      return 0, i, false;
    }
    ok := true;
    if i < |s| { assert s[i..][0] == s[i]; }
  }

  /** Reads a hexadecimal number at i0. */
  method Xtoi(s: string, i0: nat) returns (n: nat, i: nat, ok: bool)
    requires i0 <= |s|
    ensures i <= |s|
    ensures match Read(16, s[i0..]) {
      case None => !ok
      case Some((m, rest)) => ok && n == m && s[i..] == rest && i > i0
    }
  {
    n, i := 0, i0;
    while i < |s|
      invariant i0 <= i <= |s| && ReadOn(16, s[i..], n) == ReadOn(16, s[i0..], 0)
    {
      assert s[i..][0] == s[i] && s[i..][1..] == s[i + 1..];
      if '0' <= s[i] <= '9' {
        n := n * 16;
        n := n + (s[i] - '0') as nat;
      } else if 'a' <= s[i] <= 'f' {
        n := n * 16;
        n := n + (s[i] - 'a') as nat + 10;
      } else if 'A' <= s[i] <= 'F' {
        n := n * 16;
        n := n + (s[i] - 'A') as nat + 10;
      } else {
        break;
      }
      if n >= BIG {
        return 0, i, false;
      }
      i := i + 1;
    }
    if i == i0 {
      return 0, i, false;
    }
    ok := true;
  }

  // ------------------------------------------------------------- the loops: printing

  method FindRunEnd(p: IP, i: nat) returns (j: nat)
    requires |p| == 16 && i <= 16 && i % 2 == 0
    ensures j == RunEnd(p, i)
  {
    j := i;
    while j < 16 && p[j] == 0 && p[j + 1] == 0
      invariant i <= j <= 16 && j % 2 == 0 && RunEnd(p, j) == RunEnd(p, i)
    {
      j := j + 2;
    }
  }

  /** One turn of the loop. */
  method FindRunTurn(p: IP, i0: nat, r0: Run) returns (i: nat, r: Run)
    requires |p| == 16 && i0 < 16 && i0 % 2 == 0
    ensures i0 < i <= 18 && i % 2 == 0 && FindRun(p, i, r) == FindRun(p, i0, r0)
  {
    FindRunStep(p, i0, r0);
    i, r := i0, r0;
    var j := FindRunEnd(p, i);
    if j > i && j - i > r.e1 - r.e0 {
      r := Run(i, j);
      i := j;
    }
    i := i + 2;
  }

  /** Finds the run of zero groups to abbreviate. */
  method FindZeroRun(p: IP) returns (r: Run)
    requires |p| == 16
    ensures r == ZeroRun(p)
  {
    r := NO_RUN;
    var i: nat := 0;
    while i < 16
      invariant i <= 18 && i % 2 == 0 && FindRun(p, i, r) == FindRun(p, 0, NO_RUN)
    {
      i, r := FindRunTurn(p, i, r);
    }
    if r.e1 - r.e0 <= 2 {
      r := NO_RUN;
    }
  }

  lemma FindRunStep(p: IP, i: nat, best: Run)
    requires |p| == 16 && i < 16 && i % 2 == 0
    ensures var j := RunEnd(p, i);
      FindRun(p, i, best) == if j > i && j - i > best.e1 - best.e0 then FindRun(p, j + 2, Run(i, j))
        else FindRun(p, i + 2, best)
  {}

  /** The text of an address: dotted decimal for IPv4, otherwise hexadecimal groups. */
  method String(ip: IP) returns (r: string)
    ensures r == Text(ip)
  {
    if |ip| == 0 {
      return "<nil>";
    }
    var p4 := To4(ip);
    if p4.Some? {
      var p := p4.value;
      var a := Uitoa(p[0]);
      var b := Uitoa(p[1]);
      var c := Uitoa(p[2]);
      var d := Uitoa(p[3]);
      return a + "." + b + "." + c + "." + d;
    }
    if |ip| != 16 {
      return "?";
    }
    var run := FindZeroRun(ip);
    ZeroRunOk(ip);
    r := PrintRun(ip, run);
  }

  /** Prints with "::" in place of the run. */
  method PrintRun(p: IP, run: Run) returns (b: string)
    requires |p| == 16 && RunOk(p, run)
    ensures b == Print(p, 0, run)
  {
    b := "";
    var i: nat := 0;
    while i < 16
      invariant 0 <= i <= 18 && i % 2 == 0 && b + Print(p, i, run) == Print(p, 0, run)
    {
      b, i := PrintNext(p, run, b, i);
    }
  }

  /** One turn of the loop: a group with what separates it from the one before. */
  method PrintNext(p: IP, run: Run, b0: string, i0: nat) returns (b: string, i: nat)
    requires |p| == 16 && RunOk(p, run) && i0 < 16 && i0 % 2 == 0
    ensures i0 < i <= 18 && i % 2 == 0 && b + Print(p, i, run) == b0 + Print(p, i0, run)
  {
    if i0 == run.e0 {
      b, i := PrintAtRun(p, run, b0);
    } else {
      b := PrintPlain(p, run, b0, i0);
      i := i0 + 2;
    }
  }

  /** The run, and the group behind it unless it reaches the end. */
  method PrintAtRun(p: IP, run: Run, b0: string) returns (b: string, i: nat)
    requires |p| == 16 && run != NO_RUN && RunOk(p, run)
    ensures run.e0 < i <= 18 && i % 2 == 0 && b + Print(p, i, run) == b0 + Print(p, run.e0, run)
  {
    PrintIs(p, run.e0, run);
    Regroup(b0, "::", Tail(p, run.e1, run));
    b := b0 + "::";
    i := run.e1;
    if i < 16 {
      b := PrintGroup(p, run, b, i);
      i := i + 2;
    }
  }

  method PrintPlain(p: IP, run: Run, b0: string, i: nat) returns (b: string)
    requires |p| == 16 && RunOk(p, run) && i < 16 && i % 2 == 0 && i != run.e0
    ensures b + Print(p, i + 2, run) == b0 + Print(p, i, run)
  {
    PrintIs(p, i, run);
    b := b0;
    if i > 0 {
      Regroup(b0, ":", Tail(p, i, run));
      b := b + ":";
    }
    b := PrintGroup(p, run, b, i);
  }

  method PrintGroup(p: IP, run: Run, b0: string, i: nat) returns (b: string)
    requires |p| == 16 && RunOk(p, run) && i < 16 && i % 2 == 0
    ensures b + Print(p, i + 2, run) == b0 + Tail(p, i, run)
  {
    Regroup(b0, Digits(Group(p, i), 16), Print(p, i + 2, run));
    b := AppendHex(b0, Group(p, i));
  }

  lemma Regroup(a: string, b: string, c: string)
    ensures a + (b + c) == (a + b) + c
  {}

  // --------------------------------------------------------------- the loops: parsing

  /** Four decimal octets, separated by dots. */
  method ParseDotted(s: string) returns (r: Option<IP>)
    ensures r == ParseIPv4(s)
  {
    var p := new Byte[4](i => 0);
    var i := 0;
    assert s[0..] == s;
    for j := 0 to 4
      invariant 0 <= i <= |s| && ParseOctets(s[i..], p[..j]) == ParseIPv4(s)
    {
      if i >= |s| {
        return None;
      }
      ghost var t := s[i..];
      if j > 0 {
        if s[i] != '.' {
          return None;
        }
        i := i + 1;
        assert s[i..] == t[1..];
      }
      var n, ok;
      n, i, ok := Dtoi(s, i);
      if !ok || n > 0xFF {
        return None;
      }
      ghost var before := p[..j];
      p[j] := n;
      assert p[..j + 1] == before + [n];
    }
    if i != |s| {
      return None;
    }
    assert p[..] == p[..4];
    return Some(IPv4(p[..]));
  }

  function Position(ellipsis: int): Option<nat> { if ellipsis < 0 then None else Some(ellipsis) }

  /** Where the loop over the groups stands: before position i of s, with j bytes filled in. */
  ghost predicate Stands(s: string, i: nat, ip: array<Byte>, j: nat, ellipsis: int, o: Option<(seq<Byte>, Option<nat>)>)
    reads ip
  {
    && ip.Length == 16 && i <= |s| && j <= 16 && j % 2 == 0 && ellipsis <= j
    && ParseGroups(s[i..], ip[..j], Position(ellipsis)) == o
  }

  /** The loop body: what a group and the separator behind it do. */
  method ParseGroup(s: string, i0: nat, ip: array<Byte>, j0: nat, ellipsis0: int, ghost o: Option<(seq<Byte>,
      Option<nat>)>) returns (fail: bool, stop: bool, i: nat, j: nat, ellipsis: int)
    requires Stands(s, i0, ip, j0, ellipsis0, o) && j0 < 16
    modifies ip
    ensures fail ==> o.None?
    ensures !fail && !stop ==> Stands(s, i, ip, j, ellipsis, o) && i > i0
    ensures !fail && stop ==> i == |s| && j <= 16 && ellipsis <= j && o == Some((ip[..j], Position(ellipsis)))
  {
    fail, stop, i, j, ellipsis := false, false, i0, j0, ellipsis0;
    var n, i1, ok := Xtoi(s, i0);
    if !ok || n > 0xFFFF {
      fail := true;
      return;
    }
    ghost var rest := s[i1..];
    if i1 < |s| { assert rest[0] == s[i1]; }
    assert o == ParseBehind(s[i0..], n, rest, ip[..j0], Position(ellipsis0));
    if i1 < |s| && s[i1] == '.' {
      fail, j := ParseDottedTail(s, i0, ip, j0, ellipsis0);
      stop, i := true, |s|;
      return;
    }
    ghost var before := ip[..j];
    ip[j] := n / 0x100;
    ip[j + 1] := n % 0x100;
    j := j + 2;
    assert ip[..j] == before + [n / 0x100, n % 0x100];
    fail, stop, i, ellipsis := ParseSeparator(s, i1, j, ip[..j], ellipsis);
  }

  /** An IPv4 address at the end. */
  method ParseDottedTail(s: string, i: nat, ip: array<Byte>, j0: nat, ellipsis: int) returns (fail: bool, j: nat)
    requires i <= |s| && ip.Length == 16 && j0 < 16 && ellipsis <= j0
    modifies ip
    ensures var o := ParseTrailer(s[i..], old(ip[..j0]), Position(ellipsis));
      if fail then o.None? else j <= 16 && ellipsis <= j && o == Some((ip[..j], Position(ellipsis)))
  {
    fail, j := true, j0;
    if ellipsis < 0 && j0 != 12 {
      return;
    }
    if j0 + 4 > 16 {
      return;
    }
    var ip4 := ParseDotted(s[i..]);
    if ip4.None? {
      return;
    }
    DottedLength(s[i..], []);
    ghost var before := ip[..j0];
    var p := ip4.value;
    ip[j0] := p[12];
    ip[j0 + 1] := p[13];
    ip[j0 + 2] := p[14];
    ip[j0 + 3] := p[15];
    j := j0 + 4;
    assert ip[..j] == before + p[12..];
    fail := false;
  }

  lemma {:induction false} DottedLength(s: string, p: seq<Byte>)
    requires |p| <= 4
    ensures ParseOctets(s, p).Some? ==> |ParseOctets(s, p).value| == 16
    decreases 4 - |p|
  {
    if |p| < 4 && s != "" {
      var o := Read(10, if |p| > 0 then s[1..] else s);
      if o.Some? && o.value.0 <= 0xFF { DottedLength(o.value.1, p + [o.value.0]); }
    }
  }

  /** Behind a group: the end, a colon and more, or the ellipsis. */
  method ParseSeparator(s: string, i0: nat, j: nat, ghost ip: seq<Byte>, ellipsis0: int)
      returns (fail: bool, stop: bool, i: nat, ellipsis: int)
    requires i0 <= |s| && j == |ip| <= 16 && |ip| % 2 == 0 && ellipsis0 <= |ip|
    ensures var o := ParseColon(s[i0..], ip, Position(ellipsis0));
      && (fail ==> o.None?) && (!fail ==> i0 <= i <= |s| && ellipsis <= |ip|)
      && (!fail && stop ==> i == |s| && o == Some((ip, Position(ellipsis))))
      && (!fail && !stop ==> o == ParseGroups(s[i..], ip, Position(ellipsis)))
  {
    fail, stop, i, ellipsis := false, false, i0, ellipsis0;
    ghost var t := s[i0..];
    if i == |s| {
      stop := true;
      return;
    }
    assert t[0] == s[i] && |t| == |s| - i;
    if s[i] != ':' || i + 1 == |s| {
      fail := true;
      return;
    }
    i := i + 1;
    assert s[i..] == t[1..] && t[1] == s[i];
    if s[i] == ':' {
      if ellipsis >= 0 {
        fail := true;
        return;
      }
      ellipsis := j;
      i := i + 1;
      assert s[i..] == t[2..];
      if i == |s| {
        stop := true;
      }
    }
  }

  /** Moves the bytes behind the ellipsis to the end of the array, and zeros into the gap. */
  method ExpandInPlace(ip: array<Byte>, j: nat, ellipsis: nat)
    requires ip.Length == 16 && ellipsis <= j < 16
    modifies ip
    ensures Expand(old(ip[..j]), Some(ellipsis)) == Some(ip[..])
  {
    var n := 16 - j;
    ghost var was := ip[..j];
    MoveUp(ip, j, ellipsis, n);
    ZeroOut(ip, ellipsis, n);
    assert ip[..ellipsis] == was[..ellipsis];
    assert ip[ellipsis..ellipsis + n] == Zeros(n);
    assert ip[ellipsis + n..] == was[ellipsis..];
    assert ip[..] == ip[..ellipsis] + ip[ellipsis..ellipsis + n] + ip[ellipsis + n..];
  }

  method MoveUp(ip: array<Byte>, j: nat, ellipsis: nat, n: nat)
    requires ip.Length == 16 && ellipsis <= j && n == 16 - j > 0
    modifies ip
    ensures forall m :: 0 <= m < ellipsis ==> ip[m] == old(ip[m])
    ensures forall m :: ellipsis + n <= m < 16 ==> ip[m] == old(ip[m - n])
  {
    var k: int := j - 1;
    while k >= ellipsis
      invariant ellipsis - 1 <= k < j
      invariant forall m :: 0 <= m <= k ==> ip[m] == old(ip[m])
      invariant forall m :: k + n < m < 16 ==> ip[m] == old(ip[m - n])
    {
      ip[k + n] := ip[k];
      k := k - 1;
    }
  }

  method ZeroOut(ip: array<Byte>, ellipsis: nat, n: nat)
    requires ip.Length == 16 && ellipsis + n <= 16
    modifies ip
    ensures forall m :: ellipsis <= m < ellipsis + n ==> ip[m] == 0
    ensures forall m :: 0 <= m < ellipsis || ellipsis + n <= m < 16 ==> ip[m] == old(ip[m])
  {
    var k: int := ellipsis + n - 1;
    while k >= ellipsis
      invariant ellipsis - 1 <= k < ellipsis + n
      invariant forall m :: 0 <= m <= k || ellipsis + n <= m < 16 ==> ip[m] == old(ip[m])
      invariant forall m :: k < m < ellipsis + n ==> ip[m] == 0
    {
      ip[k] := 0;
      k := k - 1;
    }
  }

  /** An IPv6 address, without a zone. */
  method ParseHex(s: string) returns (r: Option<IP>)
    ensures r == ParseIPv6(s)
  {
    var ip := new Byte[16](i => 0);
    var ellipsis, i, j: nat := -1, 0, 0;
    if |s| >= 2 && s[0] == ':' && s[1] == ':' {
      ellipsis := 0;
      i := 2;
      if i == |s| {
        assert ip[..] == Zeros(16);
        return Some(ip[..]);
      }
    }
    ghost var o := ParseGroups(s[i..], [], Position(ellipsis));
    assert s[0..] == s && ip[..0] == [];
    assert ParseIPv6(s) == Finish(o);
    var fail, stop := false, false;
    while j < 16 && !stop
      invariant j <= 16 && ip.Length == 16 && i <= |s| && ellipsis <= j
      invariant if stop then i == |s| && o == Some((ip[..j], Position(ellipsis))) else Stands(s, i, ip, j, ellipsis, o)
      decreases !stop, |s| - i
    {
      fail, stop, i, j, ellipsis := ParseGroup(s, i, ip, j, ellipsis, o);
      if fail {
        return None;
      }
    }
    if i != |s| {
      return None;
    }
    assert s[|s|..] == [];
    assert o == Some((ip[..j], Position(ellipsis)));
    if j < 16 {
      if ellipsis < 0 {
        return None;
      }
      ExpandInPlace(ip, j, ellipsis);
    } else if ellipsis >= 0 {
      return None;
    }
    assert ip[..16] == ip[..];
    return Some(ip[..]);
  }

  /** Dotted decimal or hexadecimal groups, whichever the first separator says. */
  method Parse(s: string) returns (r: Option<IP>)
    ensures r == ParseIP(s)
  {
    assert s[0..] == s;
    for i := 0 to |s|
      invariant FirstOf(s[i..]) == FirstOf(s)
    {
      assert s[i..][0] == s[i] && s[i..][1..] == s[i + 1..];
      match s[i] {
        case '.' =>
          r := ParseDotted(s);
          return;
        case ':' =>
          r := ParseHex(s);
          return;
        case _ =>
      }
    }
    return None;
  }
}
