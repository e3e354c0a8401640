/**
 * The log-file name pattern of src/core/util.ts and its two variants (the
 * archive pattern `source + ".gz"` and the pattern of src/core/logger-folder.ts),
 * as a small regular-expression matcher with JavaScript's semantics for the
 * constructs they use: literal characters, `.`, greedy digit-run groups and a
 * greedy optional `(\.gz)` group, unanchored, leftmost match first. The infix
 * is taken as literal characters.
 */
module FileNaming {
  import opened Wrappers
  import opened Decimal

  /** JavaScript's line terminators, the characters `.` does not match. */
  predicate IsLineTerminator(c: char)
  {
    c == '\n' || c == '\r' || c as int == 0x2028 || c as int == 0x2029
  }

  datatype Bound = AtMost(n: nat) | Unbounded

  datatype Node =
    | Char(c: char)                    // a literal character
    | Dot                              // `.`
    | DigitRun(min: nat, max: Bound)   // a capturing group `(\d{min,max})`, or `(\d+)` when unbounded
    | OptionalGz                       // the capturing group `(\.gz)?`

  /** The captured digit runs, in order, and the `(\.gz)?` group when it took part. */
  datatype Captures = Captures(runs: seq<string>, gz: bool)

  /** The number of digit-run groups in a pattern. */
  function RunCount(p: seq<Node>): nat
  {
    if p == [] then 0 else (if p[0].DigitRun? then 1 else 0) + RunCount(p[1..])
  }

  /** What a successful match captures: one run of digits per digit-run group. */
  ghost predicate WellCaptured(p: seq<Node>, c: Captures)
  {
    |c.runs| == RunCount(p) && forall k :: 0 <= k < |c.runs| ==> AllDigits(c.runs[k]) && c.runs[k] != []
  }

  /** The length of the run of digits `t` starts with. */
  function DigitPrefix(t: string): (n: nat)
    ensures n <= |t| && AllDigits(t[..n]) && (n < |t| ==> !IsDigit(t[n]))
  {
    if t == [] || !IsDigit(t[0]) then 0
    else
      assert t[..1 + DigitPrefix(t[1..])] == [t[0]] + t[1..][..DigitPrefix(t[1..])];
      1 + DigitPrefix(t[1..])
  }

  function Cap(n: nat, b: Bound): (r: nat)
    ensures r <= n
  {
    match b
    case AtMost(m) => if n < m then n else m
    case Unbounded => n
  }

  /**
   * The first match of `p` at the very start of `t`, in the order JavaScript's
   * backtracking tries the alternatives, or `None`.
   */
  function MatchAt(p: seq<Node>, t: string): (r: Option<Captures>)
    ensures r.Some? ==> WellCaptured(p, r.value)
    decreases |p|, |t| + 1
  {
    if p == [] then Some(Captures([], false))
    else
      match p[0]
      case Char(c) =>
        if t != [] && t[0] == c then MatchAt(p[1..], t[1..]) else None
      case Dot =>
        if t != [] && !IsLineTerminator(t[0]) then MatchAt(p[1..], t[1..]) else None
      case DigitRun(min, max) =>
        TryRun(p, t, Cap(DigitPrefix(t), max))
      case OptionalGz =>
        var skip := MatchAt(p[1..], t);
        if |t| >= 3 && t[..3] == ".gz" then
          match MatchAt(p[1..], t[3..])
          case Some(c) => Some(Captures(c.runs, true))
          case None => skip
        else skip
  }

  /** A digit-run group at the head of `p` takes `k` digits, then gives them back one by one. */
  function TryRun(p: seq<Node>, t: string, k: nat): (r: Option<Captures>)
    requires p != [] && p[0].DigitRun? && k <= DigitPrefix(t)
    ensures r.Some? ==> WellCaptured(p, r.value)
    decreases |p|, k
  {
    if k < p[0].min || k == 0 then None
    else
      match MatchAt(p[1..], t[k..])
      case Some(c) =>
        assert AllDigits(t[..k]) by { assert t[..k] == t[..DigitPrefix(t)][..k]; }
        Some(Captures([t[..k]] + c.runs, c.gz))
      case None => TryRun(p, t, k - 1)
  }

  /** `name.match(regex)` for an unanchored pattern: the match at the leftmost position that has one. */
  function FirstMatch(p: seq<Node>, t: string): (r: Option<Captures>)
    ensures r.Some? ==> WellCaptured(p, r.value)
    decreases |t|
  {
    match MatchAt(p, t)
    case Some(c) => Some(c)
    case None => if t == [] then None else FirstMatch(p, t[1..])
  }

  /** The pattern spelling `w` character by character. */
  function Literal(w: string): (p: seq<Node>)
    ensures |p| == |w| && RunCount(p) == 0
  {
    if w == [] then [] else [Char(w[0])] + Literal(w[1..])
  }

  /**
   * `(\d{4})-(\d{1,2})-(\d{1,2})-(<id>).` followed by `rest`, where `<id>` is
   * `\d{1,3}` or `\d+`.
   */
  function Fields(id: Bound, rest: seq<Node>): (p: seq<Node>)
    ensures RunCount(p) == 4 + RunCount(rest)
  {
    var p := [DigitRun(4, AtMost(4)), Char('-'), DigitRun(1, AtMost(2)), Char('-'), DigitRun(1, AtMost(2)), Char('-'),
              DigitRun(1, id), Dot] + rest;
    assert RunCount(p[7..]) == RunCount(rest) by { assert p[7..][1..] == rest; }
    assert RunCount(p[6..]) == 1 + RunCount(rest) by { assert p[6..][1..] == p[7..]; }
    assert RunCount(p[5..]) == 1 + RunCount(rest) by { assert p[5..][1..] == p[6..]; }
    assert RunCount(p[4..]) == 2 + RunCount(rest) by { assert p[4..][1..] == p[5..]; }
    assert RunCount(p[3..]) == 2 + RunCount(rest) by { assert p[3..][1..] == p[4..]; }
    assert RunCount(p[2..]) == 3 + RunCount(rest) by { assert p[2..][1..] == p[3..]; }
    assert RunCount(p[1..]) == 3 + RunCount(rest) by { assert p[1..][1..] == p[2..]; }
    p
  }

  /** `bilbo-<infix>-(\d{4})-(\d{1,2})-(\d{1,2})-(<id>).log` followed by `tail`. */
  function FilePattern(infix: string, id: Bound, tail: seq<Node>): (p: seq<Node>)
    requires RunCount(tail) == 0
    ensures RunCount(p) == 4
  {
    RunCountAppend(Literal("log"), tail);
    RunCountAppend(Literal("bilbo-" + infix + "-"), Fields(id, Literal("log") + tail));
    Literal("bilbo-" + infix + "-") + Fields(id, Literal("log") + tail)
  }

  /** `create_file_regex(infix)`. */
  function LogPattern(infix: string): (p: seq<Node>)
    ensures RunCount(p) == 4
  {
    FilePattern(infix, AtMost(3), [])
  }

  /** `new RegExp(create_file_regex(infix).source + ".gz")`, the archive pattern: the `.` is unescaped. */
  function ArchivePattern(infix: string): (p: seq<Node>)
    ensures RunCount(p) == 4
  {
    assert RunCount([Dot] + Literal("gz")) == 0 by { assert ([Dot] + Literal("gz"))[1..] == Literal("gz"); }
    FilePattern(infix, AtMost(3), [Dot] + Literal("gz"))
  }

  /** The four numbers of a matching file name and whether its `(\.gz)?` group took part. */
  datatype FileInfo = FileInfo(year: nat, month: nat, day: nat, id: nat, gz: bool)

  lemma {:induction false} RunCountAppend(a: seq<Node>, b: seq<Node>)
    ensures RunCount(a + b) == RunCount(a) + RunCount(b)
    decreases |a|
  {
    if a == [] {
      assert a + b == b;
    } else {
      assert (a + b)[0] == a[0] && (a + b)[1..] == a[1..] + b;
      RunCountAppend(a[1..], b);
    }
  }

  /** The numbers `Number(match[1])` .. `Number(match[4])` and `match[5]` of a pattern with four digit runs. */
  function Parse(p: seq<Node>, name: string): (r: Option<FileInfo>)
    requires RunCount(p) == 4
    ensures r.Some? <==> FirstMatch(p, name).Some?
  {
    match FirstMatch(p, name)
    case Some(c) =>
      Some(FileInfo(DigitsValue(c.runs[0]), DigitsValue(c.runs[1]), DigitsValue(c.runs[2]), DigitsValue(c.runs[3]), c.gz))
    case None => None
  }

  /** The pattern of src/core/logger-folder.ts: an unbounded id and an optional `.gz` group. */
  function LoggerPattern(infix: string): (p: seq<Node>)
    ensures RunCount(p) == 4
  {
    assert RunCount([OptionalGz]) == 0 by { assert [OptionalGz][1..] == []; }
    FilePattern(infix, Unbounded, [OptionalGz])
  }

  /** `bilbo-<infix>-<year>-<month>-<day>-<id>.log`, every number printed without padding. */
  function FileName(infix: string, date: Date, id: nat): string
  {
    "bilbo-" + infix + "-" + NatToString(date.year) + "-" + NatToString(date.month) + "-" + NatToString(date.day)
      + "-" + NatToString(id) + ".log"
  }

  /** A UTC calendar date, the month counted from 1 as `getUTCMonth() + 1` gives it. */
  datatype Date = Date(year: nat, month: nat, day: nat)

  /** The date range the pattern's groups can carry: a four-digit year, a month and a day below 100. */
  predicate Printable(d: Date)
  {
    1000 <= d.year < 10000 && d.month < 100 && d.day < 100
  }

  // ---- How the matcher treats the pieces of a file name ----

  lemma MatchChar(c: char, q: seq<Node>, t: string)
    ensures MatchAt([Char(c)] + q, [c] + t) == MatchAt(q, t)
  {
    assert ([Char(c)] + q)[1..] == q && ([c] + t)[1..] == t;
  }

  lemma MatchDot(c: char, q: seq<Node>, t: string)
    requires !IsLineTerminator(c)
    ensures MatchAt([Dot] + q, [c] + t) == MatchAt(q, t)
  {
    assert ([Dot] + q)[1..] == q && ([c] + t)[1..] == t;
  }

  /** A literal pattern consumes exactly its own spelling. */
  lemma {:induction false} MatchLiteral(w: string, q: seq<Node>, t: string)
    ensures MatchAt(Literal(w) + q, w + t) == MatchAt(q, t)
    decreases |w|
  {
    if w == [] {
      assert Literal(w) + q == q && w + t == t;
    } else {
      assert Literal(w) + q == [Char(w[0])] + (Literal(w[1..]) + q);
      assert w + t == [w[0]] + (w[1..] + t);
      MatchChar(w[0], Literal(w[1..]) + q, w[1..] + t);
      MatchLiteral(w[1..], q, t);
    }
  }

  /** A literal pattern matches only where the text spells it. */
  lemma {:induction false} LiteralNeeded(w: string, q: seq<Node>, t: string)
    requires MatchAt(Literal(w) + q, t).Some?
    ensures |w| <= |t| && t[..|w|] == w
    decreases |w|
  {
    if w != [] {
      var p := Literal(w) + q;
      assert p == [Char(w[0])] + (Literal(w[1..]) + q);
      assert p[0] == Char(w[0]) && p[1..] == Literal(w[1..]) + q;
      LiteralNeeded(w[1..], q, t[1..]);
      assert t[..|w|] == [t[0]] + t[1..][..|w| - 1];
    }
  }

  lemma {:induction false} DigitPrefixOf(d: string, r: string)
    requires AllDigits(d) && (r == [] || !IsDigit(r[0]))
    ensures DigitPrefix(d + r) == |d|
    decreases |d|
  {
    if d == [] {
      assert d + r == r;
    } else {
      assert (d + r)[0] == d[0] && (d + r)[1..] == d[1..] + r;
      DigitPrefixOf(d[1..], r);
    }
  }

  predicate Allows(b: Bound, n: nat)
  {
    match b
    case AtMost(m) => n <= m
    case Unbounded => true
  }

  /** The captures of a match of `[DigitRun(..)] + q` whose run took `d`. */
  function Prepend(d: string, o: Option<Captures>): Option<Captures>
  {
    match o
    case Some(c) => Some(Captures([d] + c.runs, c.gz))
    case None => None
  }

  /** Backing a digit run off below a whole run puts a digit where a non-digit literal must match. */
  lemma {:induction false} RunBackoffFails(p: seq<Node>, t: string, k: nat)
    requires |p| >= 2 && p[0].DigitRun? && p[1].Char? && !IsDigit(p[1].c)
    requires k < DigitPrefix(t)
    ensures TryRun(p, t, k).None?
    decreases k
  {
    if k >= p[0].min && k != 0 {
      assert t[k] == t[..DigitPrefix(t)][k];
      assert p[1..][0] == p[1];
      RunBackoffFails(p, t, k - 1);
    }
  }

  /** A whole run of digits followed by a non-digit literal: the group takes all of it or the match fails. */
  lemma RunThenChar(min: nat, max: Bound, q: seq<Node>, d: string, r: string)
    requires AllDigits(d) && 1 <= |d| && min <= |d| && Allows(max, |d|)
    requires r == [] || !IsDigit(r[0])
    requires q != [] && q[0].Char? && !IsDigit(q[0].c)
    ensures MatchAt([DigitRun(min, max)] + q, d + r) == Prepend(d, MatchAt(q, r))
  {
    var p := [DigitRun(min, max)] + q;
    DigitPrefixOf(d, r);
    assert p[0] == DigitRun(min, max) && p[1..] == q && p[1] == q[0];
    assert (d + r)[|d|..] == r && (d + r)[..|d|] == d;
    assert MatchAt(p, d + r) == TryRun(p, d + r, |d|);
    if MatchAt(q, r).None? {
      RunBackoffFails(p, d + r, |d| - 1);
    }
  }

  /** A whole run of digits the group may take, followed by a match of the rest. */
  lemma RunThenRest(min: nat, max: Bound, q: seq<Node>, d: string, r: string)
    requires AllDigits(d) && 1 <= |d| && min <= |d| && Allows(max, |d|)
    requires r == [] || !IsDigit(r[0])
    requires MatchAt(q, r).Some?
    ensures MatchAt([DigitRun(min, max)] + q, d + r) == Prepend(d, MatchAt(q, r))
  {
    var p := [DigitRun(min, max)] + q;
    DigitPrefixOf(d, r);
    assert p[0] == DigitRun(min, max) && p[1..] == q;
    assert (d + r)[|d|..] == r && (d + r)[..|d|] == d;
  }

  lemma DateText(y: string, m: string, d: string, t: string)
    ensures y + "-" + m + "-" + d + t == y + ("-" + (m + ("-" + (d + t))))
  {
    assert y + "-" + m + "-" + d == y + ("-" + (m + ("-" + d)));
  }

  /** The date fields of a file name: whatever follows the day meets the `-` before the id run. */
  lemma MatchDate(id: Bound, rest: seq<Node>, y: string, m: string, d: string, t: string)
    requires AllDigits(y) && |y| == 4
    requires AllDigits(m) && 1 <= |m| <= 2
    requires AllDigits(d) && 1 <= |d| <= 2
    requires t == [] || !IsDigit(t[0])
    ensures MatchAt(Fields(id, rest), y + "-" + m + "-" + d + t)
         == Prepend(y, Prepend(m, Prepend(d, MatchAt([Char('-')] + ([DigitRun(1, id), Dot] + rest), t))))
  {
    var p6 := [DigitRun(1, id), Dot] + rest;
    var p5 := [Char('-')] + p6;
    var p4 := [DigitRun(1, AtMost(2))] + p5;
    var p3 := [Char('-')] + p4;
    var p2 := [DigitRun(1, AtMost(2))] + p3;
    var p1 := [Char('-')] + p2;
    var p0 := [DigitRun(4, AtMost(4))] + p1;
    assert Fields(id, rest) == p0;
    DateText(y, m, d, t);
    RunThenChar(1, AtMost(2), p5, d, t);
    MatchChar('-', p4, d + t);
    RunThenChar(1, AtMost(2), p3, m, "-" + (d + t));
    MatchChar('-', p2, m + ("-" + (d + t)));
    RunThenChar(4, AtMost(4), p1, y, "-" + (m + ("-" + (d + t))));
  }

  lemma NatToStringDigits(n: nat, lo: nat, hi: nat)
    requires 1 <= lo <= hi
    requires (lo == 1 || Pow10(lo - 1) <= n) && n < Pow10(hi)
    ensures lo <= |NatToString(n)| <= hi
  {
    NatToStringLength(n, hi);
    if lo > 1 {
      NatToStringLength(n, lo - 1);
    }
  }

  /** The id run of a built name and whatever follows `.log`. */
  lemma MatchId(id: Bound, tail: seq<Node>, i: string, s: string)
    requires AllDigits(i) && 1 <= |i| && Allows(id, |i|)
    requires MatchAt(tail, s).Some?
    ensures MatchAt([DigitRun(1, id), Dot] + (Literal("log") + tail), i + ".log" + s) == Prepend(i, MatchAt(tail, s))
  {
    var q := [Dot] + (Literal("log") + tail);
    assert [DigitRun(1, id), Dot] + (Literal("log") + tail) == [DigitRun(1, id)] + q;
    assert i + ".log" + s == i + (['.'] + ("log" + s));
    MatchLiteral("log", tail, s);
    MatchDot('.', Literal("log") + tail, "log" + s);
    RunThenRest(1, id, q, i, ['.'] + ("log" + s));
  }

  lemma FileNameShape(infix: string, date: Date, n: nat, s: string)
    ensures FileName(infix, date, n) + s
         == ("bilbo-" + infix + "-")
            + (NatToString(date.year) + "-" + NatToString(date.month) + "-" + NatToString(date.day)
               + ("-" + (NatToString(n) + ".log" + s)))
  {
  }

  /** The printed widths the patterns' digit groups allow. */
  lemma DateWidths(date: Date)
    requires 1000 <= date.year < 10000 && date.month < 100 && date.day < 100
    ensures |NatToString(date.year)| == 4
    ensures 1 <= |NatToString(date.month)| <= 2 && 1 <= |NatToString(date.day)| <= 2
  {
    assert Pow10(2) == 100 && Pow10(3) == 1000 && Pow10(4) == 10000;
    NatToStringDigits(date.year, 4, 4);
    NatToStringDigits(date.month, 1, 2);
    NatToStringDigits(date.day, 1, 2);
  }

  /** A built name, followed by any `s` the tail of the pattern accepts, matches at its first character. */
  lemma MatchFileName(infix: string, id: Bound, tail: seq<Node>, date: Date, n: nat, s: string)
    requires RunCount(tail) == 0
    requires 1000 <= date.year < 10000 && date.month < 100 && date.day < 100
    requires Allows(id, |NatToString(n)|)
    requires MatchAt(tail, s).Some?
    ensures MatchAt(FilePattern(infix, id, tail), FileName(infix, date, n) + s)
         == Some(Captures([NatToString(date.year), NatToString(date.month), NatToString(date.day), NatToString(n)]
                          + MatchAt(tail, s).value.runs, MatchAt(tail, s).value.gz))
  {
    var y, m, d, i := NatToString(date.year), NatToString(date.month), NatToString(date.day), NatToString(n);
    DateWidths(date);
    var t := i + ".log" + s;
    FileNameShape(infix, date, n, s);
    MatchLiteral("bilbo-" + infix + "-", Fields(id, Literal("log") + tail), y + "-" + m + "-" + d + ("-" + t));
    MatchDate(id, Literal("log") + tail, y, m, d, "-" + t);
    MatchChar('-', [DigitRun(1, id), Dot] + (Literal("log") + tail), t);
    MatchId(id, tail, i, s);
    var c := MatchAt(tail, s).value;
    assert [y] + ([m] + ([d] + ([i] + c.runs))) == [y, m, d, i] + c.runs;
  }

  /**
   * A name built for a four-digit year, a month and a day below 100 and an id
   * the pattern allows, followed by any `s` the tail of the pattern accepts,
   * gives back its numbers.
   */
  lemma ParseFileName(infix: string, id: Bound, tail: seq<Node>, date: Date, n: nat, s: string)
    requires RunCount(tail) == 0
    requires 1000 <= date.year < 10000 && date.month < 100 && date.day < 100
    requires Allows(id, |NatToString(n)|)
    requires MatchAt(tail, s).Some?
    ensures Parse(FilePattern(infix, id, tail), FileName(infix, date, n) + s)
         == Some(FileInfo(date.year, date.month, date.day, n, MatchAt(tail, s).value.gz))
  {
    MatchFileName(infix, id, tail, date, n, s);
    NatToStringValue(date.year);
    NatToStringValue(date.month);
    NatToStringValue(date.day);
    NatToStringValue(n);
  }

  // ---- Ids of four or more digits ----

  lemma FirstMatchNone(p: seq<Node>, t: string)
    requires forall j :: 0 <= j <= |t| ==> MatchAt(p, t[j..]).None?
    ensures FirstMatch(p, t).None?
    decreases |t|
  {
    assert t[0..] == t;
    if t != [] {
      forall j | 0 <= j <= |t[1..]|
        ensures MatchAt(p, t[1..][j..]).None?
      {
        assert t[1..][j..] == t[j + 1..];
      }
      FirstMatchNone(p, t[1..]);
    }
  }

  /** A literal pattern fails on a text whose first character differs from it. */
  lemma FirstCharDiffers(w: string, q: seq<Node>, t: string)
    requires w != [] && (t == [] || t[0] != w[0])
    ensures MatchAt(Literal(w) + q, t).None?
  {
    assert (Literal(w) + q)[0] == Char(w[0]);
  }

  /** A literal pattern fails on a text whose second character differs from it. */
  lemma SecondCharDiffers(w: string, q: seq<Node>, t: string)
    requires |w| >= 2 && (|t| < 2 || t[1] != w[1])
    ensures MatchAt(Literal(w) + q, t).None?
  {
    var p := Literal(w) + q;
    assert p[0] == Char(w[0]) && p[1..] == Literal(w[1..]) + q;
    assert w[1..][0] == w[1];
    if t != [] {
      FirstCharDiffers(w[1..], q, t[1..]);
    }
  }

  /** Once the id run has taken three of four or more digits, `log` meets a digit or the dot. */
  lemma IdBackoff(i: string, k: nat)
    requires AllDigits(i) && 1 <= k <= 3 < |i|
    ensures MatchAt([Dot] + (Literal("log") + []), (i + ".log")[k..]).None?
  {
    var t := (i + ".log")[k..];
    assert t == [i[k]] + t[1..];
    assert t[1..][0] == t[1] && t[1] != 'l';
    FirstCharDiffers("log", [], t[1..]);
    MatchDot(i[k], Literal("log") + [], t[1..]);
  }

  /** The id group of the log pattern takes at most three digits, so a longer id does not match. */
  lemma IdTooLong(i: string)
    requires AllDigits(i) && |i| >= 4
    ensures MatchAt([DigitRun(1, AtMost(3)), Dot] + (Literal("log") + []), i + ".log").None?
  {
    var q := [Dot] + (Literal("log") + []);
    assert [DigitRun(1, AtMost(3)), Dot] + (Literal("log") + []) == [DigitRun(1, AtMost(3))] + q;
    DigitPrefixOf(i, ".log");
    IdBackoff(i, 1);
    IdBackoff(i, 2);
    IdBackoff(i, 3);
    CappedRunFails(q, i + ".log");
  }

  /** A group `(\d{1,3})` at the head of a run of three digits or more fails when the rest fails after each of its choices. */
  lemma CappedRunFails(q: seq<Node>, t: string)
    requires DigitPrefix(t) >= 3
    requires MatchAt(q, t[1..]).None? && MatchAt(q, t[2..]).None? && MatchAt(q, t[3..]).None?
    ensures MatchAt([DigitRun(1, AtMost(3))] + q, t).None?
  {
    var p := [DigitRun(1, AtMost(3))] + q;
    assert p[0] == DigitRun(1, AtMost(3)) && p[1..] == q;
    TryRunStep(p, t, 1);
    TryRunStep(p, t, 2);
    TryRunStep(p, t, 3);
    assert Cap(DigitPrefix(t), AtMost(3)) == 3;
  }

  /** A digit run that, having taken `k` digits, finds no match for the rest gives one digit back. */
  lemma TryRunStep(p: seq<Node>, t: string, k: nat)
    requires p != [] && p[0].DigitRun? && 1 <= k <= DigitPrefix(t) && p[0].min <= k
    requires MatchAt(p[1..], t[k..]).None?
    ensures TryRun(p, t, k) == TryRun(p, t, k - 1)
  {
  }

  lemma DigitsHaveNoB(s: string)
    requires AllDigits(s)
    ensures 'b' !in s
  {
    assert forall k :: 0 <= k < |s| ==> s[k] != 'b';
  }

  /** What follows `bilbo-` in a built name holds no `b` when the infix holds none. */
  lemma NameAfterPrefix(infix: string, date: Date, n: nat) returns (u: string)
    requires 'b' !in infix
    ensures FileName(infix, date, n) == "bilbo-" + u
    ensures 'b' !in u
  {
    var y, m, d, i := NatToString(date.year), NatToString(date.month), NatToString(date.day), NatToString(n);
    DigitsHaveNoB(y);
    DigitsHaveNoB(m);
    DigitsHaveNoB(d);
    DigitsHaveNoB(i);
    var r1 := infix + "-" + y;
    assert 'b' !in r1;
    var r2 := r1 + "-" + m;
    assert 'b' !in r2;
    var r3 := r2 + "-" + d;
    assert 'b' !in r3;
    u := r3 + "-" + i + ".log";
  }

  /** After its first character, `bilbo-` followed by a text without `b` never spells `bi` again. */
  lemma NoLaterStart(w: string, q: seq<Node>, u: string, j: nat)
    requires |w| >= 2 && w[0] == 'b' && w[1] == 'i'
    requires 'b' !in u && 1 <= j <= 6 + |u|
    ensures MatchAt(Literal(w) + q, ("bilbo-" + u)[j..]).None?
  {
    var name := "bilbo-" + u;
    var t := name[j..];
    if j == |name| {
      FirstCharDiffers(w, q, t);
    } else if j == 3 {
      assert t[1] == name[4] == 'o';
      SecondCharDiffers(w, q, t);
    } else {
      assert t[0] == name[j];
      if j >= 6 {
        assert name[j] == u[j - 6];
      }
      FirstCharDiffers(w, q, t);
    }
  }

  /** A name whose id has four or more digits does not match at its first character. */
  lemma LongIdAtStart(infix: string, date: Date, n: nat)
    requires 1000 <= date.year < 10000 && date.month < 100 && date.day < 100
    requires n >= 1000
    ensures MatchAt(LogPattern(infix), FileName(infix, date, n)).None?
  {
    var name := FileName(infix, date, n);
    var y, m, d, i := NatToString(date.year), NatToString(date.month), NatToString(date.day), NatToString(n);
    DateWidths(date);
    assert Pow10(3) == 1000;
    NatToStringLength(n, 3);
    var t := i + ".log" + [];
    FileNameShape(infix, date, n, []);
    assert name + [] == name;
    assert t == i + ".log";
    MatchLiteral("bilbo-" + infix + "-", Fields(AtMost(3), Literal("log") + []), y + "-" + m + "-" + d + ("-" + t));
    MatchDate(AtMost(3), Literal("log") + [], y, m, d, "-" + t);
    MatchChar('-', [DigitRun(1, AtMost(3)), Dot] + (Literal("log") + []), t);
    IdTooLong(i);
  }

  /** A name whose id has four or more digits matches nowhere (for an infix without `b`). */
  lemma LongIdRejected(infix: string, date: Date, n: nat)
    requires 'b' !in infix
    requires 1000 <= date.year < 10000 && date.month < 100 && date.day < 100
    requires n >= 1000
    ensures Parse(LogPattern(infix), FileName(infix, date, n)).None?
  {
    var name := FileName(infix, date, n);
    LongIdAtStart(infix, date, n);
    assert name[0..] == name;
    var u := NameAfterPrefix(infix, date, n);
    forall j | 1 <= j <= |name|
      ensures MatchAt(LogPattern(infix), name[j..]).None?
    {
      NoLaterStart("bilbo-" + infix + "-", Fields(AtMost(3), Literal("log") + []), u, j);
    }
    FirstMatchNone(LogPattern(infix), name);
  }

  // ---- Listing, filtering and the newest-first order ----

  /** A directory entry whose name matched, with the numbers it parsed to. */
  datatype Listed = Listed(name: string, info: FileInfo)

  /**
   * The comparator the folders hand to `sort`: the difference of the years,
   * else of the months, else of the days, else of the ids, second minus first.
   */
  function Compare(a: FileInfo, b: FileInfo): int
  {
    if b.year - a.year != 0 then b.year - a.year
    else if b.month - a.month != 0 then b.month - a.month
    else if b.day - a.day != 0 then b.day - a.day
    else b.id - a.id
  }

  /** `a` is at least as new as `b`: its (year, month, day, id) is not smaller. */
  predicate NewerOrSame(a: FileInfo, b: FileInfo)
  {
    a.year > b.year
    || (a.year == b.year
        && (a.month > b.month || (a.month == b.month && (a.day > b.day || (a.day == b.day && a.id >= b.id)))))
  }

  /** The comparator puts `a` first (or keeps the pair in place) exactly when `a` is at least as new. */
  lemma CompareOrder(a: FileInfo, b: FileInfo)
    ensures Compare(a, b) <= 0 <==> NewerOrSame(a, b)
    ensures Compare(a, b) == -Compare(b, a)
  {
  }

  predicate SortedNewestFirst(s: seq<Listed>)
  {
    forall i, j :: 0 <= i < j < |s| ==> NewerOrSame(s[i].info, s[j].info)
  }

  /** Inserts `x` before the first entry it is at least as new as, so ties keep their listing order. */
  function Insert(x: Listed, s: seq<Listed>): (r: seq<Listed>)
    ensures multiset(r) == multiset(s) + multiset{x}
  {
    if s == [] then [x]
    else if Compare(x.info, s[0].info) <= 0 then [x] + s
    else
      assert s == [s[0]] + s[1..];
      [s[0]] + Insert(x, s[1..])
  }

  lemma NamesCons(h: Listed, t: seq<Listed>)
    ensures Names([h] + t) == [h.name] + Names(t)
  {
    assert ([h] + t)[1..] == t;
  }

  /** An insertion adds the name of the inserted entry to the names. */
  lemma {:induction false} InsertNames(x: Listed, s: seq<Listed>)
    ensures multiset(Names(Insert(x, s))) == multiset(Names(s)) + multiset{x.name}
    decreases |s|
  {
    if s == [] || Compare(x.info, s[0].info) <= 0 {
      InsertFront(x, s);
    } else {
      InsertNames(x, s[1..]);
      InsertLater(x, s[0], s[1..]);
      assert s == [s[0]] + s[1..];
    }
  }

  lemma InsertFront(x: Listed, s: seq<Listed>)
    requires s == [] || Compare(x.info, s[0].info) <= 0
    ensures multiset(Names(Insert(x, s))) == multiset(Names(s)) + multiset{x.name}
  {
    assert Insert(x, s) == [x] + s;
    ConsName(x, s);
  }

  lemma InsertLater(x: Listed, h: Listed, t: seq<Listed>)
    requires Compare(x.info, h.info) > 0
    requires multiset(Names(Insert(x, t))) == multiset(Names(t)) + multiset{x.name}
    ensures multiset(Names(Insert(x, [h] + t))) == multiset(Names([h] + t)) + multiset{x.name}
  {
    var s := [h] + t;
    assert s[0] == h && s[1..] == t;
    assert Insert(x, s) == [h] + Insert(x, t);
    ConsNames(h, Insert(x, t), t, x.name);
  }

  lemma ConsName(h: Listed, t: seq<Listed>)
    ensures multiset(Names([h] + t)) == multiset(Names(t)) + multiset{h.name}
  {
    NamesCons(h, t);
  }

  lemma ConsNames(h: Listed, r: seq<Listed>, t: seq<Listed>, n: string)
    requires multiset(Names(r)) == multiset(Names(t)) + multiset{n}
    ensures multiset(Names([h] + r)) == multiset(Names([h] + t)) + multiset{n}
  {
    NamesCons(h, r);
    NamesCons(h, t);
  }

  lemma ConsSorted(h: Listed, t: seq<Listed>)
    requires SortedNewestFirst(t)
    requires forall e :: e in t ==> NewerOrSame(h.info, e.info)
    ensures SortedNewestFirst([h] + t)
  {
    var r := [h] + t;
    forall i, j | 0 <= i < j < |r|
      ensures NewerOrSame(r[i].info, r[j].info)
    {
      assert r[j] == t[j - 1];
      if i == 0 {
        assert r[j] in t;
      } else {
        assert r[i] == t[i - 1];
      }
    }
  }

  /** An entry at least as new as the first of a sorted listing is at least as new as all of it. */
  lemma NewestAhead(x: Listed, s: seq<Listed>)
    requires SortedNewestFirst(s) && s != [] && NewerOrSame(x.info, s[0].info)
    ensures forall e :: e in s ==> NewerOrSame(x.info, e.info)
  {
    forall e | e in s
      ensures NewerOrSame(x.info, e.info)
    {
      var j :| 0 <= j < |s| && s[j] == e;
      if j > 0 {
        assert NewerOrSame(s[0].info, s[j].info);
      }
    }
  }

  /** The head of a sorted listing is at least as new as everything an insertion into its tail holds. */
  lemma HeadAhead(x: Listed, s: seq<Listed>)
    requires SortedNewestFirst(s) && s != [] && NewerOrSame(s[0].info, x.info)
    ensures forall e :: e in Insert(x, s[1..]) ==> NewerOrSame(s[0].info, e.info)
  {
    var t := Insert(x, s[1..]);
    forall e | e in t
      ensures NewerOrSame(s[0].info, e.info)
    {
      assert e in multiset(t);
      if e != x {
        assert e in s[1..];
        var j :| 1 <= j < |s| && s[j] == e;
      }
    }
  }

  lemma {:induction false} InsertSorted(x: Listed, s: seq<Listed>)
    requires SortedNewestFirst(s)
    ensures SortedNewestFirst(Insert(x, s))
    decreases |s|
  {
    if s != [] {
      CompareOrder(x.info, s[0].info);
      CompareOrder(s[0].info, x.info);
      if Compare(x.info, s[0].info) <= 0 {
        NewestAhead(x, s);
        ConsSorted(x, s);
      } else {
        assert SortedNewestFirst(s[1..]) by {
          forall i, j | 0 <= i < j < |s[1..]|
            ensures NewerOrSame(s[1..][i].info, s[1..][j].info)
          {
            assert s[1..][i] == s[i + 1] && s[1..][j] == s[j + 1];
          }
        }
        InsertSorted(x, s[1..]);
        HeadAhead(x, s);
        ConsSorted(s[0], Insert(x, s[1..]));
      }
    }
  }

  /** `files.sort(compare)`: a stable insertion sort by the comparator. */
  function SortNewestFirst(s: seq<Listed>): (r: seq<Listed>)
    ensures multiset(r) == multiset(s)
    ensures multiset(Names(r)) == multiset(Names(s))
  {
    if s == [] then []
    else
      assert s == [s[0]] + s[1..];
      NamesCons(s[0], s[1..]);
      InsertNames(s[0], SortNewestFirst(s[1..]));
      Insert(s[0], SortNewestFirst(s[1..]))
  }

  /** The sorted listing is newest first. */
  lemma {:induction false} SortSorted(s: seq<Listed>)
    ensures SortedNewestFirst(SortNewestFirst(s))
    decreases |s|
  {
    if s != [] {
      SortSorted(s[1..]);
      InsertSorted(s[0], SortNewestFirst(s[1..]));
    }
  }

  /** Which entries a folder keeps besides matching. */
  datatype Keep =
    | EachNotAfter(today: Date)   // year, month and day each at most today's
    | Compressed(gz: bool)        // the `(\.gz)?` group took part exactly when `gz`
    | NotAfter(today: Date)       // the date is on or before today

  predicate Kept(k: Keep, i: FileInfo)
  {
    match k
    case EachNotAfter(t) => i.year <= t.year && i.month <= t.month && i.day <= t.day
    case Compressed(gz) => i.gz == gz
    case NotAfter(t) => DateOf(i) == t || Before(DateOf(i), t)
  }

  function DateOf(i: FileInfo): Date
  {
    Date(i.year, i.month, i.day)
  }

  /** The calendar order on dates. */
  predicate Before(a: Date, b: Date)
  {
    a.year < b.year || (a.year == b.year && (a.month < b.month || (a.month == b.month && a.day < b.day)))
  }

  /** The name a folder keeps: it matches `p` and its numbers pass `k`. */
  predicate Accepts(p: seq<Node>, k: Keep, name: string)
    requires RunCount(p) == 4
  {
    Parse(p, name).Some? && Kept(k, Parse(p, name).value)
  }

  function Names(s: seq<Listed>): (r: seq<string>)
    ensures |r| == |s| && forall i :: 0 <= i < |s| ==> r[i] == s[i].name
  {
    if s == [] then [] else [s[0].name] + Names(s[1..])
  }

  /** `files.filter(...)`: the accepted entries with their numbers, in listing order. */
  function Select(p: seq<Node>, k: Keep, files: seq<string>): (r: seq<Listed>)
    requires RunCount(p) == 4
    ensures forall e :: e in r ==> Parse(p, e.name) == Some(e.info) && Kept(k, e.info)
    ensures forall n :: multiset(Names(r))[n] == if Accepts(p, k, n) then multiset(files)[n] else 0
  {
    if files == [] then []
    else
      var rest := Select(p, k, files[1..]);
      assert files == [files[0]] + files[1..];
      if Accepts(p, k, files[0]) then
        var r := [Listed(files[0], Parse(p, files[0]).value)] + rest;
        assert Names(r) == [files[0]] + Names(rest);
        r
      else rest
  }

  /** `a` parses under `p` to numbers at least as new as those of `b`. */
  predicate NewerName(p: seq<Node>, a: string, b: string)
    requires RunCount(p) == 4
  {
    Parse(p, a).Some? && Parse(p, b).Some? && NewerOrSame(Parse(p, a).value, Parse(p, b).value)
  }

  /** Entries carrying the numbers their names parse to under `p`, each passing `k`. */
  ghost predicate Faithful(p: seq<Node>, k: Keep, l: seq<Listed>)
    requires RunCount(p) == 4
  {
    forall i :: 0 <= i < |l| ==> Parse(p, l[i].name) == Some(l[i].info) && Kept(k, l[i].info)
  }

  lemma SortFaithful(p: seq<Node>, k: Keep, files: seq<string>)
    requires RunCount(p) == 4
    ensures Faithful(p, k, SortNewestFirst(Select(p, k, files)))
  {
    var sel := Select(p, k, files);
    var l := SortNewestFirst(sel);
    forall i | 0 <= i < |l|
      ensures Parse(p, l[i].name) == Some(l[i].info) && Kept(k, l[i].info)
    {
      assert l[i] in multiset(sel);
    }
  }

  lemma NamesFaithful(p: seq<Node>, k: Keep, l: seq<Listed>)
    requires RunCount(p) == 4
    requires Faithful(p, k, l) && SortedNewestFirst(l)
    ensures forall i :: 0 <= i < |l| ==> Accepts(p, k, Names(l)[i])
    ensures forall i, j :: 0 <= i < j < |l| ==> NewerName(p, Names(l)[i], Names(l)[j])
  {
    var r := Names(l);
    forall i, j | 0 <= i < j < |l|
      ensures NewerName(p, r[i], r[j])
    {
      assert NewerOrSame(l[i].info, l[j].info);
    }
  }

  /**
   * A folder listing as the folders compute it: the names that match `p` and
   * pass `k`, each as often as the listing holds it, newest first.
   */
  function ListFiles(p: seq<Node>, k: Keep, files: seq<string>): (r: seq<string>)
    requires RunCount(p) == 4
    ensures forall n :: multiset(r)[n] == if Accepts(p, k, n) then multiset(files)[n] else 0
    ensures forall i :: 0 <= i < |r| ==> Accepts(p, k, r[i])
    ensures forall i, j :: 0 <= i < j < |r| ==> NewerName(p, r[i], r[j])
  {
    SortFaithful(p, k, files);
    SortSorted(Select(p, k, files));
    NamesFaithful(p, k, SortNewestFirst(Select(p, k, files)));
    Names(SortNewestFirst(Select(p, k, files)))
  }

  /** A name dated `date` is today's exactly when `date` is today. */
  predicate IsToday(p: seq<Node>, today: Date, name: string)
    requires RunCount(p) == 4
  {
    match Parse(p, name)
    case Some(i) => DateOf(i) == today
    case None => false
  }

  /** A one-name listing lists that name exactly when the folder keeps it. */
  lemma ListOne(p: seq<Node>, k: Keep, name: string)
    requires RunCount(p) == 4
    ensures ListFiles(p, k, [name]) == if Accepts(p, k, name) then [name] else []
  {
    SelectOne(p, k, name);
    if Accepts(p, k, name) {
      var e := Listed(name, Parse(p, name).value);
      SortOne(e);
      assert Names([e]) == [name];
    }
  }

  lemma SelectOne(p: seq<Node>, k: Keep, name: string)
    requires RunCount(p) == 4
    ensures Select(p, k, [name]) == if Accepts(p, k, name) then [Listed(name, Parse(p, name).value)] else []
  {
    assert [name][1..] == [];
  }

  lemma SortOne(e: Listed)
    ensures SortNewestFirst([e]) == [e]
  {
    assert [e][1..] == [];
    assert [e][0] == e;
  }
}
