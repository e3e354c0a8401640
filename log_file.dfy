/**
 * `LogFile` of src/core/log-file.ts: the line count a file starts with,
 * computed from its content, and `write_ln`, which hands one line to the
 * stream and counts it when the stream accepts it. The file's content and the
 * stream's answer are parameters.
 */
module LogFiles {

  /** `WhiteSpace` and `LineTerminator` as `String.prototype.trim` removes them. */
  predicate IsWhiteSpace(c: char)
  {
    var u := c as int;
    || 0x9 <= u <= 0xD || u == 0x20 || u == 0xA0 || u == 0x1680 || 0x2000 <= u <= 0x200A
    || u == 0x2028 || u == 0x2029 || u == 0x202F || u == 0x205F || u == 0x3000 || u == 0xFEFF
  }

  /** `s` without its leading white space. */
  function TrimStart(s: string): (r: string)
    ensures |r| <= |s| && r == s[|s| - |r|..]
    ensures r == [] || !IsWhiteSpace(r[0])
    ensures forall k :: 0 <= k < |s| - |r| ==> IsWhiteSpace(s[k])
  {
    if s != [] && IsWhiteSpace(s[0]) then TrimStart(s[1..]) else s
  }

  /** `s` without its trailing white space. */
  function TrimEnd(s: string): (r: string)
    ensures |r| <= |s| && r == s[..|r|]
    ensures r == [] || !IsWhiteSpace(r[|r| - 1])
    ensures forall k :: |r| <= k < |s| ==> IsWhiteSpace(s[k])
  {
    if s != [] && IsWhiteSpace(s[|s| - 1]) then TrimEnd(s[..|s| - 1]) else s
  }

  /** `s.trim()`. */
  function Trim(s: string): string
  {
    TrimEnd(TrimStart(s))
  }

  /** The pieces joined back with the separator between them. */
  function Join(pieces: seq<string>, sep: char): string
    requires pieces != []
  {
    if |pieces| == 1 then pieces[0] else pieces[0] + [sep] + Join(pieces[1..], sep)
  }

  /** `s.split(sep)` for a one-character separator: one more piece than there are separators. */
  function Split(s: string, sep: char): (r: seq<string>)
    ensures |r| == multiset(s)[sep] + 1
    ensures forall k :: 0 <= k < |r| ==> sep !in r[k]
  {
    if s == [] then [[]]
    else
      var rest := Split(s[1..], sep);
      assert s == [s[0]] + s[1..];
      if s[0] == sep then [[]] + rest
      else [[s[0]] + rest[0]] + rest[1..]
  }

  /** Joining the pieces of a split gives the string back. */
  lemma {:induction false} JoinSplit(s: string, sep: char)
    ensures Join(Split(s, sep), sep) == s
    decreases |s|
  {
    if s != [] {
      var rest := Split(s[1..], sep);
      JoinSplit(s[1..], sep);
      if s[0] == sep {
        assert Split(s, sep) == [[]] + rest;
        JoinEmptyFirst(rest, sep);
      } else {
        assert Split(s, sep) == [[s[0]] + rest[0]] + rest[1..];
        JoinExtendFirst(s[0], rest, sep);
      }
      assert [s[0]] + s[1..] == s;
    }
  }

  lemma JoinEmptyFirst(rest: seq<string>, sep: char)
    requires rest != []
    ensures Join([[]] + rest, sep) == [sep] + Join(rest, sep)
  {
    assert ([[]] + rest)[1..] == rest;
  }

  lemma JoinExtendFirst(c: char, rest: seq<string>, sep: char)
    requires rest != []
    ensures Join([[c] + rest[0]] + rest[1..], sep) == [c] + Join(rest, sep)
  {
    var r := [[c] + rest[0]] + rest[1..];
    assert r[1..] == rest[1..];
    if |rest| > 1 {
      assert Join(rest, sep) == rest[0] + [sep] + Join(rest[1..], sep);
      assert Join(r, sep) == ([c] + rest[0]) + [sep] + Join(rest[1..], sep);
    }
  }

  /** Splitting joined pieces that hold no separator gives the pieces back. */
  lemma SplitJoin(pieces: seq<string>, sep: char)
    requires pieces != [] && forall k :: 0 <= k < |pieces| ==> sep !in pieces[k]
    ensures Split(Join(pieces, sep), sep) == pieces
  {
    var s := Join(pieces, sep);
    JoinSplit(s, sep);
    SplitUnique(Split(s, sep), pieces, sep);
  }

  /** A join of separator-free pieces holds a separator exactly when there are two pieces or more. */
  lemma JoinHasSep(a: seq<string>, sep: char)
    requires a != [] && forall k :: 0 <= k < |a| ==> sep !in a[k]
    ensures |a| >= 2 ==> Join(a, sep) == a[0] + [sep] + Join(a[1..], sep)
    ensures |a| == 1 ==> sep !in Join(a, sep)
  {
  }

  /** Two separator-free splittings of one string are the same. */
  lemma {:induction false} SplitUnique(a: seq<string>, b: seq<string>, sep: char)
    requires a != [] && b != []
    requires forall k :: 0 <= k < |a| ==> sep !in a[k]
    requires forall k :: 0 <= k < |b| ==> sep !in b[k]
    requires Join(a, sep) == Join(b, sep)
    ensures a == b
    decreases |a|
  {
    var s := Join(a, sep);
    JoinHasSep(a, sep);
    JoinHasSep(b, sep);
    if |a| >= 2 && |b| >= 2 {
      BeforeFirstSep(a[0], Join(a[1..], sep), sep);
      BeforeFirstSep(b[0], Join(b[1..], sep), sep);
      assert a[0] == s[..|a[0]|] && b[0] == s[..|b[0]|];
      assert s[|a[0]| + 1..] == Join(a[1..], sep) && s[|b[0]| + 1..] == Join(b[1..], sep);
      SplitUnique(a[1..], b[1..], sep);
      assert a == [a[0]] + a[1..] && b == [b[0]] + b[1..];
    }
  }

  /** The index of the first `sep` in `s`, or `|s|` when there is none. */
  function FirstSep(s: string, sep: char): (i: nat)
    ensures i <= |s|
  {
    if s == [] || s[0] == sep then 0 else 1 + FirstSep(s[1..], sep)
  }

  /** A separator-free text followed by a separator ends at the first one. */
  lemma {:induction false} BeforeFirstSep(x: string, t: string, sep: char)
    requires sep !in x
    ensures FirstSep(x + [sep] + t, sep) == |x|
    decreases |x|
  {
    var s := x + [sep] + t;
    if x != [] {
      assert s[1..] == x[1..] + [sep] + t;
      assert s[0] == x[0];
      BeforeFirstSep(x[1..], t, sep);
    }
  }

  /** The line count the constructor computes from the file's content. */
  function InitialLineCount(content: string): (n: nat)
    ensures content == [] <==> n == 0
  {
    if |content| == 0 then 0 else |Split(Trim(content), '\n')|
  }

  /** A file made of these lines, each followed by a newline. */
  function Lines(ls: seq<string>): string
  {
    if ls == [] then [] else Lines(ls[..|ls| - 1]) + ls[|ls| - 1] + "\n"
  }

  lemma {:induction false} LinesJoin(ls: seq<string>)
    requires ls != []
    ensures Lines(ls) == Join(ls, '\n') + "\n"
    decreases |ls|
  {
    if |ls| > 1 {
      var init := ls[..|ls| - 1];
      LinesJoin(init);
      JoinSnoc(init, ls[|ls| - 1], '\n');
      assert init + [ls[|ls| - 1]] == ls;
    } else {
      assert ls[..0] == [];
    }
  }

  lemma {:induction false} JoinSnoc(ls: seq<string>, x: string, sep: char)
    requires ls != []
    ensures Join(ls + [x], sep) == Join(ls, sep) + [sep] + x
    decreases |ls|
  {
    if |ls| > 1 {
      JoinSnoc(ls[1..], x, sep);
      assert (ls + [x])[1..] == ls[1..] + [x];
    } else {
      assert (ls + [x])[1..] == [x];
    }
  }

  /**
   * A file of `k` lines, none holding a newline and without white space at
   * the very start or end of the text, starts with a line count of `k`: the
   * trailing newline is trimmed away before splitting.
   */
  lemma LinesCounted(ls: seq<string>)
    requires ls != [] && forall k :: 0 <= k < |ls| ==> '\n' !in ls[k]
    requires ls[0] != [] && !IsWhiteSpace(ls[0][0])
    requires ls[|ls| - 1] != [] && !IsWhiteSpace(ls[|ls| - 1][|ls[|ls| - 1]| - 1])
    ensures InitialLineCount(Lines(ls)) == |ls|
  {
    var text := Join(ls, '\n');
    LinesJoin(ls);
    JoinEnds(ls, '\n');
    assert TrimStart(text + "\n") == text + "\n";
    assert (text + "\n")[..|text + "\n"| - 1] == text;
    assert TrimEnd(text + "\n") == text;
    SplitJoin(ls, '\n');
  }

  /** A join starts with the first piece and ends with the last one. */
  lemma {:induction false} JoinEnds(ls: seq<string>, sep: char)
    requires ls != []
    ensures |Join(ls, sep)| >= |ls[0]| && Join(ls, sep)[..|ls[0]|] == ls[0]
    ensures |Join(ls, sep)| >= |ls[|ls| - 1]| && Join(ls, sep)[|Join(ls, sep)| - |ls[|ls| - 1]|..] == ls[|ls| - 1]
    decreases |ls|
  {
    if |ls| > 1 {
      JoinEnds(ls[1..], sep);
    }
  }

  /** A file holding `foo\n` starts with one line, an empty file with none. */
  lemma OneLineFile()
    ensures InitialLineCount("foo\n") == 1
    ensures InitialLineCount("") == 0
  {
    assert Lines(["foo"]) == "foo\n" by { assert ["foo"][..0] == []; }
    LinesCounted(["foo"]);
  }

  /**
   * A log file. `lineCount` is `line_count`; `written` is every string handed
   * to the write stream, in order.
   */
  class LogFile {
    const filePath: string
    var lineCount: nat
    var written: seq<string>

    /** The constructor, given what the file holds when it is opened. */
    constructor (filePath: string, content: string)
      ensures this.filePath == filePath && written == []
      ensures lineCount == InitialLineCount(content)
    {
      this.filePath := filePath;
      lineCount := InitialLineCount(content);
      written := [];
    }

    /**
     * `write_ln(log)`: hands `log` and a newline to the stream whatever it
     * answers, and counts the line only when `accepted`, the stream's answer.
     */
    method WriteLn(log: string, accepted: bool) returns (ok: bool)
      modifies this
      ensures ok == accepted
      ensures written == old(written) + [log + "\n"]
      ensures lineCount == old(lineCount) + (if accepted then 1 else 0)
    {
      written := written + [log + "\n"];
      if !accepted {
        return false;
      }
      lineCount := lineCount + 1;
      return true;
    }
  }
}
