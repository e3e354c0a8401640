/**
 * `Logger` of src/core/logger.ts: the name of its log file, the entry
 * builders `level`, `message` and `add`, and `log`, which rejects an entry
 * without a level, prints it when the print mode lists its level, writes it
 * as one serialised line and clears it. The serialiser (`JSON.stringify`) is a
 * parameter; the stream is the sequence of strings written to it.
 */
module Loggers {
  import opened Wrappers
  import opened Decimal
  import opened FileNaming
  import opened Paths
  import opened Entries

  /** `get_file_name(infix)` for today's UTC date: the layout of the log folder's names without an id. */
  function GetFileName(infix: string, today: Date): (name: string)
    ensures |name| >= 4 && name[|name| - 4..] == ".log"
    ensures forall id: nat :: FileName(infix, today, id) == name[..|name| - 4] + "-" + NatToString(id) + ".log"
  {
    var stem := "bilbo-" + infix + "-" + NatToString(today.year) + "-" + NatToString(today.month) + "-"
      + NatToString(today.day);
    assert (stem + ".log")[..|stem + ".log"| - 4] == stem;
    stem + ".log"
  }

  /**
   * The logger's own file is not one of the folder's numbered files: neither
   * the pattern of src/core/util.ts nor that of src/core/logger-folder.ts
   * matches it (for an infix without `b`, so that `bilbo-` occurs only once).
   */
  lemma LoggerFileUnnumbered(infix: string, today: Date)
    requires 'b' !in infix && Printable(today)
    ensures Parse(LogPattern(infix), GetFileName(infix, today)).None?
    ensures Parse(LoggerPattern(infix), GetFileName(infix, today)).None?
  {
    assert RunCount([OptionalGz]) == 0 by { assert [OptionalGz][1..] == []; }
    NoMatch(infix, AtMost(3), [], today);
    NoMatch(infix, Unbounded, [OptionalGz], today);
  }

  /** A name without an id matches a file pattern nowhere. */
  lemma NoMatch(infix: string, id: Bound, tail: seq<Node>, today: Date)
    requires 'b' !in infix && Printable(today) && RunCount(tail) == 0
    ensures FirstMatch(FilePattern(infix, id, tail), GetFileName(infix, today)).None?
  {
    var name := GetFileName(infix, today);
    var p := FilePattern(infix, id, tail);
    NoMatchAtStart(infix, id, tail, today);
    assert name[0..] == name;
    var u := UnnumberedAfterPrefix(infix, today);
    forall j | 1 <= j <= |name|
      ensures MatchAt(p, name[j..]).None?
    {
      NoLaterStart("bilbo-" + infix + "-", Fields(id, Literal("log") + tail), u, j);
    }
    FirstMatchNone(p, name);
  }

  /** At its first character, the day of a name without an id meets `.` where the pattern wants `-`. */
  lemma NoMatchAtStart(infix: string, id: Bound, tail: seq<Node>, today: Date)
    requires Printable(today) && RunCount(tail) == 0
    ensures MatchAt(FilePattern(infix, id, tail), GetFileName(infix, today)).None?
  {
    var y, m, d := NatToString(today.year), NatToString(today.month), NatToString(today.day);
    DateWidths(today);
    var rest := Literal("log") + tail;
    UnnumberedShape(infix, today);
    MatchLiteral("bilbo-" + infix + "-", Fields(id, rest), y + "-" + m + "-" + d + ".log");
    MatchDate(id, rest, y, m, d, ".log");
    assert MatchAt([Char('-')] + ([DigitRun(1, id), Dot] + rest), ".log").None? by {
      assert ".log"[0] == '.';
    }
  }

  lemma UnnumberedShape(infix: string, today: Date)
    ensures var y, m, d := NatToString(today.year), NatToString(today.month), NatToString(today.day);
      GetFileName(infix, today) == ("bilbo-" + infix + "-") + (y + "-" + m + "-" + d + ".log")
  {
  }

  /** What follows `bilbo-` in the logger's name holds no `b` when the infix holds none. */
  lemma UnnumberedAfterPrefix(infix: string, today: Date) returns (u: string)
    requires 'b' !in infix
    ensures GetFileName(infix, today) == "bilbo-" + u
    ensures 'b' !in u
  {
    var y, m, d := NatToString(today.year), NatToString(today.month), NatToString(today.day);
    DigitsHaveNoB(y);
    DigitsHaveNoB(m);
    DigitsHaveNoB(d);
    var r1 := infix + "-" + y;
    assert 'b' !in r1;
    var r2 := r1 + "-" + m;
    assert 'b' !in r2;
    u := r2 + "-" + d + ".log";
  }

  /** `print_mode`: the levels to print and whether to print in colour. */
  datatype PrintMode = PrintMode(levels: seq<Value>, pretty: bool)

  /** What `print_log` shows of an entry: its level and message, and in which style. */
  datatype Printed = Printed(level: Value, message: Value, pretty: bool)

  /** The value of `key` in `e`, `undefined` when it is absent. */
  function Get(e: Entry, key: string): (v: Value)
    ensures Lookup(e, key).Some? ==> v == Lookup(e, key).value
    ensures Lookup(e, key).None? ==> v == Undefined
  {
    match Lookup(e, key)
    case Some(v) => v
    case None => Undefined
  }

  /** `log()` goes ahead only for an entry whose level is set to a truthy value. */
  predicate HasLevel(e: Entry)
  {
    !Falsy(Get(e, "level"))
  }

  /** What `log()` prints for `e`: once when the print mode lists the entry's level, else nothing. */
  function Printing(mode: Option<PrintMode>, e: Entry): (r: seq<Printed>)
    ensures |r| <= 1
    ensures r != [] <==> mode.Some? && Get(e, "level") in mode.value.levels
    ensures r != [] ==> r[0] == Printed(Get(e, "level"), Get(e, "message"), mode.value.pretty)
  {
    if mode.Some? && Get(e, "level") in mode.value.levels then
      [Printed(Get(e, "level"), Get(e, "message"), mode.value.pretty)]
    else []
  }

  /**
   * A logger. `entry` is `log_entry`; `written` is every string handed to the
   * file's write stream, in order; `printed` is every entry shown on the
   * console, in order.
   */
  class Logger {
    const folderPath: string
    const fileName: string
    const filePath: string
    const printMode: Option<PrintMode>
    const serialise: Entry -> string
    var entry: Entry
    var written: seq<string>
    var printed: seq<Printed>

    /** The entry is a JavaScript object: each key once. */
    ghost predicate Valid()
      reads this
    {
      UniqueKeys(entry)
    }

    /** The file of today in the folder, an empty entry, nothing written or printed yet. */
    constructor (folderPath: string, infix: string, today: Date, printMode: Option<PrintMode>, serialise: Entry -> string)
      ensures Valid() && entry == [] && written == [] && printed == []
      ensures this.folderPath == folderPath && fileName == GetFileName(infix, today)
      ensures filePath == JoinPath(folderPath, fileName)
      ensures this.printMode == printMode && this.serialise == serialise
    {
      this.folderPath := folderPath;
      fileName := GetFileName(infix, today);
      filePath := JoinPath(folderPath, GetFileName(infix, today));
      this.printMode := printMode;
      this.serialise := serialise;
      entry := [];
      written := [];
      printed := [];
    }

    /** `level(level)`: sets the level and nothing else, and returns the logger. */
    method Level(level: string) returns (self: Logger)
      requires Valid()
      modifies this
      ensures self == this && Valid()
      ensures entry == Set(old(entry), "level", Str(level))
      ensures written == old(written) && printed == old(printed)
    {
      entry := Set(entry, "level", Str(level));
      self := this;
    }

    /** `message(msg)`: sets the message and nothing else, and returns the logger. */
    method Message(msg: string) returns (self: Logger)
      requires Valid()
      modifies this
      ensures self == this && Valid()
      ensures entry == Set(old(entry), "message", Str(msg))
      ensures written == old(written) && printed == old(printed)
    {
      entry := Set(entry, "message", Str(msg));
      self := this;
    }

    /** `add(key, value)` for a key other than `level` and `message`, as its type demands. */
    method Add(key: string, value: Value) returns (self: Logger)
      requires Valid() && key != "level" && key != "message"
      modifies this
      ensures self == this && Valid()
      ensures entry == Set(old(entry), key, value)
      ensures written == old(written) && printed == old(printed)
    {
      entry := Set(entry, key, value);
      self := this;
    }

    /**
     * `log()`: throws, writing nothing, when the entry has no truthy level;
     * otherwise prints it when the print mode lists its level, writes it as
     * one serialised line, and leaves only the level, set to `undefined`.
     */
    method Log() returns (thrown: bool)
      requires Valid()
      modifies this
      ensures Valid()
      ensures thrown <==> !HasLevel(old(entry))
      ensures thrown ==> entry == old(entry) && written == old(written) && printed == old(printed)
      ensures !thrown ==> && printed == old(printed) + Printing(printMode, old(entry))
                          && written == old(written) + [serialise(old(entry)) + "\n"]
                          && entry == [Field("level", Undefined)]
    {
      if Falsy(Get(entry, "level")) {
        return true;
      }
      printed := printed + Printing(printMode, entry);
      written := written + [serialise(entry) + "\n"];
      ghost var e0 := entry;
      var keys := Keys(entry);
      var i := 0;
      while i < |keys|
        invariant 0 <= i <= |keys| == |e0|
        invariant entry == OnlyKey(e0[..i], "level") + e0[i..]
        invariant written == old(written) + [serialise(e0) + "\n"]
        invariant printed == old(printed) + Printing(printMode, e0)
      {
        KeyAt(e0, i);
        KeepStep(e0, i, "level");
        if keys[i] != "level" {
          entry := Delete(entry, keys[i]);
        }
        i := i + 1;
      }
      assert e0[..|e0|] == e0 && e0[|e0|..] == [];
      OnlyPresentKey(e0, "level");
      entry := Set(entry, "level", Undefined);
      return false;
    }
  }

  /**
   * After a successful `log()` no field but the level key is left, and a
   * second `log()` without a new level throws.
   */
  lemma NoFieldLeaks(key: string)
    requires key != "level"
    ensures Lookup([Field("level", Undefined)], key) == None
    ensures !HasLevel([Field("level", Undefined)])
  {
  }
}
