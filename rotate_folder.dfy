/**
 * `RotateFolder` of src/loggings/rotate-folder.ts: the listing of archived
 * files newest first, the is-today test, and the guard and destination name of
 * `rotate_file`. The folder's pattern is a constructor parameter; the tests
 * pass the archive pattern (the log pattern followed by `.gz`), and the
 * lemmas about archive names here use that pattern. The gzip run and the
 * rename are not part of this model.
 */
module RotateFolders {
  import opened Wrappers
  import opened Decimal
  import opened FileNaming
  import opened Paths

  /** What `fs.existsSync` and `fs.statSync(..).isDirectory()` report for a path. */
  datatype PathKind = Missing | Directory | RegularFile

  /**
   * `get_rotate_files()`: the names that match `pattern` and whose year, month
   * and day are each no later than today's, as often as the listing holds
   * them, newest first by (year, month, day, id).
   */
  function GetRotateFiles(pattern: seq<Node>, today: Date, files: seq<string>): (r: seq<string>)
    requires RunCount(pattern) == 4
    ensures forall n :: multiset(r)[n] == (if Accepts(pattern, EachNotAfter(today), n) then multiset(files)[n] else 0)
    ensures forall i, j :: 0 <= i < j < |r| ==> NewerName(pattern, r[i], r[j])
  {
    ListFiles(pattern, EachNotAfter(today), files)
  }

  /** `is_today_rotate(name)`: false for a name the pattern rejects. */
  predicate IsTodayRotate(pattern: seq<Node>, today: Date, name: string)
    requires RunCount(pattern) == 4
  {
    IsToday(pattern, today, name)
  }

  /**
   * Whether `rotate_file(filePath)` archives, and to which path: nothing for a
   * missing path or a directory, so a file already moved away is left alone;
   * otherwise a path inside the folder named by the base name plus `.gz`.
   */
  function RotateDestination(folder: string, filePath: string, kind: PathKind): (r: Option<string>)
    ensures kind != RegularFile <==> r == None
    ensures r.Some? ==> Basename(r.value) == Basename(filePath) + ".gz"
    ensures r.Some? && folder != [] ==> r.value == StripTrailing(folder) + "/" + Basename(r.value)
  {
    if kind != RegularFile then None
    else
      var base := Basename(filePath);
      GzJoin(folder, base);
      BasenameOfJoin(folder, base + ".gz");
      Some(JoinPath(folder, base) + ".gz")
  }

  /** Appending `.gz` to a joined path appends it to the name that was joined. */
  lemma GzJoin(folder: string, base: string)
    requires '/' !in base
    ensures JoinPath(folder, base) + ".gz" == JoinPath(folder, base + ".gz")
    ensures base + ".gz" != [] && '/' !in base + ".gz"
  {
    assert (base + ".gz")[|base|..] == ".gz";
    if folder != [] {
      assert StripTrailing(folder) + "/" + base + ".gz" == StripTrailing(folder) + "/" + (base + ".gz");
    }
  }

  /** `is_today_rotate` is false for a name the pattern rejects, else compares the date with today. */
  lemma IsTodayRotateIff(pattern: seq<Node>, today: Date, name: string)
    requires RunCount(pattern) == 4
    ensures IsTodayRotate(pattern, today, name)
        <==> Parse(pattern, name).Some? && Parse(pattern, name).value.year == today.year
             && Parse(pattern, name).value.month == today.month && Parse(pattern, name).value.day == today.day
  {
  }

  /** An archived log file name parses under the archive pattern with the numbers of the log file. */
  lemma ArchiveNameParses(infix: string, date: Date, id: nat)
    requires 1000 <= date.year < 10000 && date.month < 100 && date.day < 100 && id < 1000
    ensures Parse(ArchivePattern(infix), FileName(infix, date, id) + ".gz")
         == Some(FileInfo(date.year, date.month, date.day, id, false))
  {
    NatToStringLength(id, 3);
    assert Pow10(3) == 1000;
    var gz := [Dot] + Literal("gz");
    assert RunCount(gz) == 0 by { assert gz[1..] == Literal("gz"); }
    assert MatchAt(gz, ".gz") == Some(Captures([], false)) by {
      MatchDot('.', Literal("gz"), "gz");
      MatchLiteral("gz", [], []);
      assert "gz" + [] == "gz" && ".gz" == ['.'] + "gz";
    }
    ParseFileName(infix, AtMost(3), gz, date, id, ".gz");
  }

  /**
   * Archiving a file of the log folder, dated no later than today
   * component-wise, lands on the log file's name plus `.gz`, which the archive
   * listing keeps, with the same numbers.
   */
  lemma ArchivedFileListed(infix: string, logFolder: string, folder: string, date: Date, today: Date, id: nat)
    requires '/' !in infix
    requires 1000 <= date.year < 10000 && date.month < 100 && date.day < 100 && id < 1000
    requires date.year <= today.year && date.month <= today.month && date.day <= today.day
    ensures var archived := Basename(RotateDestination(folder, JoinPath(logFolder, FileName(infix, date, id)), RegularFile).value);
      && archived == FileName(infix, date, id) + ".gz"
      && Parse(ArchivePattern(infix), archived) == Some(FileInfo(date.year, date.month, date.day, id, false))
      && GetRotateFiles(ArchivePattern(infix), today, [archived]) == [archived]
  {
    var name := FileName(infix, date, id);
    NoSlashInName(infix, date, id);
    BasenameOfJoin(logFolder, name);
    ArchiveNameParses(infix, date, id);
    ListOne(ArchivePattern(infix), EachNotAfter(today), name + ".gz");
  }

  /** A built file name holds no `/` when the infix holds none. */
  lemma NoSlashInName(infix: string, date: Date, id: nat)
    requires '/' !in infix
    ensures FileName(infix, date, id) != [] && '/' !in FileName(infix, date, id)
  {
  }
}
