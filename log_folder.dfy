/**
 * `LogFolder` of src/core/log-folder.ts: the path of a new log file, the
 * listing of the folder's log files newest first, and the is-today test. The
 * directory listing and today's UTC date are parameters.
 */
module LogFolders {
  import opened Wrappers
  import opened Decimal
  import opened FileNaming
  import opened Paths

  /** `create_file(id)`: the path of today's file with that id inside the folder. */
  function CreateFile(folder: string, infix: string, today: Date, id: nat): (path: string)
    ensures '/' !in infix ==> Basename(path) == FileName(infix, today, id)
    ensures Printable(today) && id < 1000 ==>
      Parse(LogPattern(infix), FileName(infix, today, id)) == Some(FileInfo(today.year, today.month, today.day, id, false))
  {
    CreatedPath(folder, infix, today, id);
    JoinPath(folder, FileName(infix, today, id))
  }

  /** The facts about a created path, each under the condition it needs. */
  lemma CreatedPath(folder: string, infix: string, today: Date, id: nat)
    ensures '/' !in infix ==> Basename(JoinPath(folder, FileName(infix, today, id))) == FileName(infix, today, id)
    ensures Printable(today) && id < 1000 ==>
      Parse(LogPattern(infix), FileName(infix, today, id)) == Some(FileInfo(today.year, today.month, today.day, id, false))
  {
    if '/' !in infix {
      BasenameOfJoin(folder, FileName(infix, today, id));
    }
    if Printable(today) && id < 1000 {
      NameParses(infix, today, id);
    }
  }

  lemma NameParses(infix: string, date: Date, id: nat)
    requires Printable(date) && id < 1000
    ensures Parse(LogPattern(infix), FileName(infix, date, id)) == Some(FileInfo(date.year, date.month, date.day, id, false))
  {
    NatToStringLength(id, 3);
    assert Pow10(3) == 1000;
    ParseFileName(infix, AtMost(3), [], date, id, []);
    assert FileName(infix, date, id) + [] == FileName(infix, date, id);
  }

  /**
   * `get_log_files()`: the names that match the folder's pattern and whose
   * year, month and day are each no later than today's, as often as the
   * listing holds them, newest first by (year, month, day, id).
   */
  function GetLogFiles(infix: string, today: Date, files: seq<string>): (r: seq<string>)
    ensures forall n :: multiset(r)[n] == (if Accepts(LogPattern(infix), EachNotAfter(today), n) then multiset(files)[n] else 0)
    ensures forall i, j :: 0 <= i < j < |r| ==> NewerName(LogPattern(infix), r[i], r[j])
  {
    ListFiles(LogPattern(infix), EachNotAfter(today), files)
  }

  /** The listing `get_log_files` evidently intends: every name dated on or before today. */
  function GetLogFilesNotAfter(infix: string, today: Date, files: seq<string>): (r: seq<string>)
    ensures forall n :: multiset(r)[n] == (if Accepts(LogPattern(infix), NotAfter(today), n) then multiset(files)[n] else 0)
    ensures forall i, j :: 0 <= i < j < |r| ==> NewerName(LogPattern(infix), r[i], r[j])
  {
    ListFiles(LogPattern(infix), NotAfter(today), files)
  }

  /** `is_today_file(name)`. */
  predicate IsTodayFile(infix: string, today: Date, name: string)
  {
    IsToday(LogPattern(infix), today, name)
  }

  /** The file `create_file` makes today is today's file. */
  lemma CreatedFileIsToday(folder: string, infix: string, today: Date, id: nat)
    requires Printable(today) && id < 1000 && '/' !in infix
    ensures IsTodayFile(infix, today, Basename(CreateFile(folder, infix, today, id)))
  {
  }

  /** A file named for another date is not today's; a name the pattern rejects is not today's either. */
  lemma OtherDayIsNotToday(folder: string, infix: string, today: Date, date: Date, id: nat, other: string)
    requires Printable(date) && id < 1000 && date != today && '/' !in infix
    requires Parse(LogPattern(infix), other).None?
    ensures !IsTodayFile(infix, today, Basename(CreateFile(folder, infix, date, id)))
    ensures !IsTodayFile(infix, today, other)
  {
  }

  /** Today's files are kept by the listing. */
  lemma TodayListed(infix: string, today: Date, files: seq<string>, name: string)
    requires name in files && IsTodayFile(infix, today, name)
    ensures name in GetLogFiles(infix, today, files)
  {
    assert multiset(GetLogFiles(infix, today, files))[name] == multiset(files)[name] > 0;
  }

  /**
   * The listing drops a file of an earlier month with a later day: on
   * 2024-1-15, `bilbo-<infix>-2023-12-31-0.log` is dropped, although it is in
   * the past; the intended listing keeps it.
   */
  lemma EarlierFileDropped(infix: string)
    ensures var today, name := Date(2024, 1, 15), FileName(infix, Date(2023, 12, 31), 0);
      && GetLogFiles(infix, today, [name]) == []
      && GetLogFilesNotAfter(infix, today, [name]) == [name]
  {
    var today, name := Date(2024, 1, 15), FileName(infix, Date(2023, 12, 31), 0);
    NameParses(infix, Date(2023, 12, 31), 0);
    ListOne(LogPattern(infix), EachNotAfter(today), name);
    ListOne(LogPattern(infix), NotAfter(today), name);
  }
}
