/**
 * `LoggerFolder` of src/core/logger-folder.ts: the name of a new log file,
 * the compressed/uncompressed listings, the is-today test, the biggest id in
 * use today, and the decision `recover_folder` makes about which files to
 * archive and which one to keep writing to. Directory listings and today's
 * UTC date are parameters; archiving itself is not part of this model.
 */
module LoggerFolders {
  import opened Wrappers
  import opened Decimal
  import opened FileNaming
  import opened Paths

  /** `create_file(id)`: the path of today's file with that id inside the folder. */
  function CreateFile(folder: string, infix: string, today: Date, id: nat): (path: string)
    ensures '/' !in infix ==> Basename(path) == FileName(infix, today, id)
    ensures Printable(today) ==>
      Parse(LoggerPattern(infix), FileName(infix, today, id)) == Some(FileInfo(today.year, today.month, today.day, id, false))
  {
    CreatedPath(folder, infix, today, id);
    JoinPath(folder, FileName(infix, today, id))
  }

  /** The facts about a created path, each under the condition it needs. */
  lemma CreatedPath(folder: string, infix: string, today: Date, id: nat)
    ensures '/' !in infix ==> Basename(JoinPath(folder, FileName(infix, today, id))) == FileName(infix, today, id)
    ensures Printable(today) ==>
      Parse(LoggerPattern(infix), FileName(infix, today, id)) == Some(FileInfo(today.year, today.month, today.day, id, false))
  {
    if '/' !in infix {
      BasenameOfJoin(folder, FileName(infix, today, id));
    }
    if Printable(today) {
      PlainNameParses(infix, today, id);
    }
  }

  lemma GzNode(s: string)
    ensures MatchAt([OptionalGz], s) == Some(Captures([], |s| >= 3 && s[..3] == ".gz"))
  {
    assert [OptionalGz][1..] == [];
  }

  /** A log file name matches with no `.gz` group, for any id. */
  lemma PlainNameParses(infix: string, date: Date, id: nat)
    requires Printable(date)
    ensures Parse(LoggerPattern(infix), FileName(infix, date, id)) == Some(FileInfo(date.year, date.month, date.day, id, false))
  {
    assert RunCount([OptionalGz]) == 0 by { assert [OptionalGz][1..] == []; }
    GzNode([]);
    ParseFileName(infix, Unbounded, [OptionalGz], date, id, []);
    assert FileName(infix, date, id) + [] == FileName(infix, date, id);
  }

  /** The archive of a log file matches with the `.gz` group, with the same numbers. */
  lemma ArchiveNameParses(infix: string, date: Date, id: nat)
    requires Printable(date)
    ensures Parse(LoggerPattern(infix), FileName(infix, date, id) + ".gz") == Some(FileInfo(date.year, date.month, date.day, id, true))
  {
    assert RunCount([OptionalGz]) == 0 by { assert [OptionalGz][1..] == []; }
    GzNode(".gz");
    ParseFileName(infix, Unbounded, [OptionalGz], date, id, ".gz");
  }

  /**
   * `filter_valid_files(files, compressed)`: the matching names whose `.gz`
   * group took part exactly when `compressed`, as often as the listing holds
   * them, newest first by (year, month, day, id).
   */
  function FilterValidFiles(infix: string, files: seq<string>, compressed: bool): (r: seq<string>)
    ensures forall n :: multiset(r)[n] == (if Accepts(LoggerPattern(infix), Compressed(compressed), n) then multiset(files)[n] else 0)
    ensures forall i :: 0 <= i < |r| ==> Parse(LoggerPattern(infix), r[i]).Some? && Parse(LoggerPattern(infix), r[i]).value.gz == compressed
    ensures forall i, j :: 0 <= i < j < |r| ==> NewerName(LoggerPattern(infix), r[i], r[j])
  {
    ListFiles(LoggerPattern(infix), Compressed(compressed), files)
  }

  /** A log file is listed as uncompressed and its archive as compressed, and neither the other way. */
  lemma CompressedPartition(infix: string, date: Date, id: nat)
    requires Printable(date)
    ensures var name := FileName(infix, date, id);
      && FilterValidFiles(infix, [name], false) == [name] && FilterValidFiles(infix, [name], true) == []
      && FilterValidFiles(infix, [name + ".gz"], true) == [name + ".gz"] && FilterValidFiles(infix, [name + ".gz"], false) == []
  {
    PlainListing(infix, date, id);
    ArchiveListing(infix, date, id);
  }

  /** A log file is in the uncompressed listing only. */
  lemma PlainListing(infix: string, date: Date, id: nat)
    requires Printable(date)
    ensures var name := FileName(infix, date, id);
      && FilterValidFiles(infix, [name], false) == [name] && FilterValidFiles(infix, [name], true) == []
  {
    var name := FileName(infix, date, id);
    PlainNameParses(infix, date, id);
    ListOne(LoggerPattern(infix), Compressed(false), name);
    ListOne(LoggerPattern(infix), Compressed(true), name);
  }

  /** `get_valid_files(folder)`: the uncompressed listing. */
  function GetValidFiles(infix: string, files: seq<string>): (r: seq<string>)
    ensures forall n :: multiset(r)[n] == (if Accepts(LoggerPattern(infix), Compressed(false), n) then multiset(files)[n] else 0)
    ensures forall i :: 0 <= i < |r| ==> Parse(LoggerPattern(infix), r[i]).Some? && !Parse(LoggerPattern(infix), r[i]).value.gz
  {
    FilterValidFiles(infix, files, false)
  }

  /** `is_today_file(name)`, for a name the folder's pattern matches. */
  predicate IsTodayFile(infix: string, today: Date, name: string)
    requires Parse(LoggerPattern(infix), name).Some?
  {
    DateOf(Parse(LoggerPattern(infix), name).value) == today
  }

  /** A matching name is today's exactly when its year, month and day are today's. */
  lemma IsTodayFileIff(infix: string, today: Date, name: string)
    requires Parse(LoggerPattern(infix), name).Some?
    ensures var info := Parse(LoggerPattern(infix), name).value;
      IsTodayFile(infix, today, name) <==> info.year == today.year && info.month == today.month && info.day == today.day
  {
  }

  /** The file `create_file` makes today is today's; one made on another day is not. */
  lemma CreatedFileIsToday(infix: string, today: Date, date: Date, id: nat)
    requires Printable(date)
    ensures Parse(LoggerPattern(infix), FileName(infix, date, id)).Some?
    ensures IsTodayFile(infix, today, FileName(infix, date, id)) <==> date == today
  {
    PlainNameParses(infix, date, id);
  }

  /** The id a listed name carries. */
  function IdOf(infix: string, name: string): nat
  {
    if Parse(LoggerPattern(infix), name).Some? then Parse(LoggerPattern(infix), name).value.id else 0
  }

  /**
   * One half of `retrieve_biggest_file_id`: the id of the newest file of the
   * listing filtered by `compressed` when it is dated today, else 0.
   */
  function NewestTodayId(infix: string, today: Date, files: seq<string>, compressed: bool): (r: nat)
    ensures r != 0 ==> exists n :: n in files && Accepts(LoggerPattern(infix), Compressed(compressed), n)
                                   && DateOf(Parse(LoggerPattern(infix), n).value) == today && IdOf(infix, n) == r
  {
    var v := FilterValidFiles(infix, files, compressed);
    if |v| != 0 && IsTodayFile(infix, today, v[0]) then
      assert multiset(v)[v[0]] > 0;
      IdOf(infix, v[0])
    else 0
  }

  /** No file of the listing filtered by `compressed` is dated after today. */
  ghost predicate NoneAfter(infix: string, today: Date, files: seq<string>, compressed: bool)
  {
    forall n :: n in files && Accepts(LoggerPattern(infix), Compressed(compressed), n) ==>
      !Before(today, DateOf(Parse(LoggerPattern(infix), n).value))
  }

  /**
   * When no listed file is dated after today, the newest file's id is at least
   * the id of every file of today: only the first sorted entry needs
   * inspecting.
   */
  lemma NewestTodayIdBound(infix: string, today: Date, files: seq<string>, compressed: bool, n: string)
    requires NoneAfter(infix, today, files, compressed)
    requires n in files && Accepts(LoggerPattern(infix), Compressed(compressed), n)
    requires DateOf(Parse(LoggerPattern(infix), n).value) == today
    ensures IdOf(infix, n) <= NewestTodayId(infix, today, files, compressed)
  {
    NewestListedBound(LoggerPattern(infix), Compressed(compressed), today, files, n);
  }

  /** The same for any listing: its head is today's and carries the biggest id of today. */
  lemma NewestListedBound(p: seq<Node>, k: Keep, today: Date, files: seq<string>, n: string)
    requires RunCount(p) == 4
    requires forall m :: m in files && Accepts(p, k, m) ==> !Before(today, DateOf(Parse(p, m).value))
    requires n in files && Accepts(p, k, n) && DateOf(Parse(p, n).value) == today
    ensures var v := ListFiles(p, k, files);
      v != [] && DateOf(Parse(p, v[0]).value) == today && Parse(p, n).value.id <= Parse(p, v[0]).value.id
  {
    var v := ListFiles(p, k, files);
    var j := ListedAt(p, k, files, n);
    ListedHead(p, k, files);
    var h := v[0];
    assert !Before(today, DateOf(Parse(p, h).value));
    if j != 0 {
      assert NewerName(p, h, v[j]);
      NewerToday(p, today, h, n);
    }
  }

  /** The head of a non-empty listing is one of the names listed, and accepted. */
  lemma ListedHead(p: seq<Node>, k: Keep, files: seq<string>)
    requires RunCount(p) == 4 && ListFiles(p, k, files) != []
    ensures ListFiles(p, k, files)[0] in files && Accepts(p, k, ListFiles(p, k, files)[0])
  {
    var v := ListFiles(p, k, files);
    assert multiset(v)[v[0]] > 0;
  }

  /** A name the listing keeps sits at some index of it. */
  lemma ListedAt(p: seq<Node>, k: Keep, files: seq<string>, n: string) returns (j: nat)
    requires RunCount(p) == 4
    requires n in files && Accepts(p, k, n)
    ensures j < |ListFiles(p, k, files)| && ListFiles(p, k, files)[j] == n
  {
    var v := ListFiles(p, k, files);
    assert multiset(v)[n] == multiset(files)[n] > 0;
    j :| 0 <= j < |v| && v[j] == n;
  }

  /** A name at least as new as one of today's, and not after today, is itself today's with an id at least as big. */
  lemma NewerToday(p: seq<Node>, today: Date, a: string, b: string)
    requires RunCount(p) == 4 && NewerName(p, a, b)
    requires !Before(today, DateOf(Parse(p, a).value)) && DateOf(Parse(p, b).value) == today
    ensures DateOf(Parse(p, a).value) == today && Parse(p, b).value.id <= Parse(p, a).value.id
  {
  }

  function Max(a: nat, b: nat): (m: nat)
    ensures m >= a && m >= b && (m == a || m == b)
  {
    if a >= b then a else b
  }

  /**
   * `retrieve_biggest_file_id()` as written: both the log folder and the
   * rotate folder are listed uncompressed.
   */
  method RetrieveBiggestFileId(infix: string, today: Date, logFiles: seq<string>, rotateFiles: seq<string>) returns (biggest: nat)
    ensures biggest == Max(NewestTodayId(infix, today, logFiles, false), NewestTodayId(infix, today, rotateFiles, false))
  {
    var logs := GetValidFiles(infix, logFiles);
    var biggestLog := 0;
    if |logs| != 0 && IsTodayFile(infix, today, logs[0]) {
      biggestLog := IdOf(infix, logs[0]);
    }
    var rotated := GetValidFiles(infix, rotateFiles);
    var biggestRotated := 0;
    if |rotated| != 0 && IsTodayFile(infix, today, rotated[0]) {
      biggestRotated := IdOf(infix, rotated[0]);
    }
    biggest := Max(biggestLog, biggestRotated);
  }

  /** The id the method evidently intends: the rotate folder's archives are its compressed files. */
  method RetrieveBiggestFileIdCorrected(infix: string, today: Date, logFiles: seq<string>, rotateFiles: seq<string>) returns (biggest: nat)
    ensures biggest == Max(NewestTodayId(infix, today, logFiles, false), NewestTodayId(infix, today, rotateFiles, true))
  {
    var logs := GetValidFiles(infix, logFiles);
    var biggestLog := 0;
    if |logs| != 0 && IsTodayFile(infix, today, logs[0]) {
      biggestLog := IdOf(infix, logs[0]);
    }
    var archives := FilterValidFiles(infix, rotateFiles, true);
    var biggestArchived := 0;
    if |archives| != 0 && IsTodayFile(infix, today, archives[0]) {
      biggestArchived := IdOf(infix, archives[0]);
    }
    biggest := Max(biggestLog, biggestArchived);
  }

  /**
   * The corrected id is at least the id of every file of today, in the log
   * folder and among the archives, provided nothing is dated after today; and
   * it is 0 or the id of one of them.
   */
  lemma CorrectedIdIsBiggest(infix: string, today: Date, logFiles: seq<string>, rotateFiles: seq<string>, n: string)
    requires NoneAfter(infix, today, logFiles, false) && NoneAfter(infix, today, rotateFiles, true)
    requires Parse(LoggerPattern(infix), n).Some? && DateOf(Parse(LoggerPattern(infix), n).value) == today
    requires (n in logFiles && Accepts(LoggerPattern(infix), Compressed(false), n))
          || (n in rotateFiles && Accepts(LoggerPattern(infix), Compressed(true), n))
    ensures IdOf(infix, n) <= Max(NewestTodayId(infix, today, logFiles, false), NewestTodayId(infix, today, rotateFiles, true))
  {
    if n in logFiles && Accepts(LoggerPattern(infix), Compressed(false), n) {
      NewestTodayIdBound(infix, today, logFiles, false, n);
    } else {
      NewestTodayIdBound(infix, today, rotateFiles, true, n);
    }
  }

  /**
   * With today's file `id` archived and the log folder empty, the method as
   * written reports 0, while the corrected one reports `id`.
   */
  lemma ArchivesIgnored(infix: string, today: Date, id: nat)
    requires Printable(today)
    ensures var rotated := [FileName(infix, today, id) + ".gz"];
      && Max(NewestTodayId(infix, today, [], false), NewestTodayId(infix, today, rotated, false)) == 0
      && Max(NewestTodayId(infix, today, [], false), NewestTodayId(infix, today, rotated, true)) == id
  {
    assert FilterValidFiles(infix, [], false) == [];
    NewestOfArchive(infix, today, id);
  }

  /** The newest id of a folder holding only today's archive `id`: 0 uncompressed, `id` compressed. */
  lemma NewestOfArchive(infix: string, today: Date, id: nat)
    requires Printable(today)
    ensures var rotated := [FileName(infix, today, id) + ".gz"];
      NewestTodayId(infix, today, rotated, false) == 0 && NewestTodayId(infix, today, rotated, true) == id
  {
    ArchiveListing(infix, today, id);
  }

  /** The archive of today's file `id` is in the compressed listing only. */
  lemma ArchiveListing(infix: string, today: Date, id: nat)
    requires Printable(today)
    ensures var name := FileName(infix, today, id) + ".gz";
      && FilterValidFiles(infix, [name], false) == []
      && FilterValidFiles(infix, [name], true) == [name]
      && Parse(LoggerPattern(infix), name).value == FileInfo(today.year, today.month, today.day, id, true)
  {
    var name := FileName(infix, today, id) + ".gz";
    ArchiveNameParses(infix, today, id);
    ListOne(LoggerPattern(infix), Compressed(false), name);
    ListOne(LoggerPattern(infix), Compressed(true), name);
  }

  /** `s` in reverse order. */
  function Reversed(s: seq<string>): (r: seq<string>)
    ensures |r| == |s| && forall i :: 0 <= i < |s| ==> r[i] == s[|s| - 1 - i]
  {
    if s == [] then [] else Reversed(s[1..]) + [s[0]]
  }

  lemma {:induction false} ReversedMultiset(s: seq<string>)
    ensures multiset(Reversed(s)) == multiset(s)
    decreases |s|
  {
    if s != [] {
      ReversedMultiset(s[1..]);
      assert s == [s[0]] + s[1..];
    }
  }

  lemma ReversedStep(s: seq<string>, i: nat)
    requires i < |s|
    ensures Reversed(s[i..]) == Reversed(s[i + 1..]) + [s[i]]
  {
    assert s[i..][1..] == s[i + 1..];
  }

  /** What `recover_folder` decides: the path it returns, and the files it archives, in order. */
  datatype Recovery = Recovery(path: string, rotations: seq<string>)

  /**
   * The decision declaratively: nothing for an empty listing; otherwise every
   * file but the newest from the oldest up, then the newest too unless it is
   * today's, in which case its path is returned.
   */
  function Recover(folder: string, infix: string, today: Date, files: seq<string>): (r: Recovery)
  {
    var v := GetValidFiles(infix, files);
    if v == [] then Recovery("", [])
    else if IsTodayFile(infix, today, v[0]) then Recovery(JoinPath(folder, v[0]), Reversed(v[1..]))
    else Recovery("", Reversed(v[1..]) + [v[0]])
  }

  /** `recover_folder()`. */
  method RecoverFolder(folder: string, infix: string, today: Date, files: seq<string>) returns (path: string, rotations: seq<string>)
    ensures Recovery(path, rotations) == Recover(folder, infix, today, files)
  {
    var valid := GetValidFiles(infix, files);
    if |valid| == 0 {
      return "", [];
    }
    rotations := [];
    var i := |valid| - 1;
    while i > 0
      invariant 0 <= i < |valid|
      invariant rotations == Reversed(valid[i + 1..])
      decreases i
    {
      ReversedStep(valid, i);
      rotations := rotations + [valid[i]];
      i := i - 1;
    }
    assert valid[1..] == valid[i + 1..];
    if !IsTodayFile(infix, today, valid[0]) {
      rotations := rotations + [valid[0]];
      return "", rotations;
    }
    return JoinPath(folder, valid[0]), rotations;
  }

  /** Moving the head of a listing behind its reversed rest keeps every entry. */
  lemma HeadBehind(v: seq<string>)
    requires v != []
    ensures multiset(Reversed(v[1..])) + multiset{v[0]} == multiset(v)
    ensures multiset(Reversed(v[1..]) + [v[0]]) == multiset(v)
  {
    ReversedMultiset(v[1..]);
    assert v == [v[0]] + v[1..];
  }

  /** When `recover_folder` keeps no file, it archives every uncompressed file, each once. */
  lemma RecoverArchivesAll(folder: string, infix: string, today: Date, files: seq<string>)
    requires Recover(folder, infix, today, files).path == ""
    ensures multiset(Recover(folder, infix, today, files).rotations) == multiset(GetValidFiles(infix, files))
  {
    var v := GetValidFiles(infix, files);
    if v != [] {
      HeadBehind(v);
      if IsTodayFile(infix, today, v[0]) {
        NonEmptyMatch(LoggerPattern(infix), v[0]);
        JoinPathLength(folder, v[0]);
      }
    }
  }

  /**
   * When `recover_folder` keeps a file, it is the newest one and today's, and
   * every other uncompressed file is archived, each once.
   */
  lemma RecoverKeepsNewest(folder: string, infix: string, today: Date, files: seq<string>)
    requires Recover(folder, infix, today, files).path != ""
    ensures var r, v := Recover(folder, infix, today, files), GetValidFiles(infix, files);
      && v != [] && r.path == JoinPath(folder, v[0]) && IsTodayFile(infix, today, v[0])
      && multiset(r.rotations) + multiset{v[0]} == multiset(v)
  {
    HeadBehind(GetValidFiles(infix, files));
  }

  /** Only a non-empty name matches a pattern starting with a character. */
  lemma NonEmptyMatch(p: seq<Node>, name: string)
    requires RunCount(p) == 4 && p != [] && p[0].Char? && Parse(p, name).Some?
    ensures name != []
  {
  }

  lemma JoinPathLength(dir: string, name: string)
    ensures |JoinPath(dir, name)| >= |name|
  {
  }

  /** Entry `j` of a listing is archived unless it is the head and the head is kept. */
  lemma ArchivedAt(v: seq<string>, j: nat, keepHead: bool)
    requires j < |v| && (j == 0 ==> !keepHead)
    ensures v[j] in (if keepHead then Reversed(v[1..]) else Reversed(v[1..]) + [v[0]])
  {
    ReversedMultiset(v[1..]);
    if j != 0 {
      assert v[j] == v[1..][j - 1];
      assert v[j] in multiset(Reversed(v[1..]));
    }
  }

  /** A file dated another day than today is archived. */
  lemma OtherDaysArchived(folder: string, infix: string, today: Date, files: seq<string>, n: string)
    requires n in files && Accepts(LoggerPattern(infix), Compressed(false), n)
    requires DateOf(Parse(LoggerPattern(infix), n).value) != today
    ensures n in Recover(folder, infix, today, files).rotations
  {
    var v := GetValidFiles(infix, files);
    var j := ListedAt(LoggerPattern(infix), Compressed(false), files, n);
    ArchivedAt(v, j, IsTodayFile(infix, today, v[0]));
  }
}
