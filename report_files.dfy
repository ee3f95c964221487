/** Report files on disk (course_reports.py, parse_filename and
    scan_grade_reports): names of the form `<course>_<kind>_<stamp>.csv`, five
    kinds of report, and the walk over the reports directory that turns the
    names it recognises into descriptor rows. */
module ReportFiles {
  import opened Common
  import opened Text
  import opened Timestamps

  /** The five kinds, in the order the pattern lists them. */
  datatype ReportKind = GradeReport | StudentProfileInfo | MayEnrollInfo | AnonymizedIds | OraData

  function KindName(k: ReportKind): (name: string)
    ensures |name| >= 8 && KindOfInitial(name[0]) == Some(k)
  {
    match k
    case GradeReport => "grade_report"
    case StudentProfileInfo => "student_profile_info"
    case MayEnrollInfo => "may_enroll_info"
    case AnonymizedIds => "anonymized_ids"
    case OraData => "ORA_data"
  }

  /** The kinds begin with five different letters, so the letter after the
      course part's closing `_` tells which alternative can match. */
  function KindOfInitial(c: char): Option<ReportKind> {
    if c == 'g' then Some(GradeReport)
    else if c == 's' then Some(StudentProfileInfo)
    else if c == 'm' then Some(MayEnrollInfo)
    else if c == 'a' then Some(AnonymizedIds)
    else if c == 'O' then Some(OraData)
    else None
  }

  /** `_<kind>_`. */
  function Token(k: ReportKind): (t: string)
    ensures |t| == |KindName(k)| + 2 && t[0] == '_' && t[1] == KindName(k)[0]
  {
    "_" + KindName(k) + "_"
  }

  /** What follows the kind: a stamp of the expected shape and `.csv`. Text
      after it is allowed, since the match is not anchored at the end. */
  predicate TailShaped(u: string) {
    |u| >= 19 && StampShaped(u[..15]) && u[15..19] == ".csv"
  }

  /** The part of the pattern after the course group, matched at `p`. */
  predicate MatchesAt(s: string, p: int, k: ReportKind) {
    0 <= p <= |s| && IsPrefix(Token(k), s[p..]) && TailShaped(s[p + |Token(k)|..])
  }

  /** The stamp part of a match. */
  function StampAt(s: string, p: int, k: ReportKind): (stamp: string)
    requires MatchesAt(s, p, k)
    ensures StampShaped(stamp)
  {
    s[p + |Token(k)|..][..15]
  }

  /** A match begins with `_` and the kind's own first letter. */
  lemma MatchNeedsInitial(s: string, p: int)
    ensures forall k :: MatchesAt(s, p, k) ==>
      p + 1 < |s| && s[p] == '_' && KindOfInitial(s[p + 1]) == Some(k)
  {
    forall k | MatchesAt(s, p, k)
      ensures p + 1 < |s| && s[p] == '_' && KindOfInitial(s[p + 1]) == Some(k)
    {
      var t := Token(k);
      assert s[p] == s[p..][..|t|][0] && s[p + 1] == s[p..][..|t|][1];
    }
  }

  /** The alternation tried at position `p`. */
  function KindAt(s: string, p: int): (r: Option<ReportKind>)
    ensures r.Some? ==> MatchesAt(s, p, r.value)
    ensures r.None? ==> forall k :: !MatchesAt(s, p, k)
  {
    MatchNeedsInitial(s, p);
    if 0 <= p && p + 1 < |s| && s[p] == '_' && KindOfInitial(s[p + 1]).Some?
      && MatchesAt(s, p, KindOfInitial(s[p + 1]).value)
    then KindOfInitial(s[p + 1])
    else None
  }

  /** A course group ending at `q` holds no line break (`.` does not match `\n`). */
  predicate CourseReach(s: string, q: int) {
    0 <= q <= |s| && '\n' !in s[..q]
  }

  /** The lazy group `(.*?)`: the first end `q` from `p` on where the rest of the
      pattern matches, without crossing a line break. */
  function SearchFrom(s: string, p: int): (r: Option<(int, ReportKind)>)
    requires CourseReach(s, p)
    ensures r.Some? ==> p <= r.value.0 && CourseReach(s, r.value.0) && MatchesAt(s, r.value.0, r.value.1)
    ensures r.Some? ==> forall q, k :: p <= q < r.value.0 ==> !MatchesAt(s, q, k)
    ensures r.None? ==> forall q, k :: p <= q && CourseReach(s, q) ==> !MatchesAt(s, q, k)
    decreases |s| - p
  {
    var k := KindAt(s, p);
    if k.Some? then Some((p, k.value))
    else if p < |s| && s[p] != '\n' then
      assert s[..p + 1] == s[..p] + [s[p]];
      SearchFrom(s, p + 1)
    else
      assert forall q :: p < q <= |s| ==> s[..q][p] == s[p];
      None
  }

  /** What `parse_filename` returns: the course part, the kind, and the time,
      `None` when `strptime` rejects the stamp. */
  datatype Descriptor = Descriptor(course: string, kind: ReportKind, date: Option<DateTime>)

  /** `parse_filename(name)`. */
  function ParseFilename(name: string): (r: Option<Descriptor>)
    ensures r.Some? ==>
      var p := |r.value.course|;
      && p <= |name| && name[..p] == r.value.course && '\n' !in r.value.course
      && MatchesAt(name, p, r.value.kind)
      && r.value.date == ParseStamp(StampAt(name, p, r.value.kind))
      && (forall q, k :: 0 <= q < p ==> !MatchesAt(name, q, k))
    ensures r.None? <==> forall q, k :: CourseReach(name, q) ==> !MatchesAt(name, q, k)
  {
    match SearchFrom(name, 0)
    case None => None
    case Some((p, k)) =>
      assert forall q :: CourseReach(name, q) ==> 0 <= q;
      Some(Descriptor(name[..p], k, ParseStamp(StampAt(name, p, k))))
  }

  /** A course part in which no `_` is followed by a kind's first letter: the
      names built from it cannot be read with a shorter course part. */
  predicate NoKindAfterUnderscore(c: string) {
    forall i :: 0 <= i < |c| - 1 && c[i] == '_' ==> KindOfInitial(c[i + 1]).None?
  }

  /** The name a report of kind `k` made at `dt` gets, followed by `tail`. */
  function ReportName(c: string, k: ReportKind, dt: DateTime, tail: string): string
    requires ValidDate(dt)
  {
    c + Token(k) + FormatStamp(dt) + ".csv" + tail
  }

  /** Where the pieces of a built name sit. */
  lemma Pieces(s: string, c: string, t: string, f: string, tail: string)
    requires s == c + t + f + ".csv" + tail && |f| == 15
    ensures s[..|c|] == c
    ensures IsPrefix(t, s[|c|..])
    ensures var u := s[|c| + |t|..]; |u| >= 19 && u[..15] == f && u[15..19] == ".csv"
  {
    assert s == c + (t + (f + (".csv" + tail)));
    var u := s[|c| + |t|..];
    assert u == f + (".csv" + tail);
  }

  lemma ReportNameMatches(c: string, k: ReportKind, dt: DateTime, tail: string)
    requires ValidDate(dt)
    ensures MatchesAt(ReportName(c, k, dt, tail), |c|, k)
    ensures StampAt(ReportName(c, k, dt, tail), |c|, k) == FormatStamp(dt)
    ensures ReportName(c, k, dt, tail)[..|c|] == c
    ensures ReportName(c, k, dt, tail)[|c|] == '_'
  {
    StampRoundTrip(dt);
    TokenMatches(ReportName(c, k, dt, tail), c, k, FormatStamp(dt), tail);
  }

  lemma TokenMatches(s: string, c: string, k: ReportKind, f: string, tail: string)
    requires s == c + Token(k) + f + ".csv" + tail && |f| == 15 && StampShaped(f)
    ensures MatchesAt(s, |c|, k) && StampAt(s, |c|, k) == f
    ensures s[..|c|] == c && s[|c|] == '_'
  {
    var t := Token(k);
    Pieces(s, c, t, f, tail);
    assert s[|c|] == s[|c|..][..|t|][0];
  }

  lemma NoEarlierMatch(c: string, k: ReportKind, dt: DateTime, tail: string, q: int)
    requires ValidDate(dt) && NoKindAfterUnderscore(c)
    requires 0 <= q < |c|
    ensures forall k' :: !MatchesAt(ReportName(c, k, dt, tail), q, k')
  {
    var s := ReportName(c, k, dt, tail);
    ReportNameMatches(c, k, dt, tail);
    MatchNeedsInitial(s, q);
    assert s[q] == s[..|c|][q] == c[q];
    if q < |c| - 1 {
      assert s[q + 1] == s[..|c|][q + 1] == c[q + 1];
    } else {
      assert KindOfInitial(s[q + 1]) == None;
    }
  }

  /** Reading back a built name: the course part, the kind and the time, with
      any text after `.csv` ignored. */
  lemma ParseReportName(c: string, k: ReportKind, dt: DateTime, tail: string)
    requires ValidDate(dt) && '\n' !in c && NoKindAfterUnderscore(c)
    ensures ParseFilename(ReportName(c, k, dt, tail)) == Some(Descriptor(c, k, Some(dt)))
  {
    var s := ReportName(c, k, dt, tail);
    ReportNameMatches(c, k, dt, tail);
    StampRoundTrip(dt);
    forall q, k' | 0 <= q < |c| ensures !MatchesAt(s, q, k') {
      NoEarlierMatch(c, k, dt, tail, q);
    }
    assert CourseReach(s, |c|);
    var d := ParseFilename(s).value;
    assert |d.course| == |c|;
    MatchNeedsInitial(s, |c|);
  }

  /** The names the file-name tests read. */
  lemma ExampleGradeReport()
    ensures ParseFilename("UrFU_PYTHON_2025_fall_grade_report_2025-10-14-2015.csv")
      == Some(Descriptor("UrFU_PYTHON_2025_fall", GradeReport, Some(DateTime(2025, 10, 14, 20, 15))))
  {
    var c := "UrFU_PYTHON_2025_fall";
    var dt := DateTime(2025, 10, 14, 20, 15);
    ExampleCourse();
    ExampleStampText();
    assert Token(GradeReport) == "_grade_report_";
    ExampleGradeName(c, Token(GradeReport), FormatStamp(dt));
    ParseReportName(c, GradeReport, dt, "");
  }

  lemma ExampleProfileInfo()
    ensures ParseFilename("UrFU_PYTHON_2025_fall_student_profile_info_2025-10-14-2015.csv")
      == Some(Descriptor("UrFU_PYTHON_2025_fall", StudentProfileInfo, Some(DateTime(2025, 10, 14, 20, 15))))
  {
    var c := "UrFU_PYTHON_2025_fall";
    var dt := DateTime(2025, 10, 14, 20, 15);
    ExampleCourse();
    ExampleStampText();
    assert Token(StudentProfileInfo) == "_student_profile_info_";
    ExampleProfileName(c, Token(StudentProfileInfo), FormatStamp(dt));
    ParseReportName(c, StudentProfileInfo, dt, "");
  }

  lemma ExampleCourse()
    ensures '\n' !in "UrFU_PYTHON_2025_fall" && NoKindAfterUnderscore("UrFU_PYTHON_2025_fall")
  {
  }

  lemma ExampleStampText()
    ensures ValidDate(DateTime(2025, 10, 14, 20, 15))
    ensures FormatStamp(DateTime(2025, 10, 14, 20, 15)) == "2025-10-14-2015"
  {
  }

  /** The two names spelled out, piece by piece. */
  lemma ExampleGradeName(c: string, t: string, f: string)
    requires c == "UrFU_PYTHON_2025_fall" && t == "_grade_report_" && f == "2025-10-14-2015"
    ensures c + t + f + ".csv" + "" == "UrFU_PYTHON_2025_fall_grade_report_2025-10-14-2015.csv"
  {
  }

  lemma ExampleProfileName(c: string, t: string, f: string)
    requires c == "UrFU_PYTHON_2025_fall" && t == "_student_profile_info_" && f == "2025-10-14-2015"
    ensures c + t + f + ".csv" + "" == "UrFU_PYTHON_2025_fall_student_profile_info_2025-10-14-2015.csv"
  {
    assert c + t == "UrFU_PYTHON_2025_fall_student_profile_info_";
    assert c + t + f == "UrFU_PYTHON_2025_fall_student_profile_info_2025-10-14-2015";
    assert c + t + f + ".csv" == "UrFU_PYTHON_2025_fall_student_profile_info_2025-10-14-2015.csv";
  }

  /** A name too short to hold `_<kind>_<stamp>.csv` is not recognised, such
      as `invalid_filename.csv`. */
  lemma ShortNameRejected(name: string)
    requires |name| < 29
    ensures ParseFilename(name) == None
  {
  }

  lemma InvalidExample()
    ensures ParseFilename("invalid_filename.csv") == None
  {
    ShortNameRejected("invalid_filename.csv");
  }

  /** `os.path.join(root, name)` for POSIX paths. */
  function Join(root: string, name: string): (path: string)
    ensures name != [] && name[0] != '/' ==> |path| >= |root| + |name| && path[|path| - |name|..] == name
  {
    if name != [] && name[0] == '/' then name
    else if root == [] || root[|root| - 1] == '/' then root + name
    else root + "/" + name
  }

  /** A row of the reports table: a descriptor and the file's path. */
  datatype ReportRow = ReportRow(course: string, kind: ReportKind, date: Option<DateTime>, path: string)

  /** One directory of the walk: its path and the names of its files. */
  datatype Directory = Directory(root: string, files: seq<string>)

  /** The scan is stated for any reader of names; the program's is
      `ParseFilename`. */
  type NameReader = string -> Option<Descriptor>

  /** The row a file gives, if its name is recognised. */
  function RowFor(parse: NameReader, root: string, name: string): (row: Option<ReportRow>)
    ensures row.Some? <==> parse(name).Some?
  {
    match parse(name)
    case None => None
    case Some(d) => Some(ReportRow(d.course, d.kind, d.date, Join(root, name)))
  }

  /** The rows for the files of one directory, in order. */
  function DirectoryRows(parse: NameReader, root: string, files: seq<string>): seq<ReportRow>
    decreases |files|
  {
    if files == [] then []
    else
      var rest := DirectoryRows(parse, root, files[..|files| - 1]);
      match RowFor(parse, root, files[|files| - 1])
      case None => rest
      case Some(row) => rest + [row]
  }

  /** The rows for the whole walk, directory after directory. */
  function ScannedRows(parse: NameReader, walk: seq<Directory>): seq<ReportRow>
    decreases |walk|
  {
    if walk == [] then []
    else ScannedRows(parse, walk[..|walk| - 1]) + DirectoryRows(parse, walk[|walk| - 1].root, walk[|walk| - 1].files)
  }

  function FileCount(walk: seq<Directory>): nat
    decreases |walk|
  {
    if walk == [] then 0 else FileCount(walk[..|walk| - 1]) + |walk[|walk| - 1].files|
  }

  /** The inner loop of `scan_grade_reports`: one directory's files. */
  method ScanDirectory(root: string, files: seq<string>) returns (rows: seq<ReportRow>)
    ensures rows == DirectoryRows(ParseFilename, root, files)
  {
    rows := [];
    for j := 0 to |files|
      invariant rows == DirectoryRows(ParseFilename, root, files[..j])
    {
      var f := files[j];
      assert files[..j + 1][..j] == files[..j];
      var parsed := ParseFilename(f);
      if parsed.Some? {
        rows := rows + [ReportRow(parsed.value.course, parsed.value.kind, parsed.value.date, Join(root, f))];
      }
    }
    assert files[..|files|] == files;
  }

  /** `scan_grade_reports`: the rows in walk order and the number of files
      looked at. An empty result stands for the empty table with the four
      columns. */
  method ScanGradeReports(walk: seq<Directory>) returns (rows: seq<ReportRow>, fileCount: nat)
    ensures rows == ScannedRows(ParseFilename, walk)
    ensures fileCount == FileCount(walk)
  {
    rows, fileCount := [], 0;
    for i := 0 to |walk|
      invariant rows == ScannedRows(ParseFilename, walk[..i])
      invariant fileCount == FileCount(walk[..i])
    {
      assert walk[..i + 1][..i] == walk[..i];
      var found := ScanDirectory(walk[i].root, walk[i].files);
      rows := rows + found;
      fileCount := fileCount + |walk[i].files|;
    }
    assert walk[..|walk|] == walk;
  }

  /** Unrecognised names are skipped, so there are never more rows than files. */
  lemma {:induction false} DirectoryRowsAtMostFiles(parse: NameReader, root: string, files: seq<string>)
    ensures |DirectoryRows(parse, root, files)| <= |files|
    decreases |files|
  {
    if files != [] {
      DirectoryRowsAtMostFiles(parse, root, files[..|files| - 1]);
    }
  }

  lemma {:induction false} RowsAtMostFiles(parse: NameReader, walk: seq<Directory>)
    ensures |ScannedRows(parse, walk)| <= FileCount(walk)
    decreases |walk|
  {
    if walk != [] {
      RowsAtMostFiles(parse, walk[..|walk| - 1]);
      DirectoryRowsAtMostFiles(parse, walk[|walk| - 1].root, walk[|walk| - 1].files);
    }
  }

  lemma DirectoryRowLast(parse: NameReader, root: string, files: seq<string>, row: ReportRow)
    requires files != []
    ensures row in DirectoryRows(parse, root, files) <==>
      row in DirectoryRows(parse, root, files[..|files| - 1]) || RowFor(parse, root, files[|files| - 1]) == Some(row)
  {
  }

  /** The file at position `j` of a directory that gives `row`. */
  predicate FileGives(parse: NameReader, root: string, files: seq<string>, row: ReportRow, j: int) {
    0 <= j < |files| && RowFor(parse, root, files[j]) == Some(row)
  }

  lemma DirectoryRowsComplete(parse: NameReader, root: string, files: seq<string>)
    ensures forall row :: row in DirectoryRows(parse, root, files) <==> exists j :: FileGives(parse, root, files, row, j)
  {
    forall row ensures row in DirectoryRows(parse, root, files) <==> exists j :: FileGives(parse, root, files, row, j) {
      DirectoryRowFound(parse, root, files, row);
    }
  }

  lemma {:induction false} DirectoryRowFound(parse: NameReader, root: string, files: seq<string>, row: ReportRow)
    ensures row in DirectoryRows(parse, root, files) <==> exists j :: FileGives(parse, root, files, row, j)
    decreases |files|
  {
    if files != [] {
      var n := |files| - 1;
      var init := files[..n];
      DirectoryRowFound(parse, root, init, row);
      DirectoryRowLast(parse, root, files, row);
      if row in DirectoryRows(parse, root, init) {
        var j :| FileGives(parse, root, init, row, j);
        assert files[j] == init[j];
        assert FileGives(parse, root, files, row, j);
      } else if RowFor(parse, root, files[n]) == Some(row) {
        assert FileGives(parse, root, files, row, n);
      }
      if exists j :: FileGives(parse, root, files, row, j) {
        var j :| FileGives(parse, root, files, row, j);
        if j < n {
          assert init[j] == files[j];
          assert FileGives(parse, root, init, row, j);
        }
      }
    }
  }

  lemma ScannedRowsLast(parse: NameReader, walk: seq<Directory>)
    requires walk != []
    ensures forall row :: row in ScannedRows(parse, walk) <==>
      row in ScannedRows(parse, walk[..|walk| - 1]) || row in DirectoryRows(parse, walk[|walk| - 1].root, walk[|walk| - 1].files)
  {
  }

  /** A file of the walk, by directory and position, that gives `row`. */
  predicate FoundIn(parse: NameReader, walk: seq<Directory>, row: ReportRow, i: int, j: int) {
    0 <= i < |walk| && 0 <= j < |walk[i].files| && RowFor(parse, walk[i].root, walk[i].files[j]) == Some(row)
  }

  /** Every row comes from a recognised file of the walk, and every recognised
      file gives its row, with the path joined from its directory. */
  lemma {:induction false} ScannedRowsComplete(parse: NameReader, walk: seq<Directory>)
    ensures forall row :: row in ScannedRows(parse, walk) <==> exists i, j :: FoundIn(parse, walk, row, i, j)
    decreases |walk|
  {
    if walk != [] {
      var n := |walk| - 1;
      var init := walk[..n];
      var last := walk[n];
      ScannedRowsComplete(parse, init);
      DirectoryRowsComplete(parse, last.root, last.files);
      ScannedRowsLast(parse, walk);
      forall row ensures row in ScannedRows(parse, walk) <==> exists i, j :: FoundIn(parse, walk, row, i, j)
      {
        if row in ScannedRows(parse, init) {
          var i, j :| FoundIn(parse, init, row, i, j);
          assert walk[i] == init[i];
          assert FoundIn(parse, walk, row, i, j);
        } else if row in DirectoryRows(parse, last.root, last.files) {
          var j :| FileGives(parse, last.root, last.files, row, j);
          assert FoundIn(parse, walk, row, n, j);
        }
        if exists i, j :: FoundIn(parse, walk, row, i, j) {
          var i, j :| FoundIn(parse, walk, row, i, j);
          if i < n {
            assert init[i] == walk[i];
            assert FoundIn(parse, init, row, i, j);
          } else {
            assert FileGives(parse, last.root, last.files, row, j);
            assert row in DirectoryRows(parse, last.root, last.files);
          }
        }
      }
    }
  }

  /** The table is empty exactly when no file name of the walk is recognised. */
  lemma EmptyScan(parse: NameReader, walk: seq<Directory>)
    ensures ScannedRows(parse, walk) == [] <==>
      forall i, j :: 0 <= i < |walk| && 0 <= j < |walk[i].files| ==> parse(walk[i].files[j]).None?
  {
    ScannedRowsComplete(parse, walk);
    if ScannedRows(parse, walk) != [] {
      var row := ScannedRows(parse, walk)[0];
      assert row in ScannedRows(parse, walk);
      var i, j :| FoundIn(parse, walk, row, i, j);
      assert parse(walk[i].files[j]).Some?;
    }
    if exists i, j :: 0 <= i < |walk| && 0 <= j < |walk[i].files| && parse(walk[i].files[j]).Some? {
      var i, j :| 0 <= i < |walk| && 0 <= j < |walk[i].files| && parse(walk[i].files[j]).Some?;
      var row := RowFor(parse, walk[i].root, walk[i].files[j]).value;
      assert FoundIn(parse, walk, row, i, j);
      assert row in ScannedRows(parse, walk);
    }
  }

  /** A directory of one recognised and one unrecognised file gives one row. */
  lemma OneOfTwo(parse: NameReader, root: string, a: string, b: string)
    requires parse(a).Some? && parse(b).None?
    ensures ScannedRows(parse, [Directory(root, [a, b])]) == [RowFor(parse, root, a).value]
  {
    var files := [a, b];
    assert files[..1] == [a] && [a][..0] == [];
    assert DirectoryRows(parse, root, [a]) == [RowFor(parse, root, a).value];
    assert DirectoryRows(parse, root, files) == [RowFor(parse, root, a).value];
    var walk := [Directory(root, files)];
    assert walk[..0] == [];
  }

  lemma ExampleGradeRow(root: string, name: string)
    requires name == "UrFU_PYTHON_2025_fall_grade_report_2025-10-14-2015.csv"
    ensures RowFor(ParseFilename, root, name)
      == Some(ReportRow("UrFU_PYTHON_2025_fall", GradeReport, Some(DateTime(2025, 10, 14, 20, 15)), Join(root, name)))
  {
    ExampleGradeReport();
  }

  /** The scan test: one directory holding a grade report and a text file
      gives one row, for the grade report of the course. */
  lemma ScanExample(root: string, name: string, other: string)
    requires root == "/test/path" && other == "invalid_file.txt"
    requires name == "UrFU_PYTHON_2025_fall_grade_report_2025-10-14-2015.csv"
    ensures ScannedRows(ParseFilename, [Directory(root, [name, other])])
      == [ReportRow("UrFU_PYTHON_2025_fall", GradeReport, Some(DateTime(2025, 10, 14, 20, 15)), Join(root, name))]
  {
    ExampleGradeReport();
    ExampleGradeRow(root, name);
    ShortNameRejected(other);
    OneOfTwo(ParseFilename, root, name, other);
  }
}
