/** The overview table (course_reports.py, process_courses_data): for every
    course and every kind of report, the latest report found on disk, its
    time, its age in whole days and its file. */
module Summary {
  import opened Common
  import opened Timestamps
  import opened CourseIdentity
  import opened ReportFiles

  /** The kinds in the order the table lists them for each course. */
  const Kinds: seq<ReportKind> := [GradeReport, StudentProfileInfo, MayEnrollInfo, AnonymizedIds, OraData]

  function KindIndex(k: ReportKind): (i: nat)
    ensures i < |Kinds| && Kinds[i] == k
  {
    match k
    case GradeReport => 0
    case StudentProfileInfo => 1
    case MayEnrollInfo => 2
    case AnonymizedIds => 3
    case OraData => 4
  }

  /** One line of the table. The course name is whatever the catalogue holds
      under `name`. */
  datatype SummaryRow = SummaryRow(
    courseName: Json, course: string, run: string, kind: ReportKind,
    lastReport: string, days: int, file: string)

  /** Why the table cannot be built: a course record without the fields the
      code reads, or a latest report without a time (the undated row sorts to
      the top only when no row of that kind has a time, and then formatting
      its time raises). */
  datatype CourseError =
    | NotAnObject
    | MissingKey(key: string)
    | IdNotText
    | UndatedLatest(course: string, kind: ReportKind)

  /** Every time in the reports table is a real date, as a `datetime` is. */
  predicate WellDated(reports: seq<ReportRow>) {
    forall i :: 0 <= i < |reports| && reports[i].date.Some? ==> ValidDate(reports[i].date.value)
  }

  function Epoch(r: ReportRow): int
    requires r.date.Some? && ValidDate(r.date.value)
  {
    EpochSeconds(r.date.value)
  }

  /** The reports of one course and kind, in table order. */
  function Matching(reports: seq<ReportRow>, short: string, kind: ReportKind): (sub: seq<ReportRow>)
    ensures |sub| <= |reports|
    ensures forall x :: x in sub <==> x in reports && x.course == short && x.kind == kind
    decreases |reports|
  {
    if reports == [] then []
    else
      var rest := Matching(reports[..|reports| - 1], short, kind);
      var last := reports[|reports| - 1];
      assert reports == reports[..|reports| - 1] + [last];
      if last.course == short && last.kind == kind then rest + [last] else rest
  }

  lemma MatchingWellDated(reports: seq<ReportRow>, short: string, kind: ReportKind)
    requires WellDated(reports)
    ensures WellDated(Matching(reports, short, kind))
  {
    var sub := Matching(reports, short, kind);
    forall i | 0 <= i < |sub| && sub[i].date.Some? ensures ValidDate(sub[i].date.value) {
      assert sub[i] in reports;
    }
  }

  /** The first row of `sort_values("date", ascending=False)`: a row with the
      greatest time, rows without a time sorting last. Among rows with the
      same time this takes the first; the sort does not promise which. */
  function Latest(sub: seq<ReportRow>): (r: Option<ReportRow>)
    requires WellDated(sub)
    ensures r.None? <==> forall i :: 0 <= i < |sub| ==> sub[i].date.None?
    ensures r.Some? ==> r.value in sub && r.value.date.Some? && ValidDate(r.value.date.value)
    ensures r.Some? ==> forall i :: 0 <= i < |sub| && sub[i].date.Some? ==> Epoch(sub[i]) <= Epoch(r.value)
    decreases |sub|
  {
    if sub == [] then None
    else
      assert WellDated(sub[1..]) by {
        forall i | 0 <= i < |sub[1..]| && sub[1..][i].date.Some? ensures ValidDate(sub[1..][i].date.value) {
          assert sub[1..][i] == sub[i + 1];
        }
      }
      var rest := Latest(sub[1..]);
      assert forall i :: 1 <= i < |sub| ==> sub[i] == sub[1..][i - 1];
      if sub[0].date.None? then rest
      else if rest.None? || Epoch(rest.value) <= Epoch(sub[0]) then Some(sub[0])
      else rest
  }

  /** Whichever latest row the sort puts first, its time is the same: only
      the file can differ between rows tied for latest. */
  lemma LatestTimeDetermined(sub: seq<ReportRow>, x: ReportRow)
    requires WellDated(sub) && Latest(sub).Some?
    requires x in sub && x.date.Some? && Epoch(x) >= Epoch(Latest(sub).value)
    ensures x.date == Latest(sub).value.date
  {
    var r := Latest(sub).value;
    var i :| 0 <= i < |sub| && sub[i] == x;
    assert ValidDate(x.date.value);
    if x.date.value != r.date.value {
      EpochInjective(x.date.value, r.date.value);
    }
  }

  /** The fields of a course record the code reads: `id` and `name`. Any
      record that is not an object, lacks one of them, or has an `id` that is
      not a string makes the code raise. */
  function CourseFields(course: Json): (r: Result<(string, Json), CourseError>)
    ensures r.Success? <==> course.JObj? && "id" in course.fields && course.fields["id"].JStr? && "name" in course.fields
    ensures r.Success? ==> r.value == (course.fields["id"].s, course.fields["name"])
  {
    if !course.JObj? then Failure(NotAnObject)
    else if "id" !in course.fields then Failure(MissingKey("id"))
    else if !course.fields["id"].JStr? then Failure(IdNotText)
    else if "name" !in course.fields then Failure(MissingKey("name"))
    else Success((course.fields["id"].s, course.fields["name"]))
  }

  /** Each item's rows, concatenated in order; the first error ends it. */
  function Gather<X>(xs: seq<X>, f: X -> Result<seq<SummaryRow>, CourseError>): Result<seq<SummaryRow>, CourseError>
    decreases |xs|
  {
    if xs == [] then Success([])
    else
      match Gather(xs[..|xs| - 1], f)
      case Failure(e) => Failure(e)
      case Success(rows) =>
        match f(xs[|xs| - 1])
        case Failure(e) => Failure(e)
        case Success(more) => Success(rows + more)
  }

  /** The row for one kind: none when the course has no report of it. */
  function KindRow(name: Json, short: string, run: string, kind: ReportKind, reports: seq<ReportRow>, now: int)
    : (r: Result<seq<SummaryRow>, CourseError>)
    requires WellDated(reports)
    ensures r.Success? ==> |r.value| <= 1
  {
    var sub := Matching(reports, short, kind);
    if sub == [] then Success([])
    else
      MatchingWellDated(reports, short, kind);
      match Latest(sub)
      case None => Failure(UndatedLatest(short, kind))
      case Some(last) =>
        var d := last.date.value;
        Success([SummaryRow(name, short, run, kind, DisplayStamp(d), AgeInDays(now, d), last.path)])
  }

  function KindStep(name: Json, short: string, run: string, reports: seq<ReportRow>, now: int)
    : ReportKind -> Result<seq<SummaryRow>, CourseError>
    requires WellDated(reports)
  {
    k => KindRow(name, short, run, k, reports, now)
  }

  /** The rows for one course record: its kinds in order. */
  function CourseRows(course: Json, reports: seq<ReportRow>, now: int): Result<seq<SummaryRow>, CourseError>
    requires WellDated(reports)
  {
    match CourseFields(course)
    case Failure(e) => Failure(e)
    case Success((id, name)) =>
      Gather(Kinds, KindStep(name, ExtractCourseShortId(id), ExtractCourseRun(id), reports, now))
  }

  function CourseStep(reports: seq<ReportRow>, now: int): Json -> Result<seq<SummaryRow>, CourseError>
    requires WellDated(reports)
  {
    c => CourseRows(c, reports, now)
  }

  /** `process_courses_data(courses, reports)` at time `now` (seconds since
      0001-01-01 00:00 UTC): the rows course after course, or the first
      error. */
  function SummaryOf(courses: seq<Json>, reports: seq<ReportRow>, now: int): Result<seq<SummaryRow>, CourseError>
    requires WellDated(reports)
  {
    Gather(courses, CourseStep(reports, now))
  }

  /** The loops of `process_courses_data`. */
  method ProcessCoursesData(courses: seq<Json>, reports: seq<ReportRow>, now: int)
    returns (result: Result<seq<SummaryRow>, CourseError>)
    requires WellDated(reports)
    ensures result == SummaryOf(courses, reports, now)
  {
    ghost var step := CourseStep(reports, now);
    var data: seq<SummaryRow> := [];
    for i := 0 to |courses|
      invariant Gather(courses[..i], step) == Success(data)
    {
      assert courses[..i + 1][..i] == courses[..i];
      var more := CourseReportRows(courses[i], reports, now);
      assert step(courses[i]) == more;
      if more.Failure? {
        GatherFailsFrom(courses, step, i + 1);
        assert courses[..|courses|] == courses;
        return Failure(more.error);
      }
      data := data + more.value;
    }
    assert courses[..|courses|] == courses;
    return Success(data);
  }

  /** One pass of the outer loop: the record's fields, then the inner loop
      over the five kinds. */
  method CourseReportRows(course: Json, reports: seq<ReportRow>, now: int)
    returns (result: Result<seq<SummaryRow>, CourseError>)
    requires WellDated(reports)
    ensures result == CourseRows(course, reports, now)
  {
    var fields := CourseFields(course);
    if fields.Failure? {
      return Failure(fields.error);
    }
    var (id, name) := fields.value;
    var short := ExtractCourseShortId(id);
    var run := ExtractCourseRun(id);
    ghost var step := KindStep(name, short, run, reports, now);
    var rows: seq<SummaryRow> := [];
    for j := 0 to |Kinds|
      invariant Gather(Kinds[..j], step) == Success(rows)
    {
      assert Kinds[..j + 1][..j] == Kinds[..j];
      var r := KindRow(name, short, run, Kinds[j], reports, now);
      assert step(Kinds[j]) == r;
      if r.Failure? {
        GatherFailsFrom(Kinds, step, j + 1);
        assert Kinds[..|Kinds|] == Kinds;
        return Failure(r.error);
      }
      rows := rows + r.value;
    }
    assert Kinds[..|Kinds|] == Kinds;
    return Success(rows);
  }

  /** Once a prefix fails, the whole list fails with that error. */
  lemma {:induction false} GatherFailsFrom<X>(xs: seq<X>, f: X -> Result<seq<SummaryRow>, CourseError>, i: nat)
    requires i <= |xs| && Gather(xs[..i], f).Failure?
    ensures Gather(xs, f) == Gather(xs[..i], f)
    decreases |xs| - i
  {
    if i < |xs| {
      assert xs[..i + 1][..i] == xs[..i];
      GatherFailsFrom(xs, f, i + 1);
    } else {
      assert xs[..i] == xs;
    }
  }

  /** The list fails exactly when some item fails, and then with the first
      item's error. */
  lemma {:induction false} GatherFails<X>(xs: seq<X>, f: X -> Result<seq<SummaryRow>, CourseError>)
    ensures Gather(xs, f).Success? <==> forall i :: 0 <= i < |xs| ==> f(xs[i]).Success?
    ensures Gather(xs, f).Failure? ==>
      exists i :: 0 <= i < |xs| && f(xs[i]) == Failure(Gather(xs, f).error)
        && forall j :: 0 <= j < i ==> f(xs[j]).Success?
    decreases |xs|
  {
    if xs != [] {
      var n := |xs| - 1;
      var init := xs[..n];
      GatherFails(init, f);
      assert forall j :: 0 <= j < n ==> init[j] == xs[j];
      if Gather(init, f).Failure? {
        var i :| 0 <= i < n && f(init[i]) == Failure(Gather(init, f).error)
          && forall j :: 0 <= j < i ==> f(init[j]).Success?;
        assert f(xs[i]) == Failure(Gather(xs, f).error);
      }
    }
  }

  /** A successful list holds exactly the rows of its items. */
  lemma {:induction false} GatherRows<X>(xs: seq<X>, f: X -> Result<seq<SummaryRow>, CourseError>)
    requires Gather(xs, f).Success?
    ensures forall i :: 0 <= i < |xs| ==> f(xs[i]).Success?
    ensures forall row :: row in Gather(xs, f).value <==>
      exists i :: 0 <= i < |xs| && f(xs[i]).Success? && row in f(xs[i]).value
    decreases |xs|
  {
    if xs != [] {
      var n := |xs| - 1;
      var init := xs[..n];
      GatherRows(init, f);
      assert forall j :: 0 <= j < n ==> init[j] == xs[j];
      var rows := Gather(xs, f).value;
      assert rows == Gather(init, f).value + f(xs[n]).value;
      forall row ensures row in rows <==> exists i :: 0 <= i < |xs| && f(xs[i]).Success? && row in f(xs[i]).value {
        if row in f(xs[n]).value {
          assert 0 <= n < |xs|;
        }
        if exists i :: 0 <= i < |xs| && f(xs[i]).Success? && row in f(xs[i]).value {
          var i :| 0 <= i < |xs| && f(xs[i]).Success? && row in f(xs[i]).value;
          if i < n {
            assert row in Gather(init, f).value;
          }
        }
      }
    }
  }

  /** Items of at most `m` rows give at most `m` rows each. */
  lemma {:induction false} GatherBound<X>(xs: seq<X>, f: X -> Result<seq<SummaryRow>, CourseError>, m: nat)
    requires Gather(xs, f).Success?
    requires forall x :: x in xs && f(x).Success? ==> |f(x).value| <= m
    ensures |Gather(xs, f).value| <= m * |xs|
    decreases |xs|
  {
    if xs != [] {
      var n := |xs| - 1;
      var init := xs[..n];
      assert forall x :: x in init ==> x in xs;
      GatherBound(init, f, m);
      assert xs[n] in xs;
      assert m * n + m == m * |xs|;
    }
  }

  /** A row stands for the latest report of its course and kind: the file is
      one of theirs, no report of theirs is later, and the time shown and the
      age in days are that report's. */
  predicate RowIsLatest(row: SummaryRow, reports: seq<ReportRow>, now: int)
    requires WellDated(reports)
  {
    exists x :: x in reports && x.course == row.course && x.kind == row.kind && x.path == row.file
      && x.date.Some? && ValidDate(x.date.value)
      && row.lastReport == DisplayStamp(x.date.value)
      && row.days == AgeInDays(now, x.date.value)
      && NoneLater(reports, row.course, row.kind, x.date.value)
  }

  /** No report of the course and kind has a later time than `d`. */
  predicate NoneLater(reports: seq<ReportRow>, short: string, kind: ReportKind, d: DateTime)
    requires WellDated(reports) && ValidDate(d)
  {
    forall i :: 0 <= i < |reports| && reports[i].course == short && reports[i].kind == kind && reports[i].date.Some?
      ==> EpochSeconds(reports[i].date.value) <= EpochSeconds(d)
  }

  /** The latest of the matching reports is a matching report with no later one. */
  lemma LatestOfMatching(reports: seq<ReportRow>, short: string, kind: ReportKind)
    requires WellDated(reports)
    ensures WellDated(Matching(reports, short, kind))
    ensures var l := Latest(Matching(reports, short, kind));
      l.Some? ==>
        && l.value in reports && l.value.course == short && l.value.kind == kind
        && l.value.date.Some? && ValidDate(l.value.date.value)
        && NoneLater(reports, short, kind, l.value.date.value)
  {
    var sub := Matching(reports, short, kind);
    MatchingWellDated(reports, short, kind);
    var l := Latest(sub);
    if l.Some? {
      var x := l.value;
      forall i | 0 <= i < |reports| && reports[i].course == short && reports[i].kind == kind && reports[i].date.Some?
        ensures EpochSeconds(reports[i].date.value) <= EpochSeconds(x.date.value)
      {
        assert reports[i] in sub;
        var j :| 0 <= j < |sub| && sub[j] == reports[i];
      }
    }
  }

  /** When one kind gives no row, a failure or one row. */
  lemma KindRowCases(name: Json, short: string, run: string, kind: ReportKind, reports: seq<ReportRow>, now: int)
    requires WellDated(reports)
    ensures var r := KindRow(name, short, run, kind, reports, now);
      && (r == Success([]) <==> Matching(reports, short, kind) == [])
      && (r.Failure? <==> Matching(reports, short, kind) != [] && forall x :: x in Matching(reports, short, kind) ==> x.date.None?)
  {
    var sub := Matching(reports, short, kind);
    MatchingWellDated(reports, short, kind);
    if sub != [] && Latest(sub).None? {
      forall x | x in sub ensures x.date.None? {
        var i :| 0 <= i < |sub| && sub[i] == x;
      }
    }
    if sub != [] && Latest(sub).Some? {
      assert Latest(sub).value in sub;
    }
  }

  /** The row one kind gives is the latest report of that kind. */
  lemma KindRowLatest(name: Json, short: string, run: string, kind: ReportKind, reports: seq<ReportRow>, now: int)
    requires WellDated(reports)
    ensures var r := KindRow(name, short, run, kind, reports, now);
      r.Success? && r.value != [] ==> RowOfCourse(r.value[0], name, short, run, reports, now) && r.value[0].kind == kind
  {
    var sub := Matching(reports, short, kind);
    LatestOfMatching(reports, short, kind);
    if sub != [] && Latest(sub).Some? {
      var x := Latest(sub).value;
      var d := x.date.value;
      var row := SummaryRow(name, short, run, kind, DisplayStamp(d), AgeInDays(now, d), x.path);
      assert KindRow(name, short, run, kind, reports, now) == Success([row]);
      WitnessLatest(row, reports, now, x);
      assert RowOfCourse(row, name, short, run, reports, now);
    }
  }

  lemma WitnessLatest(row: SummaryRow, reports: seq<ReportRow>, now: int, x: ReportRow)
    requires WellDated(reports)
    requires x in reports && x.course == row.course && x.kind == row.kind && x.path == row.file
    requires x.date.Some? && ValidDate(x.date.value)
    requires row.lastReport == DisplayStamp(x.date.value) && row.days == AgeInDays(now, x.date.value)
    requires NoneLater(reports, row.course, row.kind, x.date.value)
    ensures RowIsLatest(row, reports, now)
  {
  }

  lemma KindRowShape(name: Json, short: string, run: string, kind: ReportKind, reports: seq<ReportRow>, now: int)
    requires WellDated(reports)
    ensures var r := KindRow(name, short, run, kind, reports, now);
      && (r == Success([]) <==> Matching(reports, short, kind) == [])
      && (r.Success? ==> forall row :: row in r.value ==> RowOfCourse(row, name, short, run, reports, now) && row.kind == kind)
  {
    KindRowCases(name, short, run, kind, reports, now);
    KindRowLatest(name, short, run, kind, reports, now);
    var r := KindRow(name, short, run, kind, reports, now);
    if r.Success? && r.value != [] {
      assert r.value == [r.value[0]];
    }
  }

  /** A row of the given course that stands for a latest report. */
  predicate RowOfCourse(row: SummaryRow, name: Json, short: string, run: string, reports: seq<ReportRow>, now: int)
    requires WellDated(reports)
  {
    row.courseName == name && row.course == short && row.run == run
    && RowIsLatest(row, reports, now) && Matching(reports, short, row.kind) != []
  }

  /** What one course record gives: its fields are there; at most one row
      per kind, so at most five; every row is the latest report of its kind
      for this course; a row for every kind that has a report. */
  lemma CourseRowsShape(course: Json, reports: seq<ReportRow>, now: int)
    requires WellDated(reports)
    requires CourseRows(course, reports, now).Success?
    ensures CourseFields(course).Success?
    ensures var (id, name) := CourseFields(course).value;
      var short := ExtractCourseShortId(id);
      var rows := CourseRows(course, reports, now).value;
      && |rows| <= 5
      && (forall row :: row in rows ==> RowOfCourse(row, name, short, ExtractCourseRun(id), reports, now))
      && (forall k :: Matching(reports, short, k) != [] ==> exists row :: row in rows && row.kind == k)
  {
    var (id, name) := CourseFields(course).value;
    var short, run := ExtractCourseShortId(id), ExtractCourseRun(id);
    var step := KindStep(name, short, run, reports, now);
    var rows := CourseRows(course, reports, now).value;
    assert rows == Gather(Kinds, step).value;
    GatherRows(Kinds, step);
    GatherBound(Kinds, step, 1);
    forall i | 0 <= i < |Kinds|
      ensures forall row :: row in step(Kinds[i]).value ==> RowOfCourse(row, name, short, run, reports, now) && row.kind == Kinds[i]
    {
      KindRowShape(name, short, run, Kinds[i], reports, now);
    }
    forall k | Matching(reports, short, k) != [] ensures exists row :: row in rows && row.kind == k {
      var i := KindIndex(k);
      KindRowShape(name, short, run, k, reports, now);
      var row := step(Kinds[i]).value[0];
      assert row in rows;
    }
  }

  /** At most five rows per course, and never a row for a kind without a
      report: the empty branch appends nothing. */
  lemma SummaryShape(courses: seq<Json>, reports: seq<ReportRow>, now: int)
    requires WellDated(reports)
    requires SummaryOf(courses, reports, now).Success?
    ensures var rows := SummaryOf(courses, reports, now).value;
      && |rows| <= 5 * |courses|
      && (forall row :: row in rows ==> RowIsLatest(row, reports, now) && Matching(reports, row.course, row.kind) != [])
  {
    var step := CourseStep(reports, now);
    GatherRows(courses, step);
    forall c | c in courses && step(c).Success? ensures |step(c).value| <= 5 {
      CourseRowsShape(c, reports, now);
    }
    GatherBound(courses, step, 5);
    forall row | row in SummaryOf(courses, reports, now).value
      ensures RowIsLatest(row, reports, now) && Matching(reports, row.course, row.kind) != []
    {
      var i :| 0 <= i < |courses| && step(courses[i]).Success? && row in step(courses[i]).value;
      CourseRowsShape(courses[i], reports, now);
    }
  }

  /** Every course record is read, and each of its kinds with a report gets a
      row under the course's short identifier, run and name. */
  lemma SummaryComplete(courses: seq<Json>, reports: seq<ReportRow>, now: int, i: nat, k: ReportKind)
    requires WellDated(reports)
    requires SummaryOf(courses, reports, now).Success?
    requires i < |courses|
    ensures CourseFields(courses[i]).Success?
    ensures var (id, name) := CourseFields(courses[i]).value;
      Matching(reports, ExtractCourseShortId(id), k) != [] ==>
        exists row :: row in SummaryOf(courses, reports, now).value
          && row.course == ExtractCourseShortId(id) && row.kind == k && row.run == ExtractCourseRun(id)
          && row.courseName == name
  {
    var step := CourseStep(reports, now);
    GatherRows(courses, step);
    assert step(courses[i]).Success?;
    CourseRowsShape(courses[i], reports, now);
    var (id, name) := CourseFields(courses[i]).value;
    if Matching(reports, ExtractCourseShortId(id), k) != [] {
      var row :| row in CourseRows(courses[i], reports, now).value && row.kind == k;
      assert row in SummaryOf(courses, reports, now).value;
    }
  }

  /** The table fails exactly when some course record fails, and with the
      error of the first one that does. */
  lemma SummaryFails(courses: seq<Json>, reports: seq<ReportRow>, now: int)
    requires WellDated(reports)
    ensures SummaryOf(courses, reports, now).Failure? <==>
      exists i :: 0 <= i < |courses| && CourseRows(courses[i], reports, now).Failure?
    ensures SummaryOf(courses, reports, now).Failure? ==>
      exists i :: 0 <= i < |courses| && CourseRows(courses[i], reports, now) == Failure(SummaryOf(courses, reports, now).error)
        && forall j :: 0 <= j < i ==> CourseRows(courses[j], reports, now).Success?
  {
    GatherFails(courses, CourseStep(reports, now));
  }
}
