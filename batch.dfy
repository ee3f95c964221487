/** The report trigger's driver (main.py, main): sign in, probe the account's
    rights, list the courses and ask for a grade report for each, counting
    successes and failures, and turn the counts into an exit code. */
module Batch {
  import opened Common
  import opened Http
  import opened Login
  import opened Profile
  import opened Catalog
  import opened Trigger
  import opened Retry

  const Attempts: int := 2
  const FirstDelay: int := 5
  /** Seconds between a successful course and the next one. */
  const CoursePause: int := 2

  datatype CourseOutcome =
    | Skipped                              // no truthy `id`: neither counted nor requested
    | Succeeded(report: Option<Json>)
    | Failed(error: TriggerError)

  /** One course of the loop: its outcome, the retry pauses, and whether the
      pause before the next course followed. */
  datatype Handled = Handled(outcome: CourseOutcome, sleeps: seq<int>, paused: bool)

  /** The loop so far; `aborted` when a course that is not an object made
      `.get` raise, which ends the whole run. */
  datatype Progress = Progress(w: Wire, handled: seq<Handled>, aborted: bool)

  function CourseId(course: Json): Json
    requires course.JObj?
  {
    GetOr(course.fields, "id", JNull)
  }

  function Outcome(o: Outcome<Json, TriggerError>): CourseOutcome {
    if o.Raised? then Failed(o.error) else Succeeded(o.value)
  }

  /** One iteration for `course`; `last` when it is the final course. */
  function HandleCourse(w: Wire, cfg: Config, course: Json, last: bool): (res: (Wire, Option<Handled>))
    ensures res.1.None? <==> !course.JObj?
  {
    if !course.JObj? then (w, None)
    else if !Truthy(CourseId(course)) then (w, Some(Handled(Skipped, [], false)))
    else
      var rt := RetryFrom(w, Generate(cfg, CourseId(course)), 0, Attempts, FirstDelay);
      var outcome := Outcome(rt.outcome);
      (rt.w, Some(Handled(outcome, rt.sleeps, outcome.Succeeded? && !last)))
  }

  /** The loop from course `i` on. */
  function BatchFrom(w: Wire, cfg: Config, courses: seq<Json>, i: nat): (p: Progress)
    requires i <= |courses|
    decreases |courses| - i
  {
    if i == |courses| then Progress(w, [], false)
    else
      var (w1, h) := HandleCourse(w, cfg, courses[i], i + 1 == |courses|);
      if h.None? then Progress(w1, [], true)
      else
        var rest := BatchFrom(w1, cfg, courses, i + 1);
        Progress(rest.w, [h.value] + rest.handled, rest.aborted)
  }

  function Successes(hs: seq<Handled>): (n: nat)
    ensures n <= |hs|
  {
    if hs == [] then 0 else (if hs[0].outcome.Succeeded? then 1 else 0) + Successes(hs[1..])
  }

  function Failures(hs: seq<Handled>): (n: nat)
    ensures n + Successes(hs) <= |hs|
  {
    if hs == [] then 0 else (if hs[0].outcome.Failed? then 1 else 0) + Failures(hs[1..])
  }

  datatype RunSummary = RunSummary(exitCode: int, signedIn: bool, courses: seq<Json>, handled: seq<Handled>, aborted: bool)

  /** `main()` against a server answering with `script`. */
  function BatchFlow(cfg: Config, script: seq<Reply>): (res: (Wire, RunSummary))
  {
    var (w1, login) := LoginFlow(cfg, script);
    if login.Failure? then (w1, RunSummary(1, false, [], [], false))
    else
      var w2 := UserInfoFlow(w1, cfg).0;
      var (w3, courses) := CatalogFlow(w2, cfg);
      if courses == [] then (w3, RunSummary(1, true, courses, [], false))
      else
        var p := BatchFrom(w3, cfg, courses, 0);
        var code := if p.aborted || Failures(p.handled) == |courses| then 1 else 0;
        (p.w, RunSummary(code, true, courses, p.handled, p.aborted))
  }

  /** The courses handled so far plus what `BatchFrom` does from course `i` on make up `goal`. */
  ghost predicate LoopOnTrack(goal: Progress, w: Wire, cfg: Config, courses: seq<Json>, i: nat, handled: seq<Handled>)
    requires i <= |courses|
  {
    var rest := BatchFrom(w, cfg, courses, i);
    goal == Progress(rest.w, handled + rest.handled, rest.aborted)
  }

  /** One course, seen from the loop: a non-object ends the run aborted, anything
      else is appended and the loop stays on track. */
  lemma CourseStep(goal: Progress, w: Wire, cfg: Config, courses: seq<Json>, i: nat, handled: seq<Handled>,
                   w1: Wire, h: Option<Handled>)
    requires i < |courses| && LoopOnTrack(goal, w, cfg, courses, i, handled)
    requires HandleCourse(w, cfg, courses[i], i + 1 == |courses|) == (w1, h)
    ensures h.None? ==> goal == Progress(w1, handled, true)
    ensures h.Some? ==> LoopOnTrack(goal, w1, cfg, courses, i + 1, handled + [h.value])
  {
    if h.Some? {
      var rest := BatchFrom(w1, cfg, courses, i + 1);
      assert handled + ([h.value] + rest.handled) == (handled + [h.value]) + rest.handled;
    }
  }

  lemma SkippedCourse(w: Wire, cfg: Config, course: Json, last: bool)
    requires course.JObj? && !Truthy(CourseId(course))
    ensures HandleCourse(w, cfg, course, last) == (w, Some(Handled(Skipped, [], false)))
  {
  }

  /** A course with an id is the retried report request, its outcome and pauses. */
  lemma RetriedCourse(w: Wire, cfg: Config, course: Json, last: bool,
                      w1: Wire, outcome: Outcome<Json, TriggerError>, attempts: nat, sleeps: seq<int>)
    requires course.JObj? && Truthy(CourseId(course))
    requires Retried(w1, outcome, attempts, sleeps) == RetryFrom(w, Generate(cfg, CourseId(course)), 0, Attempts, FirstDelay)
    ensures HandleCourse(w, cfg, course, last) ==
      (w1, Some(Handled(Outcome(outcome), sleeps, Outcome(outcome).Succeeded? && !last)))
  {
  }

  /** The body of the course loop for one course: `None` when `course.get`
      would raise because the entry is not an object. */
  method HandleOne(s: Session, cfg: Config, course: Json, last: bool) returns (h: Option<Handled>)
    modifies s
    ensures (s.State(), h) == HandleCourse(old(s.State()), cfg, course, last)
  {
    if !course.JObj? {
      return None;
    }
    var id := GetOr(course.fields, "id", JNull);
    if !Truthy(id) {
      SkippedCourse(s.State(), cfg, course, last);
      return Some(Handled(Skipped, [], false));
    }
    ghost var w := s.State();
    var outcome, attempts, sleeps := RetryOperation(s, cfg, id, Attempts, FirstDelay);
    RetriedCourse(w, cfg, course, last, s.State(), outcome, attempts, sleeps);
    if outcome.Raised? {
      h := Some(Handled(Failed(outcome.error), sleeps, false));
    } else {
      h := Some(Handled(Succeeded(outcome.value), sleeps, !last));
    }
  }

  method HandleCourses(s: Session, cfg: Config, courses: seq<Json>)
    returns (handled: seq<Handled>, aborted: bool, successCount: nat, failureCount: nat)
    modifies s
    ensures BatchFrom(old(s.State()), cfg, courses, 0) == Progress(s.State(), handled, aborted)
    ensures successCount == Successes(handled) && failureCount == Failures(handled)
  {
    ghost var goal := BatchFrom(s.State(), cfg, courses, 0);
    handled, aborted := [], false;
    successCount, failureCount := 0, 0;
    var i := 0;
    while i < |courses|
      invariant i <= |courses|
      invariant LoopOnTrack(goal, s.State(), cfg, courses, i, handled)
      invariant successCount == Successes(handled) && failureCount == Failures(handled)
      decreases |courses| - i
    {
      ghost var w := s.State();
      var one := HandleOne(s, cfg, courses[i], i + 1 == |courses|);
      CourseStep(goal, w, cfg, courses, i, handled, s.State(), one);
      if one.None? {
        return handled, true, successCount, failureCount;
      }
      var h := one.value;
      if h.outcome.Failed? {
        failureCount := failureCount + 1;
      } else if h.outcome.Succeeded? {
        successCount := successCount + 1;
      }
      CountsAppend(handled, h);
      handled := handled + [h];
      i := i + 1;
    }
  }

  lemma {:induction false} CountsAppend(hs: seq<Handled>, h: Handled)
    ensures Successes(hs + [h]) == Successes(hs) + (if h.outcome.Succeeded? then 1 else 0)
    ensures Failures(hs + [h]) == Failures(hs) + (if h.outcome.Failed? then 1 else 0)
    decreases |hs|
  {
    if hs != [] {
      assert (hs + [h])[1..] == hs[1..] + [h];
      CountsAppend(hs[1..], h);
    } else {
      assert [h][1..] == [];
    }
  }

  /** A course object is skipped exactly when its `id` is falsy, and the pause
      follows exactly a success that is not the last course. */
  lemma HandleShape(w: Wire, cfg: Config, course: Json, last: bool)
    requires course.JObj?
    ensures var h := HandleCourse(w, cfg, course, last).1.value;
      && (h.outcome.Skipped? <==> !Truthy(CourseId(course)))
      && (h.paused <==> h.outcome.Succeeded? && !last)
  {
  }

  /** `main()`: the exit code and what happened to each course. */
  method RunBatch(cfg: Config, script: seq<Reply>) returns (summary: RunSummary, successCount: nat, failureCount: nat)
    ensures summary == BatchFlow(cfg, script).1
    ensures successCount == Successes(summary.handled) && failureCount == Failures(summary.handled)
  {
    var s, login := CreateSessionWithLogin(cfg, script);
    if login.Failure? {
      return RunSummary(1, false, [], [], false), 0, 0;
    }
    var info := GetUserInfo(s, cfg);
    var courses := GetAllCourses(s, cfg);
    if |courses| == 0 {
      return RunSummary(1, true, courses, [], false), 0, 0;
    }
    var handled, aborted;
    handled, aborted, successCount, failureCount := HandleCourses(s, cfg, courses);
    var code := if aborted || failureCount == |courses| then 1 else 0;
    summary := RunSummary(code, true, courses, handled, aborted);
  }

  /** The loop handles every course unless one that is not an object aborts
      it. */
  lemma {:induction false} LoopLength(w: Wire, cfg: Config, courses: seq<Json>, i: nat)
    requires i <= |courses|
    ensures var p := BatchFrom(w, cfg, courses, i);
      && |p.handled| <= |courses| - i
      && (!p.aborted ==> |p.handled| == |courses| - i)
      && (p.aborted ==> i + |p.handled| < |courses| && !courses[i + |p.handled|].JObj?)
    decreases |courses| - i
  {
    if i < |courses| {
      var (w1, h) := HandleCourse(w, cfg, courses[i], i + 1 == |courses|);
      if h.Some? {
        LoopLength(w1, cfg, courses, i + 1);
      }
    }
  }

  /** The entries `hs` describe the courses from index `i` on: each is an
      object, skipped exactly when its `id` is falsy, and paused after
      exactly when it succeeded and is not the last course. */
  predicate EntriesMatch(hs: seq<Handled>, courses: seq<Json>, i: nat) {
    forall k :: 0 <= k < |hs| ==> EntryMatches(hs[k], courses, i + k)
  }

  /** Entry `h` describes course `j`. */
  predicate EntryMatches(h: Handled, courses: seq<Json>, j: nat) {
    && j < |courses| && courses[j].JObj?
    && (h.outcome.Skipped? <==> !Truthy(CourseId(courses[j])))
    && (h.paused <==> h.outcome.Succeeded? && j + 1 < |courses|)
  }

  /** The n-th entry of the loop is about the n-th course. */
  lemma {:induction false} LoopEntries(w: Wire, cfg: Config, courses: seq<Json>, i: nat)
    requires i <= |courses|
    ensures EntriesMatch(BatchFrom(w, cfg, courses, i).handled, courses, i)
    decreases |courses| - i
  {
    if i < |courses| {
      BatchStep(w, cfg, courses, i);
      var (w1, h) := HandleCourse(w, cfg, courses[i], i + 1 == |courses|);
      if h.Some? {
        HandleShape(w, cfg, courses[i], i + 1 == |courses|);
        LoopEntries(w1, cfg, courses, i + 1);
        var rest := BatchFrom(w1, cfg, courses, i + 1).handled;
        var hs := BatchFrom(w, cfg, courses, i).handled;
        assert hs == [h.value] + rest;
        forall k | 0 <= k < |hs|
          ensures EntryMatches(hs[k], courses, i + k)
        {
          if k > 0 {
            assert hs[k] == rest[k - 1];
            assert (i + 1) + (k - 1) == i + k;
          }
        }
        assert EntriesMatch(hs, courses, i);
      }
    }
  }

  /** `BatchFrom` unfolded once. */
  lemma BatchStep(w: Wire, cfg: Config, courses: seq<Json>, i: nat)
    requires i < |courses|
    ensures var (w1, h) := HandleCourse(w, cfg, courses[i], i + 1 == |courses|);
      BatchFrom(w, cfg, courses, i) ==
        if h.None? then Progress(w1, [], true)
        else
          var rest := BatchFrom(w1, cfg, courses, i + 1);
          Progress(rest.w, [h.value] + rest.handled, rest.aborted)
  {
  }

  /** The exit code is 1 exactly when the sign-in failed, no course was listed,
      a course was not an object, or every listed course failed; skipped
      courses are not failures, so the counters never exceed the list. */
  lemma ExitCodeRule(cfg: Config, script: seq<Reply>)
    ensures var sum := BatchFlow(cfg, script).1;
      && (sum.exitCode == 1 <==>
            !sum.signedIn || sum.courses == [] || sum.aborted || Failures(sum.handled) == |sum.courses|)
      && (sum.exitCode == 0 || sum.exitCode == 1)
      && Successes(sum.handled) + Failures(sum.handled) <= |sum.courses|
  {
    var sum := BatchFlow(cfg, script).1;
    if sum.signedIn && sum.courses != [] {
      var (w1, login) := LoginFlow(cfg, script);
      var w2 := UserInfoFlow(w1, cfg).0;
      var w3 := CatalogFlow(w2, cfg).0;
      LoopLength(w3, cfg, sum.courses, 0);
    }
  }

  /** A list of objects none of which has an `id` is all skipped: nothing
      fails, so the run ends with 0 although no report was requested. */
  lemma {:induction false} AllSkippedExitsZero(w: Wire, cfg: Config, courses: seq<Json>, i: nat)
    requires i <= |courses|
    requires forall k :: i <= k < |courses| ==> courses[k].JObj? && !Truthy(CourseId(courses[k]))
    ensures var p := BatchFrom(w, cfg, courses, i);
      && !p.aborted && p.w == w && |p.handled| == |courses| - i
      && Failures(p.handled) == 0 && Successes(p.handled) == 0
    decreases |courses| - i
  {
    if i < |courses| {
      AllSkippedExitsZero(w, cfg, courses, i + 1);
      var rest := BatchFrom(w, cfg, courses, i + 1);
      assert BatchFrom(w, cfg, courses, i).handled == [Handled(Skipped, [], false)] + rest.handled;
    }
  }

  /** Each requested course is tried once or twice; a failed one waited 5
      seconds between its two attempts. */
  lemma CourseAttempts(w: Wire, cfg: Config, course: Json, last: bool)
    requires course.JObj? && Truthy(CourseId(course))
    ensures var h := HandleCourse(w, cfg, course, last).1.value;
      && !h.outcome.Skipped?
      && (h.outcome.Failed? ==> h.sleeps == [FirstDelay])
      && (h.outcome.Succeeded? ==> h.outcome.report.Some?)
  {
    TwoAttempts(w, Generate(cfg, CourseId(course)));
  }
}
