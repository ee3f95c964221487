/** Course identifiers of the platform (`course-v1:<org>+<code>+<run>`) and the
    two names derived from them: the short ID used in report file names and the
    run tag (course_reports.py, extract_course_short_id and extract_course_run). */
module CourseIdentity {
  import opened Common
  import opened Text

  const CoursePrefix: string := "course-v1:"

  /** The extent of a lazy regex group `(.*?)` followed by `\+`: the index of the
      first `+`, when no line break comes before it (Python's `.` does not match
      `\n`). */
  function LazyToPlus(s: string): (r: Option<nat>)
    ensures r.Some? ==> r.value < |s| && s[r.value] == '+'
    ensures r.Some? ==> forall k :: 0 <= k < r.value ==> s[k] != '+' && s[k] != '\n'
    ensures r.None? ==> forall i :: 0 <= i < |s| && s[i] == '+' ==> '\n' in s[..i]
    decreases |s|
  {
    if s == [] then None
    else if s[0] == '+' then Some(0)
    else if s[0] == '\n' then None
    else
      match LazyToPlus(s[1..])
      case None =>
        assert forall i :: 1 <= i < |s| ==> s[1..][..i - 1] == s[1..i];
        None
      case Some(i) => Some(i + 1)
  }

  /** Length of the first line of `s`: the extent of a greedy `(.*)`. */
  function LineLength(s: string): (n: nat)
    ensures n <= |s| && '\n' !in s[..n]
    ensures n < |s| ==> s[n] == '\n'
    ensures '\n' !in s ==> n == |s|
    decreases |s|
  {
    if s == [] || s[0] == '\n' then 0
    else
      var n := LineLength(s[1..]);
      assert s[..n + 1] == [s[0]] + s[1..][..n];
      n + 1
  }

  predicate NoPlusOrNewline(s: string) {
    forall k :: 0 <= k < |s| ==> s[k] != '+' && s[k] != '\n'
  }

  /** The remainder after the prefix holds two `+` on its first line. */
  predicate TwoPlusesOnFirstLine(rest: string) {
    exists i, j :: 0 <= i < j < |rest| && rest[i] == '+' && rest[j] == '+' && '\n' !in rest[..j]
  }

  /** The groups `(.*?)\+(.*?)\+(.*)` matched at the start of `rest`, the text after
      the `course-v1:` prefix. */
  function MatchGroups(rest: string): (m: Option<(string, string, string)>)
    ensures m.Some? ==>
      var (a, b, c) := m.value;
      var n := |a| + 1 + |b| + 1 + |c|;
      && NoPlusOrNewline(a) && NoPlusOrNewline(b) && '\n' !in c
      && n <= |rest| && rest[..n] == a + "+" + b + "+" + c
      && (n < |rest| ==> rest[n] == '\n')
    ensures m.None? <==> !TwoPlusesOnFirstLine(rest)
  {
    match LazyToPlus(rest)
    case None =>
      NoFirstPlus(rest);
      None
    case Some(i) =>
      var tail := rest[i + 1..];
      match LazyToPlus(tail)
      case None =>
        NoSecondPlus(rest, i);
        None
      case Some(j) =>
        var third := tail[j + 1..];
        var c := third[..LineLength(third)];
        GroupsFound(rest, i, j);
        Some((rest[..i], tail[..j], c))
  }

  lemma NoFirstPlus(rest: string)
    requires LazyToPlus(rest).None?
    ensures !TwoPlusesOnFirstLine(rest)
  {
    forall i, j | 0 <= i < j < |rest| && rest[i] == '+' && rest[j] == '+'
      ensures '\n' in rest[..j]
    {
      assert rest[..i] <= rest[..j];
    }
  }

  lemma NoSecondPlus(rest: string, i: nat)
    requires LazyToPlus(rest) == Some(i)
    requires LazyToPlus(rest[i + 1..]).None?
    ensures !TwoPlusesOnFirstLine(rest)
  {
    var tail := rest[i + 1..];
    forall i', j | 0 <= i' < j < |rest| && rest[i'] == '+' && rest[j] == '+'
      ensures '\n' in rest[..j]
    {
      assert i <= i';
      assert tail[j - i - 1] == '+';
      assert '\n' in tail[..j - i - 1];
      var k :| 0 <= k < j - i - 1 && tail[..j - i - 1][k] == '\n';
      assert rest[..j][i + 1 + k] == '\n';
    }
  }

  lemma GroupsFound(rest: string, i: nat, j: nat)
    requires LazyToPlus(rest) == Some(i)
    requires LazyToPlus(rest[i + 1..]) == Some(j)
    ensures var tail := rest[i + 1..]; var third := tail[j + 1..];
      var c := third[..LineLength(third)];
      && i + 1 + j + 1 + |c| <= |rest|
      && rest[..i + 1 + j + 1 + |c|] == rest[..i] + "+" + tail[..j] + "+" + c
      && (i + 1 + j + 1 + |c| < |rest| ==> rest[i + 1 + j + 1 + |c|] == '\n')
      && TwoPlusesOnFirstLine(rest)
  {
    var tail := rest[i + 1..];
    var third := tail[j + 1..];
    assert third == rest[i + 1 + j + 1..];
    Decompose(rest, i, j, LineLength(third));
    SecondPlusOnFirstLine(rest, i, j);
  }

  lemma SecondPlusOnFirstLine(rest: string, i: nat, j: nat)
    requires LazyToPlus(rest) == Some(i)
    requires LazyToPlus(rest[i + 1..]) == Some(j)
    ensures TwoPlusesOnFirstLine(rest)
  {
    var tail := rest[i + 1..];
    var second := i + 1 + j;
    assert rest[second] == tail[j] == '+';
    forall k | 0 <= k < second ensures rest[..second][k] != '\n' {
      if k > i {
        assert rest[k] == tail[k - i - 1];
      }
    }
    assert '\n' !in rest[..second];
    assert 0 <= i < second < |rest| && rest[i] == '+';
  }

  /** Cutting a string at two separators and a length. */
  lemma Decompose(rest: string, i: nat, j: nat, n: nat)
    requires i < |rest| && rest[i] == '+'
    requires j < |rest| - i - 1 && rest[i + 1 + j] == '+'
    requires n <= |rest| - i - 1 - j - 1
    ensures rest[..i + 1 + j + 1 + n] ==
      rest[..i] + "+" + rest[i + 1..][..j] + "+" + rest[i + 1..][j + 1..][..n]
  {
    var lhs := rest[..i + 1 + j + 1 + n];
    var rhs := rest[..i] + "+" + rest[i + 1..][..j] + "+" + rest[i + 1..][j + 1..][..n];
    assert |lhs| == |rhs|;
    forall k | 0 <= k < |lhs| ensures lhs[k] == rhs[k] {
      if k < i {
      } else if k == i {
      } else if k < i + 1 + j {
        assert rhs[k] == rest[i + 1..][..j][k - i - 1];
      } else if k == i + 1 + j {
      } else {
        assert rhs[k] == rest[i + 1..][j + 1..][..n][k - i - 1 - j - 1];
      }
    }
  }

  /** The three groups of `re.match(r"course-v1:(.*?)\+(.*?)\+(.*)", id)`. */
  function MatchCourseKey(id: string): (m: Option<(string, string, string)>)
    ensures m.Some? ==> IsPrefix(CoursePrefix, id) && m == MatchGroups(id[|CoursePrefix|..])
    ensures m.None? <==>
      !IsPrefix(CoursePrefix, id) || !TwoPlusesOnFirstLine(id[|CoursePrefix|..])
  {
    if !IsPrefix(CoursePrefix, id) then None
    else MatchGroups(id[|CoursePrefix|..])
  }

  /** `extract_course_short_id`: `course-v1:A+B+C` becomes `A_B_C`; an identifier
      the pattern does not match is returned unchanged. */
  function ExtractCourseShortId(id: string): (r: string)
    ensures MatchCourseKey(id).None? ==> r == id
  {
    match MatchCourseKey(id)
    case None => id
    case Some((a, b, c)) => a + "_" + b + "_" + c
  }

  /** The lazy group stops at the first `+` of a line. */
  lemma {:induction false} LazyToPlusAt(a: string, t: string)
    requires NoPlusOrNewline(a)
    ensures LazyToPlus(a + "+" + t) == Some(|a|)
    decreases |a|
  {
    if a != [] {
      assert (a + "+" + t)[1..] == a[1..] + "+" + t;
      LazyToPlusAt(a[1..], t);
    }
  }

  /** For `course-v1:A+B+C` with no `+` in A or B and no line break anywhere,
      the short ID is exactly `A_B_C`; C is kept verbatim even if it holds `+`. */
  lemma ShortIdOfCourseKey(a: string, b: string, c: string)
    requires NoPlusOrNewline(a) && NoPlusOrNewline(b) && '\n' !in c
    ensures ExtractCourseShortId(CoursePrefix + a + "+" + b + "+" + c) == a + "_" + b + "_" + c
  {
    var id := CoursePrefix + a + "+" + b + "+" + c;
    var rest := a + "+" + (b + "+" + c);
    assert IsPrefix(CoursePrefix, id) && id[|CoursePrefix|..] == rest;
    LazyToPlusAt(a, b + "+" + c);
    assert rest[|a| + 1..] == b + "+" + c;
    assert rest[..|a|] == a;
    LazyToPlusAt(b, c);
    assert (b + "+" + c)[|b| + 1..] == c;
    assert (b + "+" + c)[..|b|] == b;
    assert c[..LineLength(c)] == c;
    assert MatchGroups(rest) == Some((a, b, c));
  }

  /** `extract_course_run`: the last element of `id.split("+")`, i.e. the text
      after the last `+`, or the whole identifier when it has none. */
  function ExtractCourseRun(id: string): (r: string)
    ensures '+' !in r
    ensures '+' !in id ==> r == id
    ensures '+' in id ==> |r| < |id| && r == id[|id| - |r|..] && id[|id| - |r| - 1] == '+'
  {
    var parts := SplitOn(id, '+');
    SplitLast(id, '+');
    parts[|parts| - 1]
  }

  /** The last piece of a split is the text after the last separator. */
  lemma {:induction false} SplitLast(s: string, sep: char)
    ensures var parts := SplitOn(s, sep); var last := parts[|parts| - 1];
      sep in s ==> |last| < |s| && last == s[|s| - |last|..] && s[|s| - |last| - 1] == sep
    decreases |s|
  {
    if sep in s {
      var parts := SplitOn(s, sep);
      var rest := SplitOn(s[1..], sep);
      var last := rest[|rest| - 1];
      if sep in s[1..] {
        SplitLast(s[1..], sep);
        assert parts[|parts| - 1] == last;
        assert s[1..][|s| - 1 - |last|..] == s[|s| - |last|..];
      } else {
        assert s == [s[0]] + s[1..];
        assert s[0] == sep;
        assert parts == [[], s[1..]];
      }
    }
  }

  /** Splitting `x + sep + run`, where `run` holds no separator, ends with `run`. */
  lemma {:induction false} SplitEndsWith(x: string, sep: char, run: string)
    requires sep !in run
    ensures var parts := SplitOn(x + [sep] + run, sep);
      |parts| >= 2 && parts[|parts| - 1] == run
    decreases |x|
  {
    var s := x + [sep] + run;
    assert sep in s by { assert s[|x|] == sep; }
    if x == [] {
      assert s[1..] == run;
    } else {
      assert s[1..] == x[1..] + [sep] + run;
      SplitEndsWith(x[1..], sep, run);
    }
  }

  /** The run tag of `X+R`, where R has no `+`, is exactly R. */
  lemma RunAfterLastPlus(x: string, run: string)
    requires '+' !in run
    ensures ExtractCourseRun(x + "+" + run) == run
  {
    SplitEndsWith(x, '+', run);
  }

  /** The examples the repository's tests pin down. */
  lemma ShortIdExample()
    ensures ExtractCourseShortId("course-v1:UrFU+PYTHON+2025_fall") == "UrFU_PYTHON_2025_fall"
  {
    ExampleParts();
    ShortIdOfCourseKey("UrFU", "PYTHON", "2025_fall");
  }

  lemma ExampleParts()
    ensures NoPlusOrNewline("UrFU") && NoPlusOrNewline("PYTHON") && '\n' !in "2025_fall"
    ensures "course-v1:UrFU+PYTHON+2025_fall" == CoursePrefix + "UrFU" + "+" + "PYTHON" + "+" + "2025_fall"
    ensures "UrFU" + "_" + "PYTHON" + "_" + "2025_fall" == "UrFU_PYTHON_2025_fall"
  {
  }

  lemma UnmatchedIdExample()
    ensures ExtractCourseShortId("invalid_course_id") == "invalid_course_id"
  {
    assert "invalid_course_id"[0] != CoursePrefix[0];
  }

  lemma RunExample()
    ensures ExtractCourseRun("course-v1:UrFU+PYTHON+2025_fall") == "2025_fall"
  {
    assert "course-v1:UrFU+PYTHON+2025_fall" == "course-v1:UrFU+PYTHON" + "+" + "2025_fall";
    RunAfterLastPlus("course-v1:UrFU+PYTHON", "2025_fall");
  }
}
