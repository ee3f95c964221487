/** The course list as the dashboard reads it (course_reports.py,
    get_all_courses): the public course API read page after page, with no page
    limit, until a page has no `next`. Unlike the trigger's reader, any error
    is raised to the caller and nothing collected survives it. */
module PublicCatalog {
  import opened Common
  import opened Http
  import opened Catalog

  /** The platform address the dashboard is configured with. */
  const PublicBase: string := "https://courses.openedu.urfu.ru"

  /** Why the reader raised. */
  datatype FetchError =
    | Transport             // connection failure or timeout from `session.get`
    | HttpStatus(code: int) // `raise_for_status` on a 4xx or 5xx answer
    | NotJsonBody           // `r.json()` failed
    | NotAnObject           // the document has no `.get`
    | BadResults            // `results` has no length or cannot be appended

  /** What the loop does with one reply. */
  datatype PageOutcome = Raise(error: FetchError) | Last(courses: seq<Json>) | More(collected: seq<Json>)

  /** The `results` member of a page, `[]` when it is absent. */
  function Results(fields: map<string, Json>): Json {
    GetOr(fields, "results", JArr([]))
  }

  /** One iteration on reply `r` with `acc` collected. The length of `results`
      is taken for a log line before it is appended; it raises for exactly the
      values `list.extend` rejects, so both are one error here. */
  function PublicStep(r: Reply, acc: seq<Json>): (o: PageOutcome)
    ensures o.More? || o.Last? ==> r.Response? && !RaisesForStatus(r.status) && r.body.Parsed? && r.body.doc.JObj?
    ensures o.More? ==> Truthy(GetOr(r.body.doc.fields, "next", JNull))
    ensures o.Last? ==> !Truthy(GetOr(r.body.doc.fields, "next", JNull))
  {
    if r.TransportError? then Raise(Transport)
    else if RaisesForStatus(r.status) then Raise(HttpStatus(r.status))
    else
      match r.body
      case NotJson => Raise(NotJsonBody)
      case Parsed(doc) =>
        if !doc.JObj? then Raise(NotAnObject)
        else
          match Extension(Results(doc.fields))
          case None => Raise(BadResults)
          case Some(items) =>
            if Truthy(GetOr(doc.fields, "next", JNull)) then More(acc + items) else Last(acc + items)
  }

  /** The loop from page `page` on. Each request consumes one scripted reply
      and an exhausted script is a transport failure, so the loop ends. */
  function PublicFrom(w: Wire, base: string, page: int, acc: seq<Json>): (res: (Wire, Result<seq<Json>, FetchError>))
    decreases |w.pending|
  {
    var (w1, r) := Exchange(w, CoursesPage(base, page));
    match PublicStep(r, acc)
    case Raise(e) => (w1, Failure(e))
    case Last(courses) => (w1, Success(courses))
    case More(collected) => PublicFrom(w1, base, page + 1, collected)
  }

  /** `get_all_courses()` on a fresh session answered by `script`: the courses
      or the error it raises, and the requests it sent. */
  method GetAllCourses(script: seq<Reply>) returns (courses: Result<seq<Json>, FetchError>, sent: seq<Request>)
    ensures var res := PublicFrom(Wire(map[], script, []), PublicBase, 1, []);
      courses == res.1 && sent == res.0.sent
  {
    var s := new Session(script);
    var base := PublicBase;
    ghost var goal := PublicFrom(s.State(), base, 1, []);
    var collected: seq<Json> := [];
    var page := 1;
    while true
      invariant PublicFrom(s.State(), base, page, collected) == goal
      decreases |s.pending|
    {
      ghost var w := s.State();
      var r := s.Send(CoursesPage(base, page));
      if r.TransportError? {
        return Failure(Transport), s.sent;
      }
      if RaisesForStatus(r.status) {
        return Failure(HttpStatus(r.status)), s.sent;
      }
      if r.body.NotJson? {
        return Failure(NotJsonBody), s.sent;
      }
      var data := r.body.doc;
      if !data.JObj? {
        return Failure(NotAnObject), s.sent;
      }
      var items := Extension(Results(data.fields));
      if items.None? {
        return Failure(BadResults), s.sent;
      }
      collected := collected + items.value;
      if !Truthy(GetOr(data.fields, "next", JNull)) {
        return Success(collected), s.sent;
      }
      page := page + 1;
    }
  }

  /** A reply the loop reads and appends. */
  predicate Readable(r: Reply) {
    && r.Response? && !RaisesForStatus(r.status) && r.body.Parsed? && r.body.doc.JObj?
    && Extension(Results(r.body.doc.fields)).Some?
  }

  predicate HasNext(r: Reply)
    requires Readable(r)
  {
    Truthy(GetOr(r.body.doc.fields, "next", JNull))
  }

  function ReplyItems(r: Reply): seq<Json>
    requires Readable(r)
  {
    Extension(Results(r.body.doc.fields)).value
  }

  /** The first `n` replies of `rs` are readable. */
  predicate ReadableUpTo(rs: seq<Reply>, n: nat) {
    n <= |rs| && forall i :: 0 <= i < n ==> Readable(rs[i])
  }

  /** The courses of the first `n` replies, in order. */
  function Collected(rs: seq<Reply>, n: nat): seq<Json>
    requires ReadableUpTo(rs, n)
    decreases n
  {
    if n == 0 then []
    else
      assert ReadableUpTo(rs[1..], n - 1) by {
        assert forall i :: 0 <= i < n - 1 ==> rs[1..][i] == rs[i + 1];
      }
      ReplyItems(rs[0]) + Collected(rs[1..], n - 1)
  }

  /** A readable reply with a `next` leads to the following page. */
  lemma ReadStep(w: Wire, base: string, page: int, acc: seq<Json>)
    requires w.pending != [] && Readable(w.pending[0])
    ensures var w1 := Exchange(w, CoursesPage(base, page)).0;
      var more := acc + ReplyItems(w.pending[0]);
      PublicFrom(w, base, page, acc) ==
        if HasNext(w.pending[0]) then PublicFrom(w1, base, page + 1, more) else (w1, Success(more))
  {
  }

  /** Any other reply ends the loop after its request. */
  lemma StopStep(w: Wire, base: string, page: int, acc: seq<Json>)
    requires !(w.pending != [] && Readable(w.pending[0]) && HasNext(w.pending[0]))
    ensures PublicFrom(w, base, page, acc).0 == Exchange(w, CoursesPage(base, page)).0
  {
  }

  /** Pages are requested as 1, 2, ... (from `page` on) in order, one for each
      reply consumed, whatever the outcome. */
  lemma {:induction false} PublicPages(w: Wire, base: string, page: int, acc: seq<Json>)
    ensures var w1 := PublicFrom(w, base, page, acc).0;
      var n := |w1.sent| - |w.sent|;
      && 1 <= n && w1.sent == w.sent + Pages(base, page, n)
      && w1.pending == Skip(w.pending, n)
    decreases |w.pending|
  {
    var w1 := Exchange(w, CoursesPage(base, page)).0;
    if w.pending != [] && Readable(w.pending[0]) && HasNext(w.pending[0]) {
      var more := acc + ReplyItems(w.pending[0]);
      ReadStep(w, base, page, acc);
      PublicPages(w1, base, page + 1, more);
      var n := |PublicFrom(w1, base, page + 1, more).0.sent| - |w1.sent|;
      SkipSkip(w.pending, 1, n);
      assert Pages(base, page, n + 1) == [CoursesPage(base, page)] + Pages(base, page + 1, n);
    } else {
      StopStep(w, base, page, acc);
      assert Pages(base, page, 1) == [CoursesPage(base, page)];
    }
  }

  /** When the loop succeeds after `n` requests, the first `n` replies were all
      readable, each but the last had a `next` and the last had none. */
  lemma {:induction false} PublicSuccess(w: Wire, base: string, page: int, acc: seq<Json>)
    requires PublicFrom(w, base, page, acc).1.Success?
    ensures var res := PublicFrom(w, base, page, acc);
      var n := |res.0.sent| - |w.sent|;
      && 1 <= n && ReadableUpTo(w.pending, n)
      && (forall i :: 0 <= i < n - 1 ==> HasNext(w.pending[i]))
      && !HasNext(w.pending[n - 1])
    decreases |w.pending|
  {
    SuccessReadsFirst(w, base, page, acc);
    var r := w.pending[0];
    var w1 := Exchange(w, CoursesPage(base, page)).0;
    ReadStep(w, base, page, acc);
    if HasNext(r) {
      var more := acc + ReplyItems(r);
      PublicSuccess(w1, base, page + 1, more);
      var m := |PublicFrom(w1, base, page + 1, more).0.sent| - |w1.sent|;
      ShiftedReplies(w.pending, m);
    }
  }

  /** ... and the result is `acc` followed by their courses in page order. */
  lemma {:induction false} PublicSuccessValue(w: Wire, base: string, page: int, acc: seq<Json>)
    requires PublicFrom(w, base, page, acc).1.Success?
    ensures var res := PublicFrom(w, base, page, acc);
      var n := |res.0.sent| - |w.sent|;
      && 1 <= n && ReadableUpTo(w.pending, n)
      && res.1.value == acc + Collected(w.pending, n)
    decreases |w.pending|
  {
    PublicSuccess(w, base, page, acc);
    var r := w.pending[0];
    var w1 := Exchange(w, CoursesPage(base, page)).0;
    ReadStep(w, base, page, acc);
    var items := ReplyItems(r);
    if HasNext(r) {
      PublicSuccessValue(w1, base, page + 1, acc + items);
      var m := |PublicFrom(w1, base, page + 1, acc + items).0.sent| - |w1.sent|;
      ShiftedReplies(w.pending, m);
      assert (acc + items) + Collected(w1.pending, m) == acc + (items + Collected(w1.pending, m));
    } else {
      assert Collected(w.pending, 1) == items + Collected(w.pending[1..], 0);
    }
  }

  /** A successful loop read its first reply. */
  lemma SuccessReadsFirst(w: Wire, base: string, page: int, acc: seq<Json>)
    requires PublicFrom(w, base, page, acc).1.Success?
    ensures w.pending != [] && Readable(w.pending[0])
  {
  }

  /** Readable replies after the first, seen from the whole script. */
  lemma ShiftedReplies(rs: seq<Reply>, m: nat)
    requires rs != [] && Readable(rs[0]) && ReadableUpTo(rs[1..], m)
    ensures ReadableUpTo(rs, m + 1)
    ensures forall i :: 0 <= i < m ==> rs[1..][i] == rs[i + 1]
    ensures Collected(rs, m + 1) == ReplyItems(rs[0]) + Collected(rs[1..], m)
  {
    assert forall i :: 0 <= i < m ==> rs[1..][i] == rs[i + 1];
  }

  /** Conversely, a script whose first `n` replies are readable, all but the
      last with a `next`, is read to the end: `n` requests and every course. */
  lemma {:induction false} PublicReadsAll(w: Wire, base: string, page: int, acc: seq<Json>, n: nat)
    requires 1 <= n && ReadableUpTo(w.pending, n)
    requires forall i :: 0 <= i < n - 1 ==> HasNext(w.pending[i])
    requires !HasNext(w.pending[n - 1])
    ensures var res := PublicFrom(w, base, page, acc);
      && |res.0.sent| == |w.sent| + n
      && res.1 == Success(acc + Collected(w.pending, n))
    decreases n
  {
    var w1 := Exchange(w, CoursesPage(base, page)).0;
    var items := ReplyItems(w.pending[0]);
    ReadStep(w, base, page, acc);
    if n > 1 {
      assert w1.pending == w.pending[1..];
      assert forall i :: 0 <= i < n - 1 ==> w1.pending[i] == w.pending[i + 1];
      PublicReadsAll(w1, base, page + 1, acc + items, n - 1);
      assert Collected(w.pending, n) == items + Collected(w1.pending, n - 1);
      assert (acc + items) + Collected(w1.pending, n - 1) == acc + (items + Collected(w1.pending, n - 1));
    } else {
      assert Collected(w.pending, 1) == items + Collected(w.pending[1..], 0) == items;
      assert PublicFrom(w, base, page, acc) == (w1, Success(acc + items));
    }
  }

  /** Errors propagate: a timeout (or no answer), a 4xx/5xx status or a body
      that is not JSON on any page raises, whatever was collected before. */
  lemma FirstReplyRaises(w: Wire, base: string, page: int, acc: seq<Json>)
    ensures w.pending == [] || w.pending[0].TransportError? ==> PublicFrom(w, base, page, acc).1 == Failure(Transport)
    ensures w.pending != [] && w.pending[0].Response? && RaisesForStatus(w.pending[0].status) ==>
      PublicFrom(w, base, page, acc).1 == Failure(HttpStatus(w.pending[0].status))
    ensures w.pending != [] && w.pending[0].Response? && !RaisesForStatus(w.pending[0].status) && w.pending[0].body.NotJson? ==>
      PublicFrom(w, base, page, acc).1 == Failure(NotJsonBody)
  {
  }

  /** A page of courses with or without a link to the next one. */
  function CoursePage(items: seq<Json>, next: Json): Reply {
    Response(200, "", Parsed(JObj(map["results" := JArr(items), "next" := next])), map[])
  }

  /** Two pages, the first linking to the second: both are requested, page 1
      then page 2 with 100 courses a page, and the courses come in page order. */
  lemma TwoPageExample(base: string, a: Json, b: Json, link: string)
    requires link != ""
    ensures var res := PublicFrom(Wire(map[], [CoursePage([a], JStr(link)), CoursePage([b], JNull)], []), base, 1, []);
      && res.1 == Success([a, b])
      && res.0.sent == [CoursesPage(base, 1), CoursesPage(base, 2)]
  {
    var p1, p2 := CoursePage([a], JStr(link)), CoursePage([b], JNull);
    var rs := [p1, p2];
    PageShape([a], JStr(link));
    PageShape([b], JNull);
    assert rs[0] == p1 && rs[1] == p2;
    var w := Wire(map[], rs, []);
    PublicReadsAll(w, base, 1, [], 2);
    PublicPages(w, base, 1, []);
    assert Collected(rs, 2) == [a] + Collected(rs[1..], 1);
    assert rs[1..] == [p2] && Collected([p2], 1) == [b] + Collected([], 0);
    assert [] + Collected(rs, 2) == [a, b];
    assert Pages(base, 2, 1) == [CoursesPage(base, 2)] + Pages(base, 3, 0);
    assert Pages(base, 1, 2) == [CoursesPage(base, 1), CoursesPage(base, 2)];
    var res := PublicFrom(w, base, 1, []);
    assert |res.0.sent| == 2;
    assert res.0.sent == [] + Pages(base, 1, 2);
  }

  lemma PageShape(items: seq<Json>, next: Json)
    ensures Readable(CoursePage(items, next)) && ReplyItems(CoursePage(items, next)) == items
    ensures HasNext(CoursePage(items, next)) <==> Truthy(next)
  {
    var fields := map["results" := JArr(items), "next" := next];
    assert "results" in fields && fields["results"] == JArr(items);
    assert "next" in fields && fields["next"] == next;
  }

  /** One page without `next`: a single request, for page 1. */
  lemma SinglePageExample(base: string, a: Json, b: Json)
    ensures var res := PublicFrom(Wire(map[], [CoursePage([a, b], JNull)], []), base, 1, []);
      res.1 == Success([a, b]) && res.0.sent == [CoursesPage(base, 1)]
  {
    var p := CoursePage([a, b], JNull);
    PageShape([a, b], JNull);
    var w := Wire(map[], [p], []);
    PublicReadsAll(w, base, 1, [], 1);
    PublicPages(w, base, 1, []);
    assert [p][1..] == [];
    assert Collected([p], 1) == [a, b] + Collected([], 0);
    assert [] + Collected([p], 1) == [a, b];
    assert Pages(base, 1, 1) == [CoursesPage(base, 1)] + Pages(base, 2, 0);
  }
}
