/** The course list as the report trigger reads it (main.py, get_all_courses):
    pages of 100 courses from the platform's course API, at most ten pages,
    stopping early on an empty page or a bad answer but keeping what was
    collected; only an exception discards everything. */
module Catalog {
  import opened Common
  import opened Text
  import opened Http
  import opened Login

  const PageSize: int := 100
  const MaxPages: int := 10

  /** `GET <base>/api/courses/v1/courses/?page=<page>&page_size=100`. */
  function CoursesPage(base: string, page: int): Request {
    Request(GET, base + "/api/courses/v1/courses/", [("page", page), ("page_size", PageSize)], [], [])
  }

  /** Page requests numbered `first`, `first + 1`, ... */
  function Pages(base: string, first: int, n: nat): (ps: seq<Request>)
    ensures |ps| == n
    decreases n
  {
    if n == 0 then [] else [CoursesPage(base, first)] + Pages(base, first + 1, n - 1)
  }

  /** The `i`-th of them asks for page `first + i`. */
  lemma {:induction false} PagesNumbered(base: string, first: int, n: nat)
    ensures forall i :: 0 <= i < n ==> Pages(base, first, n)[i] == CoursesPage(base, first + i)
    decreases n
  {
    if n > 0 {
      PagesNumbered(base, first + 1, n - 1);
      var ps := Pages(base, first, n);
      assert forall i :: 1 <= i < n ==> ps[i] == Pages(base, first + 1, n - 1)[i - 1];
    }
  }

  /** What `list.extend(value)` appends: the items of an array, the characters
      of a string, nothing for an empty object; `None` where Python raises (a
      number, a boolean, null) or where the appended keys would depend on
      member order, which `Json` does not keep. */
  function Extension(v: Json): (items: Option<seq<Json>>)
    ensures v.JArr? ==> items == Some(v.items)
    ensures v.JStr? ==> items.Some? && |items.value| == |v.s|
    ensures v.JObj? ==> (items == Some([]) <==> v.fields == map[])
    ensures v.JNull? || v.JNum? || v.JBool? ==> items.None?
  {
    match v
    case JArr(xs) => Some(xs)
    case JStr(s) => Some(seq(|s|, k requires 0 <= k < |s| => JStr([s[k]])))
    case JObj(f) => if f == map[] then Some([]) else None
    case _ => None
  }

  /** A string is appended one character at a time, each as a string of
      its own, in order. */
  lemma ExtensionChars(s: string)
    ensures var items := Extension(JStr(s)).value;
      forall k :: 0 <= k < |s| ==> items[k] == JStr([s[k]])
  {
  }

  /** What the loop does with the reply to one page. */
  datatype Step = Stop(courses: seq<Json>) | Continue(collected: seq<Json>)
  {
    /** What the loop holds after this step. */
    function Result(): seq<Json> {
      if Stop? then courses else collected
    }
  }

  /** Replies the loop meets with an exception, so that `[]` is returned:
      a transport failure, a JSON answer that is not an object, or a truthy
      `results` that `list.extend` refuses. */
  predicate RaisesOn(r: Reply) {
    || r.TransportError?
    || (r.status == 200 && r.body.Parsed? && !r.body.doc.JObj?)
    || (&& r.status == 200 && r.body.Parsed? && r.body.doc.JObj?
        && Truthy(GetOr(r.body.doc.fields, "results", JArr([])))
        && Extension(GetOr(r.body.doc.fields, "results", JArr([]))).None?)
  }

  /** Replies on which the loop breaks and keeps what it has: a status other
      than 200, a body that is not JSON, or a falsy `results`. */
  predicate EndsQuietly(r: Reply) {
    && r.Response?
    && (|| r.status != 200
        || r.body.NotJson?
        || (r.body.Parsed? && r.body.doc.JObj? && !Truthy(GetOr(r.body.doc.fields, "results", JArr([])))))
  }

  /** One iteration: stop with a result, or go on to the next page with more
      collected. A transport failure, a JSON answer that is not an object and
      a `results` value that cannot be appended are exceptions, which end in
      an empty list. */
  function PageStep(r: Reply, page: int, acc: seq<Json>): (st: Step)
    ensures st.Continue? ==> page < MaxPages && |acc| <= |st.collected| && st.collected[..|acc|] == acc
    ensures st.Stop? ==> st.courses == [] || (|acc| <= |st.courses| && st.courses[..|acc|] == acc)
  {
    if r.TransportError? then Stop([])
    else if r.status != 200 then Stop(acc)
    else
      match r.body
      case NotJson => Stop(acc)
      case Parsed(JObj(f)) =>
        var results := GetOr(f, "results", JArr([]));
        if !Truthy(results) then Stop(acc)
        else
          var items := Extension(results);
          if items.None? then Stop([])
          else
            assert (acc + items.value)[..|acc|] == acc;
            if !Truthy(GetOr(f, "next", JNull)) || page >= MaxPages then Stop(acc + items.value)
            else Continue(acc + items.value)
      case Parsed(_) => Stop([])
  }

  /** The reply decides the step: a break keeps `acc` as it stands, an
      exception ends the loop with `[]`, and any reply that does not raise
      keeps `acc` at the front of what the loop holds next. */
  lemma PageStepKeeps(r: Reply, page: int, acc: seq<Json>)
    ensures r.TransportError? ==> PageStep(r, page, acc) == Stop([])
    ensures EndsQuietly(r) ==> PageStep(r, page, acc) == Stop(acc)
    ensures RaisesOn(r) ==> PageStep(r, page, acc) == Stop([])
    ensures !RaisesOn(r) ==> var held := PageStep(r, page, acc).Result();
      |acc| <= |held| && held[..|acc|] == acc
  {
  }

  /** The loop from page `page` on, with `acc` collected so far. */
  function CatalogFrom(w: Wire, cfg: Config, page: int, acc: seq<Json>): (res: (Wire, seq<Json>))
    requires 1 <= page <= MaxPages
    decreases MaxPages - page
  {
    var (w1, r) := Exchange(w, CoursesPage(cfg.base, page));
    match PageStep(r, page, acc)
    case Stop(courses) => (w1, courses)
    case Continue(collected) => CatalogFrom(w1, cfg, page + 1, collected)
  }

  function CatalogFlow(w: Wire, cfg: Config): (Wire, seq<Json>) {
    CatalogFrom(w, cfg, 1, [])
  }

  method GetAllCourses(s: Session, cfg: Config) returns (courses: seq<Json>)
    modifies s
    ensures (s.State(), courses) == CatalogFlow(old(s.State()), cfg)
    ensures s.headers == old(s.headers)
  {
    ghost var goal := CatalogFlow(s.State(), cfg);
    courses := [];
    var page := 1;
    var hasMore := true;
    while hasMore
      invariant 1 <= page <= MaxPages
      invariant s.headers == old(s.headers)
      invariant hasMore ==> CatalogFrom(s.State(), cfg, page, courses) == goal
      invariant !hasMore ==> (s.State(), courses) == goal
      decreases hasMore, MaxPages - page
    {
      ghost var w := s.State();
      var r := s.Send(CoursesPage(cfg.base, page));
      if r.TransportError? {
        return [];
      }
      if r.status != 200 {
        break;
      }
      if r.body.NotJson? {
        break;
      }
      var data := r.body.doc;
      if !data.JObj? {
        return [];
      }
      var results := GetOr(data.fields, "results", JArr([]));
      if !Truthy(results) {
        break;
      }
      var items := Extension(results);
      if items.None? {
        return [];
      }
      courses := courses + items.value;
      if !Truthy(GetOr(data.fields, "next", JNull)) || page >= MaxPages {
        hasMore := false;
      } else {
        page := page + 1;
      }
    }
  }

  /** A page that the loop reads in full and that asks for the next one. */
  predicate FullPage(r: Reply) {
    && r.Response? && r.status == 200 && r.body.Parsed? && r.body.doc.JObj?
    && GetOr(r.body.doc.fields, "results", JArr([])).JArr?
    && GetOr(r.body.doc.fields, "results", JArr([])).items != []
    && Truthy(GetOr(r.body.doc.fields, "next", JNull))
  }

  function PageItems(r: Reply): seq<Json>
    requires FullPage(r)
  {
    GetOr(r.body.doc.fields, "results", JArr([])).items
  }

  /** Every reply of `rs` is a full page. */
  predicate AllFull(rs: seq<Reply>) {
    forall i :: 0 <= i < |rs| ==> FullPage(rs[i])
  }

  lemma AllFullTail(rs: seq<Reply>)
    requires rs != [] && AllFull(rs)
    ensures FullPage(rs[0]) && AllFull(rs[1..])
  {
    assert forall i :: 0 <= i < |rs| - 1 ==> rs[1..][i] == rs[i + 1];
  }

  /** The courses of the first `n` pages, in page order. */
  function ItemsOf(rs: seq<Reply>, n: nat): seq<Json>
    requires n <= |rs| && AllFull(rs)
    decreases n
  {
    if n == 0 then []
    else
      AllFullTail(rs);
      PageItems(rs[0]) + ItemsOf(rs[1..], n - 1)
  }

  /** Requests are the pages `page`, `page + 1`, ... up to page 10 at most, in
      order, one reply consumed for each. */
  lemma {:induction false} CatalogPages(w: Wire, cfg: Config, page: int, acc: seq<Json>)
    requires 1 <= page <= MaxPages
    ensures var w1 := CatalogFrom(w, cfg, page, acc).0;
      var n := |w1.sent| - |w.sent|;
      && 1 <= n <= MaxPages - page + 1
      && w1.sent == w.sent + Pages(cfg.base, page, n)
      && w1.pending == Skip(w.pending, n)
    decreases MaxPages - page
  {
    var (w1, r) := Exchange(w, CoursesPage(cfg.base, page));
    var st := PageStep(r, page, acc);
    if st.Continue? {
      var res := CatalogFrom(w1, cfg, page + 1, st.collected);
      CatalogPages(w1, cfg, page + 1, st.collected);
      var n := |res.0.sent| - |w1.sent|;
      SkipSkip(w.pending, 1, n);
      assert Pages(cfg.base, page, n + 1) == [CoursesPage(cfg.base, page)] + Pages(cfg.base, page + 1, n);
    }
  }

  /** What was collected is never lost: the result extends `acc`, unless an
      exception discarded everything. */
  lemma {:induction false} PartialResultsSurvive(w: Wire, cfg: Config, page: int, acc: seq<Json>)
    requires 1 <= page <= MaxPages
    ensures var r := CatalogFrom(w, cfg, page, acc).1;
      r == [] || (|acc| <= |r| && r[..|acc|] == acc)
    decreases MaxPages - page
  {
    var (w1, r) := Exchange(w, CoursesPage(cfg.base, page));
    var st := PageStep(r, page, acc);
    if st.Continue? {
      PartialResultsSurvive(w1, cfg, page + 1, st.collected);
      var out := CatalogFrom(w1, cfg, page + 1, st.collected).1;
      if out != [] {
        assert out[..|acc|] == out[..|st.collected|][..|acc|];
      }
    }
  }

  lemma FullPageStep(r: Reply, page: int, acc: seq<Json>)
    requires FullPage(r)
    ensures PageStep(r, page, acc) ==
      if page < MaxPages then Continue(acc + PageItems(r)) else Stop(acc + PageItems(r))
  {
  }

  /** Reading one full page: the loop goes on with its items, unless it was
      the tenth. */
  lemma FullPageFrom(w: Wire, cfg: Config, page: int, acc: seq<Json>)
    requires 1 <= page <= MaxPages && w.pending != [] && FullPage(w.pending[0])
    ensures var w1 := Exchange(w, CoursesPage(cfg.base, page)).0;
      var more := acc + PageItems(w.pending[0]);
      CatalogFrom(w, cfg, page, acc) ==
        if page < MaxPages then CatalogFrom(w1, cfg, page + 1, more) else (w1, more)
  {
    FullPageStep(w.pending[0], page, acc);
  }

  /** A server that always has a next page is read for exactly ten pages... */
  lemma {:induction false} CappedAtTenPages(w: Wire, cfg: Config, page: int, acc: seq<Json>)
    requires 1 <= page <= MaxPages
    requires |w.pending| >= MaxPages - page + 1
    requires AllFull(w.pending)
    ensures |CatalogFrom(w, cfg, page, acc).0.sent| == |w.sent| + MaxPages - page + 1
    decreases MaxPages - page
  {
    AllFullTail(w.pending);
    FullPageFrom(w, cfg, page, acc);
    if page < MaxPages {
      var w1 := Exchange(w, CoursesPage(cfg.base, page)).0;
      CappedAtTenPages(w1, cfg, page + 1, acc + PageItems(w.pending[0]));
    }
  }

  /** ... and the result is their courses in page order. */
  lemma {:induction false} TenPagesInOrder(w: Wire, cfg: Config, page: int, acc: seq<Json>)
    requires 1 <= page <= MaxPages
    requires |w.pending| >= MaxPages - page + 1
    requires AllFull(w.pending)
    ensures CatalogFrom(w, cfg, page, acc).1 == acc + ItemsOf(w.pending, MaxPages - page + 1)
    decreases MaxPages - page
  {
    AllFullTail(w.pending);
    var items := PageItems(w.pending[0]);
    var rest := ItemsOf(w.pending[1..], MaxPages - page);
    FullPageFrom(w, cfg, page, acc);
    if page < MaxPages {
      var w1 := Exchange(w, CoursesPage(cfg.base, page)).0;
      TenPagesInOrder(w1, cfg, page + 1, acc + items);
    }
    assert (acc + items) + rest == acc + (items + rest);
  }

  /** A reply on which the loop breaks returns `acc` as it stands. */
  lemma QuietFrom(w: Wire, cfg: Config, page: int, acc: seq<Json>)
    requires 1 <= page <= MaxPages && w.pending != [] && EndsQuietly(w.pending[0])
    ensures CatalogFrom(w, cfg, page, acc).1 == acc
  {
    var r := Exchange(w, CoursesPage(cfg.base, page)).1;
    assert r == w.pending[0];
    PageStepKeeps(r, page, acc);
  }

  /** An exception on the next reply, or no reply at all, returns `[]`. */
  lemma RaisedFrom(w: Wire, cfg: Config, page: int, acc: seq<Json>)
    requires 1 <= page <= MaxPages && (w.pending == [] || RaisesOn(w.pending[0]))
    ensures CatalogFrom(w, cfg, page, acc).1 == []
  {
    var r := Exchange(w, CoursesPage(cfg.base, page)).1;
    assert r.TransportError? || r == w.pending[0];
    PageStepKeeps(r, page, acc);
  }

  /** The first of the full pages `pages` at the front of the script: the
      loop reads it and goes on with the rest in front of it. */
  lemma PastFirstPage(w: Wire, cfg: Config, page: int, acc: seq<Json>, pages: seq<Reply>)
    requires 1 <= page && page + |pages| <= MaxPages && pages != [] && AllFull(pages)
    requires |pages| <= |w.pending| && w.pending[..|pages|] == pages
    ensures var w1 := Exchange(w, CoursesPage(cfg.base, page)).0;
      && FullPage(pages[0]) && AllFull(pages[1..])
      && w1.pending == w.pending[1..] && w1.pending[..|pages| - 1] == pages[1..]
      && CatalogFrom(w, cfg, page, acc).1 == CatalogFrom(w1, cfg, page + 1, acc + PageItems(pages[0])).1
      && ItemsOf(pages, |pages|) == PageItems(pages[0]) + ItemsOf(pages[1..], |pages| - 1)
  {
    AllFullTail(pages);
    assert w.pending[0] == pages[0];
    FullPageFrom(w, cfg, page, acc);
  }

  lemma Assoc(a: seq<Json>, b: seq<Json>, c: seq<Json>)
    ensures (a + b) + c == a + (b + c)
  {
  }

  lemma Regroup(a: seq<Json>, b: seq<Json>, c: seq<Json>, d: seq<Json>)
    ensures (a + b) + c + d == a + (b + c) + d
  {
  }

  /** After the full pages `pages`, which fit under the cap, a reply `stop` on
      which the loop breaks returns what was collected: `acc` and then those
      pages' courses in page order. */
  lemma {:induction false} StopsAfterFullPages(w: Wire, cfg: Config, page: int, acc: seq<Json>, pages: seq<Reply>, stop: Reply)
    requires 1 <= page && page + |pages| <= MaxPages && AllFull(pages)
    requires |pages| < |w.pending| && w.pending[..|pages|] == pages && w.pending[|pages|] == stop
    requires EndsQuietly(stop)
    ensures CatalogFrom(w, cfg, page, acc).1 == acc + ItemsOf(pages, |pages|)
    decreases |pages|
  {
    if pages == [] {
      QuietFrom(w, cfg, page, acc);
    } else {
      PastFirstPage(w, cfg, page, acc, pages);
      var w1 := Exchange(w, CoursesPage(cfg.base, page)).0;
      var items := PageItems(pages[0]);
      assert w1.pending[|pages| - 1] == w.pending[|pages|];
      StopsAfterFullPages(w1, cfg, page + 1, acc + items, pages[1..], stop);
      Assoc(acc, items, ItemsOf(pages[1..], |pages| - 1));
    }
  }

  /** After the full pages `pages`, which fit under the cap, an exception on
      the next reply `stop` discards everything collected. */
  lemma {:induction false} RaisesAfterFullPages(w: Wire, cfg: Config, page: int, acc: seq<Json>, pages: seq<Reply>, stop: Reply)
    requires 1 <= page && page + |pages| <= MaxPages && AllFull(pages)
    requires |pages| < |w.pending| && w.pending[..|pages|] == pages && w.pending[|pages|] == stop
    requires RaisesOn(stop)
    ensures CatalogFrom(w, cfg, page, acc).1 == []
    decreases |pages|
  {
    if pages == [] {
      RaisedFrom(w, cfg, page, acc);
    } else {
      PastFirstPage(w, cfg, page, acc, pages);
      var w1 := Exchange(w, CoursesPage(cfg.base, page)).0;
      assert w1.pending[|pages| - 1] == w.pending[|pages|];
      RaisesAfterFullPages(w1, cfg, page + 1, acc + PageItems(pages[0]), pages[1..], stop);
    }
  }

  /** After the full pages `pages`, which fit under the cap, a script with no
      further reply ends in a transport error, which discards everything
      collected. */
  lemma {:induction false} ExhaustedAfterFullPages(w: Wire, cfg: Config, page: int, acc: seq<Json>, pages: seq<Reply>)
    requires 1 <= page && page + |pages| <= MaxPages && AllFull(pages)
    requires w.pending == pages
    ensures CatalogFrom(w, cfg, page, acc).1 == []
    decreases |pages|
  {
    if pages == [] {
      RaisedFrom(w, cfg, page, acc);
    } else {
      assert w.pending[..|pages|] == pages;
      PastFirstPage(w, cfg, page, acc, pages);
      var w1 := Exchange(w, CoursesPage(cfg.base, page)).0;
      ExhaustedAfterFullPages(w1, cfg, page + 1, acc + PageItems(pages[0]), pages[1..]);
    }
  }

  /** The last page of a catalog: read in full, with no link to a next one. */
  predicate LastPage(r: Reply) {
    && r.Response? && r.status == 200 && r.body.Parsed? && r.body.doc.JObj?
    && GetOr(r.body.doc.fields, "results", JArr([])).JArr?
    && GetOr(r.body.doc.fields, "results", JArr([])).items != []
    && !Truthy(GetOr(r.body.doc.fields, "next", JNull))
  }

  function LastItems(r: Reply): seq<Json>
    requires LastPage(r)
  {
    GetOr(r.body.doc.fields, "results", JArr([])).items
  }

  /** The last page stops the loop with its items appended. */
  lemma LastFrom(w: Wire, cfg: Config, page: int, acc: seq<Json>)
    requires 1 <= page <= MaxPages && w.pending != [] && LastPage(w.pending[0])
    ensures CatalogFrom(w, cfg, page, acc).1 == acc + LastItems(w.pending[0])
  {
    var r := Exchange(w, CoursesPage(cfg.base, page)).1;
    assert r == w.pending[0];
    assert PageStep(r, page, acc) == Stop(acc + LastItems(r));
  }

  /** After the full pages `pages`, which fit under the cap, a last page ends
      the catalog: the result is `acc`, then the full pages' courses in page
      order, then the last page's. */
  lemma {:induction false} EndsAfterFullPages(w: Wire, cfg: Config, page: int, acc: seq<Json>, pages: seq<Reply>, last: Reply)
    requires 1 <= page && page + |pages| <= MaxPages && AllFull(pages)
    requires |pages| < |w.pending| && w.pending[..|pages|] == pages && w.pending[|pages|] == last
    requires LastPage(last)
    ensures CatalogFrom(w, cfg, page, acc).1 == acc + ItemsOf(pages, |pages|) + LastItems(last)
    decreases |pages|
  {
    if pages == [] {
      LastFrom(w, cfg, page, acc);
    } else {
      PastFirstPage(w, cfg, page, acc, pages);
      var w1 := Exchange(w, CoursesPage(cfg.base, page)).0;
      var items := PageItems(pages[0]);
      assert w1.pending[|pages| - 1] == w.pending[|pages|];
      EndsAfterFullPages(w1, cfg, page + 1, acc + items, pages[1..], last);
      Regroup(acc, items, ItemsOf(pages[1..], |pages| - 1), LastItems(last));
    }
  }

  /** When no reply the loop could read raises, the result extends `acc`. */
  lemma {:induction false} KeptWithoutExceptions(w: Wire, cfg: Config, page: int, acc: seq<Json>)
    requires 1 <= page <= MaxPages
    requires |w.pending| >= MaxPages - page + 1
    requires forall i :: 0 <= i < |w.pending| ==> !RaisesOn(w.pending[i])
    ensures var r := CatalogFrom(w, cfg, page, acc).1;
      |acc| <= |r| && r[..|acc|] == acc
    decreases MaxPages - page
  {
    var (w1, r) := Exchange(w, CoursesPage(cfg.base, page));
    assert r == w.pending[0];
    var st := PageStep(r, page, acc);
    PageStepKeeps(r, page, acc);
    if st.Continue? {
      assert forall i :: 0 <= i < |w1.pending| ==> w1.pending[i] == w.pending[i + 1];
      KeptWithoutExceptions(w1, cfg, page + 1, st.collected);
      var out := CatalogFrom(w1, cfg, page + 1, st.collected).1;
      assert out[..|acc|] == out[..|st.collected|][..|acc|];
    }
  }
}
