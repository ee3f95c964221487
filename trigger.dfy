/** Asking the platform to build a course's grade report (main.py,
    generate_grade_report): the identifier is sanitized, a CSRF token is made
    sure of, the instructor API is called and its answer classified. */
module Trigger {
  import opened Common
  import opened Http
  import opened Login
  import opened Sanitizer
  import opened Profile

  datatype TriggerError =
    | NotAString                 // the identifier is neither a string nor falsy
    | NoCsrfToken                // still no token after reloading the home page
    | Offline                    // a request failed in transport
    | HttpError(status: int)     // `raise_for_status` raised
    | UnexpectedBody             // a JSON answer that is not an object

  /** `str(v)` of a falsy value, which `sanitize_course_id` hands back as it is
      and the URL then spells out. */
  function FalsyText(v: Json): string
    requires !Truthy(v)
  {
    match v
    case JNull => "None"
    case JBool(_) => "False"
    case JNum(_) => "0"
    case JStr(_) => ""
    case JArr(_) => "[]"
    case JObj(_) => "{}"
  }

  /** The identifier as it goes into the URL. A truthy value that is not a
      string has no `split`, so sanitizing it raises. */
  function CleanId(id: Json): (r: Result<string, TriggerError>)
    ensures id.JStr? ==> r == Success(SanitizeCourseId(id.s))
    ensures Truthy(id) && !id.JStr? ==> r == Failure(NotAString)
  {
    if !Truthy(id) then Success(FalsyText(id))
    else if id.JStr? then Success(SanitizeCourseId(id.s))
    else Failure(NotAString)
  }

  function ReportRequest(cfg: Config, clean: string, token: string): Request {
    Request(POST, cfg.base + "/courses/" + clean + "/instructor/api/calculate_grades_csv", [],
      [("X-CSRFToken", token),
       ("Referer", cfg.base + "/courses/" + clean + "/instructor"),
       ("X-Requested-With", "XMLHttpRequest"),
       ("Content-Type", FormContentType),
       ("USE-JWT-COOKIE", "true"),
       ("Origin", cfg.base)],
      [])
  }

  /** What the code returns when the report was accepted without a JSON answer. */
  function QueuedNotice(): Json {
    JObj(map["status" := JStr("success"), "message" := JStr("Отчет успешно поставлен в очередь на генерацию")])
  }

  /** Step 1: the token from the jar, reloading the home page once when it is
      missing. */
  function EnsureToken(w: Wire, cfg: Config): (res: (Wire, Result<string, TriggerError>))
    ensures res.1.Success? ==> HasCookie(res.0, "csrftoken") && res.1.value == res.0.cookies["csrftoken"]
  {
    if HasCookie(w, "csrftoken") then (w, Success(w.cookies["csrftoken"]))
    else
      var (w1, home) := Exchange(w, HomeRequest(cfg));
      if home.TransportError? then (w1, Failure(Offline))
      else if HasCookie(w1, "csrftoken") then (w1, Success(w1.cookies["csrftoken"]))
      else (w1, Failure(NoCsrfToken))
  }

  /** Step 2: how the answer to the report request is classified. A status
      other than 200 first runs the rights probe when it is 403, then raises
      if it is a client or server error; any other status goes on as if it
      were 200. */
  function Classify(w: Wire, cfg: Config, r: Reply): (res: (Wire, Result<Json, TriggerError>))
    ensures res.1.Success? ==> res.1.value.JObj?
  {
    if r.TransportError? then (w, Failure(Offline))
    else if r.status != 200 && RaisesForStatus(r.status) then
      (if r.status == 403 then UserInfoFlow(w, cfg).0 else w, Failure(HttpError(r.status)))
    else
      match r.body
      case NotJson => (w, Success(QueuedNotice()))
      case Parsed(doc) => (w, if doc.JObj? then Success(doc) else Failure(UnexpectedBody))
  }

  /** `generate_grade_report(session, id)` on a session in state `w`. */
  function GenerateFlow(w: Wire, cfg: Config, id: Json): (res: (Wire, Result<Json, TriggerError>))
  {
    var clean := CleanId(id);
    if clean.Failure? then (w, Failure(clean.error))
    else
      var (w1, token) := EnsureToken(w, cfg);
      if token.Failure? then (w1, Failure(token.error))
      else
        var (w2, r) := Exchange(w1, ReportRequest(cfg, clean.value, token.value));
        Classify(w2, cfg, r)
  }

  method EnsureCsrfToken(s: Session, cfg: Config) returns (token: Result<string, TriggerError>)
    modifies s
    ensures (s.State(), token) == EnsureToken(old(s.State()), cfg)
    ensures s.headers == old(s.headers)
  {
    var hasToken := "csrftoken" in s.cookies && s.cookies["csrftoken"] != "";
    if !hasToken {
      var home := s.Send(HomeRequest(cfg));
      if home.TransportError? {
        return Failure(Offline);
      }
      hasToken := "csrftoken" in s.cookies && s.cookies["csrftoken"] != "";
    }
    if !hasToken {
      return Failure(NoCsrfToken);
    }
    return Success(s.cookies["csrftoken"]);
  }

  method ClassifyAnswer(s: Session, cfg: Config, r: Reply) returns (result: Result<Json, TriggerError>)
    modifies s
    ensures (s.State(), result) == Classify(old(s.State()), cfg, r)
    ensures s.headers == old(s.headers)
  {
    if r.TransportError? {
      return Failure(Offline);
    }
    if r.status != 200 {
      if r.status == 403 {
        var info := GetUserInfo(s, cfg);
      }
      if RaisesForStatus(r.status) {
        return Failure(HttpError(r.status));
      }
    }
    match r.body {
      case NotJson =>
        result := Success(QueuedNotice());
      case Parsed(doc) =>
        result := if doc.JObj? then Success(doc) else Failure(UnexpectedBody);
    }
  }

  method GenerateGradeReport(s: Session, cfg: Config, id: Json) returns (result: Result<Json, TriggerError>)
    modifies s
    ensures (s.State(), result) == GenerateFlow(old(s.State()), cfg, id)
    ensures s.headers == old(s.headers)
  {
    var clean := CleanId(id);
    if clean.Failure? {
      return Failure(clean.error);
    }
    var token := EnsureCsrfToken(s, cfg);
    if token.Failure? {
      return Failure(token.error);
    }
    var r := s.Send(ReportRequest(cfg, clean.value, token.value));
    result := ClassifyAnswer(s, cfg, r);
  }

  /** A token is needed before anything is posted: a missing one costs exactly
      one home-page GET, and if that does not set it nothing is posted. The
      report request is sent at most once, last or followed only by the rights
      probe, and always with a non-empty token. */
  lemma TokenBeforePost(w: Wire, cfg: Config, id: Json)
    ensures var (w1, t) := EnsureToken(w, cfg);
      && (HasCookie(w, "csrftoken") ==> w1 == w)
      && (!HasCookie(w, "csrftoken") ==> w1.sent == w.sent + [HomeRequest(cfg)])
      && (t.Success? ==> t.value != "")
    ensures var (w1, t) := EnsureToken(w, cfg);
      t.Failure? && CleanId(id).Success? ==> GenerateFlow(w, cfg, id).0.sent == w1.sent
  {
  }

  /** Every success is a JSON object: the server's own, or the fixed notice
      when the answer was not JSON. */
  lemma GenerateSucceedsWithObject(w: Wire, cfg: Config, id: Json)
    ensures var r := GenerateFlow(w, cfg, id).1;
      r.Success? ==> r.value.JObj?
  {
  }

  /** Which statuses are failures: only client and server errors; 200 and
      every other status below 400 are read as an answer. */
  lemma StatusClassification(w: Wire, cfg: Config, r: Reply)
    requires r.Response?
    ensures Classify(w, cfg, r).1 == Failure(HttpError(r.status)) <==> RaisesForStatus(r.status)
    ensures !RaisesForStatus(r.status) && r.body.NotJson? ==> Classify(w, cfg, r) == (w, Success(QueuedNotice()))
  {
  }

  /** A 403 costs the rights probe's requests on top of the report request;
      no other status sends anything more. */
  lemma ForbiddenRunsProbe(w: Wire, cfg: Config, r: Reply)
    requires r.Response?
    ensures r.status == 403 ==> Classify(w, cfg, r).0 == UserInfoFlow(w, cfg).0
    ensures r.status != 403 ==> Classify(w, cfg, r).0 == w
  {
  }

  /** A truthy identifier that is not a string fails with nothing sent. */
  lemma NonStringIdSendsNothing(w: Wire, cfg: Config, id: Json)
    requires Truthy(id) && !id.JStr?
    ensures GenerateFlow(w, cfg, id) == (w, Failure(NotAString))
  {
  }
}
