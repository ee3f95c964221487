/** Signing in to the platform (main.py, create_session_with_login): the
    session first loads the home page, obtains a CSRF token from the cookie jar
    or from the token endpoint, posts the credentials to `/login_ajax` and, on
    success, switches its default headers to the ones the JSON APIs expect. */
module Login {
  import opened Common
  import opened Text
  import opened Http

  /** The deployment and the account (environment variables in the script). */
  datatype Config = Config(base: string, username: string, password: string)

  datatype LoginError =
    | Unreachable                            // a request failed in transport
    | CsrfStatus(status: int)                // the token endpoint did not answer 200
    | CsrfMissing                            // its answer holds no usable token
    | Malformed                              // a reply the code cannot read
    | Rejected(status: int, message: Json)   // the login status was neither 200 nor 201
    | Refused(message: Json)                 // the login answer says it did not succeed

  /** A signed-in session: the CSRF token it uses and the required cookies
      the server did not set (reported, not fatal). */
  datatype SignedIn = SignedIn(token: string, missingCookies: seq<string>)

  const DefaultDomain: string := "@urfu.online"

  /** The account name is sent as an e-mail address: a domain is appended when
      it has no `@`. */
  function LoginEmail(username: string): (email: string)
    ensures '@' in email
    ensures IsPrefix(username, email)
    ensures '@' in username ==> email == username
    ensures '@' !in username ==> email == username + "@urfu.online"
  {
    if '@' in username then username
    else
      assert (username + DefaultDomain)[|username|] == '@';
      username + DefaultDomain
  }

  lemma LoginEmailIdempotent(username: string)
    ensures LoginEmail(LoginEmail(username)) == LoginEmail(username)
  {
  }

  /** Headers a browser would send, set before the first request. */
  const BrowserHeaders: seq<(string, string)> := [
    ("User-Agent", "Mozilla/5.0 (Windows NT 10.0; Win64; x64) AppleWebKit/537.36 (KHTML, like Gecko) Chrome/91.0.4472.124 Safari/537.36"),
    ("Accept", "text/html,application/xhtml+xml,application/xml;q=0.9,image/webp,*/*;q=0.8"),
    ("Accept-Language", "ru-RU,ru;q=0.8,en-US;q=0.5,en;q=0.3"),
    ("Accept-Encoding", "gzip, deflate, br"),
    ("Connection", "keep-alive"),
    ("Upgrade-Insecure-Requests", "1"),
    ("Sec-Fetch-Dest", "document"),
    ("Sec-Fetch-Mode", "navigate"),
    ("Sec-Fetch-Site", "same-origin"),
    ("Sec-Fetch-User", "?1"),
    ("Cache-Control", "max-age=0")]

  const JsonAccept: string := "application/json, text/javascript, */*; q=0.01"
  const FormContentType: string := "application/x-www-form-urlencoded; charset=UTF-8"

  /** The defaults for the JSON APIs once signed in. */
  function ApiHeaders(cfg: Config, token: string): seq<(string, string)> {
    [("Accept", JsonAccept),
     ("X-Requested-With", "XMLHttpRequest"),
     ("Content-Type", FormContentType),
     ("USE-JWT-COOKIE", "true"),
     ("Origin", cfg.base),
     ("X-CSRFToken", token)]
  }

  /** Cookies the instructor API needs; their absence is only reported. */
  const RequiredCookies: seq<string> :=
    ["edx-jwt-cookie-header-payload", "edx-jwt-cookie-signature", "sessionid", "csrftoken"]

  function MissingCookies(jar: map<string, string>, names: seq<string>): (missing: seq<string>)
    ensures forall k :: 0 <= k < |missing| ==> missing[k] in names && missing[k] !in jar
    ensures forall k :: 0 <= k < |names| && names[k] !in jar ==> names[k] in missing
  {
    if names == [] then []
    else
      var rest := MissingCookies(jar, names[1..]);
      if names[0] in jar then rest else [names[0]] + rest
  }

  function HomeRequest(cfg: Config): Request {
    Request(GET, cfg.base, [], [], [])
  }

  function CsrfRequest(cfg: Config): Request {
    Request(GET, cfg.base + "/csrf/api/v1/token", [],
      [("X-Requested-With", "XMLHttpRequest"), ("Referer", cfg.base + "/")], [])
  }

  function LoginRequest(cfg: Config, token: string): Request {
    Request(POST, cfg.base + "/login_ajax", [],
      [("Referer", cfg.base + "/login"),
       ("X-CSRFToken", token),
       ("Content-Type", FormContentType),
       ("X-Requested-With", "XMLHttpRequest"),
       ("Origin", cfg.base)],
      [("email", LoginEmail(cfg.username)), ("password", cfg.password), ("remember", "False")])
  }

  /** The token in the endpoint's answer: `csrf_token`, or `csrfToken` when
      the first is missing or falsy. */
  function TokenField(f: map<string, Json>): Json {
    OrElse(GetOr(f, "csrf_token", JNull), GetOr(f, "csrfToken", JNull))
  }

  /** Step 1: the home page, then the token from the jar or from the token
      endpoint, which puts it into the jar. */
  function AcquireCsrf(w: Wire, cfg: Config): (res: (Wire, Result<string, LoginError>))
  {
    var (w1, home) := Exchange(w, HomeRequest(cfg));
    if home.TransportError? then (w1, Failure(Unreachable))
    else if HasCookie(w1, "csrftoken") then (w1, Success(w1.cookies["csrftoken"]))
    else
      var (w2, r) := Exchange(w1, CsrfRequest(cfg));
      if r.TransportError? then (w2, Failure(Unreachable))
      else if r.status != 200 then (w2, Failure(CsrfStatus(r.status)))
      else
        match r.body
        case Parsed(JObj(f)) =>
          var t := TokenField(f);
          if !Truthy(t) then (w2, Failure(CsrfMissing))
          else if !t.JStr? then (w2, Failure(Malformed))
          else (w2.(cookies := w2.cookies["csrftoken" := t.s]), Success(t.s))
        case _ => (w2, Failure(Malformed))
  }

  /** The message reported for a refused login: the `value` member of a JSON
      answer, else its `error` member, else the raw text. */
  function RejectionMessage(text: string, body: Body): Json {
    match body
    case Parsed(JObj(f)) => GetOr(f, "value", GetOr(f, "error", JStr(text)))
    case _ => JStr(text)
  }

  /** Step 2: post the credentials; 200 or 201 with a body that is not JSON, or
      with a JSON object whose `success` is truthy, is a successful login. */
  function SubmitLogin(w: Wire, cfg: Config, token: string): (res: (Wire, Result<(), LoginError>))
  {
    var (w1, r) := Exchange(w, LoginRequest(cfg, token));
    if r.TransportError? then (w1, Failure(Unreachable))
    else if r.status != 200 && r.status != 201 then
      (w1, Failure(Rejected(r.status, RejectionMessage(r.text, r.body))))
    else
      match r.body
      case NotJson => (w1, Success(()))
      case Parsed(JObj(f)) =>
        if Truthy(GetOr(f, "success", JBool(false))) then (w1, Success(()))
        else (w1, Failure(Refused(GetOr(f, "value", JStr("Неизвестная ошибка аутентификации")))))
      case Parsed(_) => (w1, Failure(Malformed))
  }

  /** Step 3: the API defaults, without any `Authorization` header. */
  function FinalHeaders(h: map<string, string>, cfg: Config, token: string): map<string, string> {
    WithHeaders(h, ApiHeaders(cfg, token)) - {"authorization"}
  }

  function InitialHeaders(): map<string, string> {
    WithHeaders(map[], BrowserHeaders)
  }

  /** Steps 1 and 2 on a session in state `w`. */
  function SignInFlow(w: Wire, cfg: Config): (res: (Wire, Result<SignedIn, LoginError>))
  {
    var (w1, t) := AcquireCsrf(w, cfg);
    if t.Failure? then (w1, Failure(t.error))
    else
      var (w2, ok) := SubmitLogin(w1, cfg, t.value);
      if ok.Failure? then (w2, Failure(ok.error))
      else (w2, Success(SignedIn(t.value, MissingCookies(w2.cookies, RequiredCookies))))
  }

  /** The whole sign-in on a new session whose server answers with `script`. */
  function LoginFlow(cfg: Config, script: seq<Reply>): (res: (Wire, Result<SignedIn, LoginError>))
  {
    SignInFlow(Wire(map[], script, []), cfg)
  }

  /** The session's default headers once the sign-in is over. */
  function SessionHeaders(cfg: Config, result: Result<SignedIn, LoginError>): map<string, string> {
    if result.Success? then FinalHeaders(InitialHeaders(), cfg, result.value.token)
    else InitialHeaders()
  }

  method AcquireCsrfToken(s: Session, cfg: Config) returns (t: Result<string, LoginError>)
    modifies s
    ensures (s.State(), t) == AcquireCsrf(old(s.State()), cfg)
    ensures s.headers == old(s.headers)
  {
    var home := s.Send(HomeRequest(cfg));
    if home.TransportError? {
      return Failure(Unreachable);
    }
    if "csrftoken" in s.cookies && s.cookies["csrftoken"] != "" {
      return Success(s.cookies["csrftoken"]);
    }
    var r := s.Send(CsrfRequest(cfg));
    if r.TransportError? {
      return Failure(Unreachable);
    }
    if r.status != 200 {
      return Failure(CsrfStatus(r.status));
    }
    if !(r.body.Parsed? && r.body.doc.JObj?) {
      return Failure(Malformed);
    }
    var f := r.body.doc.fields;
    var token := TokenField(f);
    if !Truthy(token) {
      return Failure(CsrfMissing);
    }
    if !token.JStr? {
      return Failure(Malformed);
    }
    s.SetCookie("csrftoken", token.s);
    return Success(token.s);
  }

  method SubmitCredentials(s: Session, cfg: Config, token: string) returns (ok: Result<(), LoginError>)
    modifies s
    ensures (s.State(), ok) == SubmitLogin(old(s.State()), cfg, token)
    ensures s.headers == old(s.headers)
  {
    var r := s.Send(LoginRequest(cfg, token));
    if r.TransportError? {
      return Failure(Unreachable);
    }
    if r.status != 200 && r.status != 201 {
      return Failure(Rejected(r.status, RejectionMessage(r.text, r.body)));
    }
    match r.body {
      case NotJson =>
        ok := Success(());
      case Parsed(doc) =>
        if !doc.JObj? {
          ok := Failure(Malformed);
        } else if Truthy(GetOr(doc.fields, "success", JBool(false))) {
          ok := Success(());
        } else {
          ok := Failure(Refused(GetOr(doc.fields, "value", JStr("Неизвестная ошибка аутентификации"))));
        }
    }
  }

  lemma AuthorizationKey()
    ensures AsciiLower("Authorization") == "authorization"
  {
  }

  /** Steps 1 to 3 on an existing session. */
  method SignIn(s: Session, cfg: Config) returns (result: Result<SignedIn, LoginError>)
    modifies s
    ensures (s.State(), result) == SignInFlow(old(s.State()), cfg)
    ensures s.headers == if result.Success? then FinalHeaders(old(s.headers), cfg, result.value.token) else old(s.headers)
  {
    var t := AcquireCsrfToken(s, cfg);
    if t.Failure? {
      return Failure(t.error);
    }
    var ok := SubmitCredentials(s, cfg, t.value);
    if ok.Failure? {
      return Failure(ok.error);
    }
    var missing := MissingCookies(s.cookies, RequiredCookies);
    s.UpdateHeaders(ApiHeaders(cfg, t.value));
    ghost var updated := s.headers;
    AuthorizationKey();
    if "authorization" in s.headers {
      s.DeleteHeader("Authorization");
    } else {
      assert s.headers == updated - {"authorization"};
    }
    return Success(SignedIn(t.value, missing));
  }

  /** `create_session_with_login`: the new session in every case, and whether
      the sign-in succeeded. */
  method CreateSessionWithLogin(cfg: Config, script: seq<Reply>)
    returns (s: Session, result: Result<SignedIn, LoginError>)
    ensures fresh(s)
    ensures (s.State(), result) == LoginFlow(cfg, script)
    ensures s.headers == SessionHeaders(cfg, result)
  {
    s := new Session(script);
    s.UpdateHeaders(BrowserHeaders);
    result := SignIn(s, cfg);
  }

  /** A reply to the credentials that counts as a successful login. */
  predicate LoginAccepted(r: Reply) {
    && r.Response? && (r.status == 200 || r.status == 201)
    && match r.body
       case NotJson => true
       case Parsed(doc) => doc.JObj? && Truthy(GetOr(doc.fields, "success", JBool(false)))
  }

  /** What step 1 sends and consumes, and that a token it yields is non-empty. */
  lemma AcquiredToken(w: Wire, cfg: Config)
    ensures var (w1, t) := AcquireCsrf(w, cfg);
      && (w1.sent == w.sent + [HomeRequest(cfg)] || w1.sent == w.sent + [HomeRequest(cfg), CsrfRequest(cfg)])
      && w1.pending == Skip(w.pending, |w1.sent| - |w.sent|)
      && (t.Success? ==> t.value != "")
      && (t.Success? ==> "csrftoken" in w1.cookies && w1.cookies["csrftoken"] == t.value)
      && (w1.sent == w.sent + [HomeRequest(cfg), CsrfRequest(cfg)] <==>
            w.pending != [] && w.pending[0].Response? && !HasCookie(Exchange(w, HomeRequest(cfg)).0, "csrftoken"))
  {
    var (w1, home) := Exchange(w, HomeRequest(cfg));
    SkipSkip(w.pending, 1, 1);
  }

  /** The credentials are posted at most once, as the last request, and never
      without a non-empty CSRF token; every earlier request is a GET. A
      successful sign-in posted them with the token it keeps. */
  lemma {:induction false} PostOnlyWithToken(cfg: Config, script: seq<Reply>)
    ensures var (w, r) := LoginFlow(cfg, script);
      && 1 <= |w.sent| <= 3 && w.sent[0] == HomeRequest(cfg)
      && (forall i :: 0 <= i < |w.sent| - 1 ==> w.sent[i].verb == GET)
      && (w.sent[|w.sent| - 1].verb == POST ==>
            exists t :: t != "" && w.sent[|w.sent| - 1] == LoginRequest(cfg, t))
      && (r.Success? ==> r.value.token != "" && w.sent[|w.sent| - 1] == LoginRequest(cfg, r.value.token))
  {
    var w0 := Wire(map[], script, []);
    var (w1, t) := AcquireCsrf(w0, cfg);
    AcquiredToken(w0, cfg);
    if t.Success? {
      var (w2, ok) := SubmitLogin(w1, cfg, t.value);
      assert w2.sent == w1.sent + [LoginRequest(cfg, t.value)];
      assert LoginFlow(cfg, script).0 == w2;
      assert w2.sent[|w2.sent| - 1] == LoginRequest(cfg, t.value);
    } else {
      assert LoginFlow(cfg, script) == (w1, Failure(t.error));
    }
  }

  lemma SubmitAccepted(w: Wire, cfg: Config, token: string)
    ensures SubmitLogin(w, cfg, token).1.Success? <==> (w.pending != [] && LoginAccepted(w.pending[0]))
  {
  }

  /** Signed in exactly when the credentials were posted and the reply to that
      post was accepted. */
  lemma {:induction false} SignedInIff(cfg: Config, script: seq<Reply>)
    ensures var sent := LoginFlow(cfg, script).0.sent;
      |sent| >= 1 &&
      (LoginFlow(cfg, script).1.Success? <==>
        (sent[|sent| - 1].verb == POST && |sent| <= |script| && LoginAccepted(script[|sent| - 1])))
  {
    var w0 := Wire(map[], script, []);
    var (w1, t) := AcquireCsrf(w0, cfg);
    AcquiredToken(w0, cfg);
    if t.Success? {
      var (w2, ok) := SubmitLogin(w1, cfg, t.value);
      assert w2.sent == w1.sent + [LoginRequest(cfg, t.value)];
      SubmitAccepted(w1, cfg, t.value);
      assert LoginFlow(cfg, script) == (w2, if ok.Failure? then Failure(ok.error) else
        Success(SignedIn(t.value, MissingCookies(w2.cookies, RequiredCookies))));
    } else {
      assert LoginFlow(cfg, script) == (w1, Failure(t.error));
    }
  }

  /** With no server at all only the home page is attempted. */
  lemma NoServer(cfg: Config)
    ensures LoginFlow(cfg, []).0.sent == [HomeRequest(cfg)]
    ensures LoginFlow(cfg, []).1 == Failure(Unreachable)
  {
  }

  /** When the home page sets the token cookie, the token endpoint is skipped
      and that very token goes with the credentials. */
  lemma TokenFromHomePage(cfg: Config, script: seq<Reply>)
    requires |script| >= 2 && script[0].Response?
    requires "csrftoken" in script[0].setCookies && script[0].setCookies["csrftoken"] != ""
    ensures LoginFlow(cfg, script).0.sent ==
      [HomeRequest(cfg), LoginRequest(cfg, script[0].setCookies["csrftoken"])]
  {
    var w0 := Wire(map[], script, []);
    var w1 := Exchange(w0, HomeRequest(cfg)).0;
    assert w1.cookies["csrftoken"] == script[0].setCookies["csrftoken"];
    assert AcquireCsrf(w0, cfg) == (w1, Success(script[0].setCookies["csrftoken"]));
  }

  /** The home page of a new session sets no token cookie. */
  predicate NoHomeToken(script: seq<Reply>) {
    && script != [] && script[0].Response?
    && !("csrftoken" in script[0].setCookies && script[0].setCookies["csrftoken"] != "")
  }

  /** Without a token cookie from the home page, the endpoint's token goes
      with the credentials, and a sign-in that succeeds keeps it. */
  lemma TokenFromEndpoint(cfg: Config, script: seq<Reply>)
    requires |script| >= 3 && NoHomeToken(script)
    requires script[1].Response? && script[1].status == 200
    requires script[1].body.Parsed? && script[1].body.doc.JObj?
    requires var t := TokenField(script[1].body.doc.fields); t.JStr? && t.s != ""
    ensures var t := TokenField(script[1].body.doc.fields).s;
      && LoginFlow(cfg, script).0.sent == [HomeRequest(cfg), CsrfRequest(cfg), LoginRequest(cfg, t)]
      && (LoginFlow(cfg, script).1.Success? ==> LoginFlow(cfg, script).1.value.token == t)
  {
    var w0 := Wire(map[], script, []);
    var w1 := Exchange(w0, HomeRequest(cfg)).0;
    assert !HasCookie(w1, "csrftoken");
    var w2 := Exchange(w1, CsrfRequest(cfg)).0;
    var t := TokenField(script[1].body.doc.fields).s;
    var wa := w2.(cookies := w2.cookies["csrftoken" := t]);
    assert AcquireCsrf(w0, cfg) == (wa, Success(t));
    var (w3, ok) := SubmitLogin(wa, cfg, t);
    assert w3.sent == wa.sent + [LoginRequest(cfg, t)];
    assert LoginFlow(cfg, script) == (w3, if ok.Failure? then Failure(ok.error) else
      Success(SignedIn(t, MissingCookies(w3.cookies, RequiredCookies))));
  }

  /** Without a token cookie from the home page, an endpoint answer other
      than 200 fails the sign-in with that status, before any post. */
  lemma EndpointStatusFails(cfg: Config, script: seq<Reply>)
    requires |script| >= 2 && NoHomeToken(script)
    requires script[1].Response? && script[1].status != 200
    ensures LoginFlow(cfg, script).0.sent == [HomeRequest(cfg), CsrfRequest(cfg)]
    ensures LoginFlow(cfg, script).1 == Failure(CsrfStatus(script[1].status))
  {
    var w0 := Wire(map[], script, []);
    var w1 := Exchange(w0, HomeRequest(cfg)).0;
    assert !HasCookie(w1, "csrftoken");
    var w2 := Exchange(w1, CsrfRequest(cfg)).0;
    assert AcquireCsrf(w0, cfg) == (w2, Failure(CsrfStatus(script[1].status)));
  }

  /** Without a token cookie from the home page, an endpoint answer with
      neither token member truthy fails the sign-in, before any post. */
  lemma EndpointTokenMissing(cfg: Config, script: seq<Reply>)
    requires |script| >= 2 && NoHomeToken(script)
    requires script[1].Response? && script[1].status == 200
    requires script[1].body.Parsed? && script[1].body.doc.JObj?
    requires !Truthy(TokenField(script[1].body.doc.fields))
    ensures LoginFlow(cfg, script).0.sent == [HomeRequest(cfg), CsrfRequest(cfg)]
    ensures LoginFlow(cfg, script).1 == Failure(CsrfMissing)
  {
    var w0 := Wire(map[], script, []);
    var w1 := Exchange(w0, HomeRequest(cfg)).0;
    assert !HasCookie(w1, "csrftoken");
    var w2 := Exchange(w1, CsrfRequest(cfg)).0;
    assert AcquireCsrf(w0, cfg) == (w2, Failure(CsrfMissing));
  }

  lemma ApiHeaderNames()
    ensures AsciiLower("Accept") == "accept"
    ensures AsciiLower("X-Requested-With") == "x-requested-with"
    ensures AsciiLower("Content-Type") == "content-type"
    ensures AsciiLower("USE-JWT-COOKIE") == "use-jwt-cookie"
    ensures AsciiLower("Origin") == "origin"
    ensures AsciiLower("X-CSRFToken") == "x-csrftoken"
  {
  }

  /** After the sign-in the defaults are the JSON API headers with the given
      token, whatever they were before, and hold no `Authorization` header. */
  lemma FinalHeadersShape(h: map<string, string>, cfg: Config, token: string)
    ensures var f := FinalHeaders(h, cfg, token);
      && "authorization" !in f
      && "accept" in f && f["accept"] == JsonAccept
      && "x-requested-with" in f && f["x-requested-with"] == "XMLHttpRequest"
      && "content-type" in f && f["content-type"] == FormContentType
      && "use-jwt-cookie" in f && f["use-jwt-cookie"] == "true"
      && "origin" in f && f["origin"] == cfg.base
      && "x-csrftoken" in f && f["x-csrftoken"] == token
  {
    var api := ApiHeaders(cfg, token);
    ApiHeaderNames();
    WithHeadersLookup(h, api, 0);
    WithHeadersLookup(h, api, 1);
    WithHeadersLookup(h, api, 2);
    WithHeadersLookup(h, api, 3);
    WithHeadersLookup(h, api, 4);
    WithHeadersLookup(h, api, 5);
  }
}
