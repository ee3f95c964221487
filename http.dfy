/** The HTTP client the scripts talk to the platform through: a session that
    keeps cookies and default headers across requests. The server is not
    modelled; it is a script of replies, one consumed per request, and the
    session keeps a log of the requests it sent. */
module Http {
  import opened Common
  import opened Text

  datatype Verb = GET | POST

  /** One request: query parameters, the headers given for this request only,
      and a URL-encoded form body. */
  datatype Request = Request(
    verb: Verb,
    url: string,
    params: seq<(string, int)>,
    headers: seq<(string, string)>,
    form: seq<(string, string)>)

  /** What `response.json()` makes of a body. */
  datatype Body = NotJson | Parsed(doc: Json)

  /** A reply from the server, or a failure of the transport (connection
      refused, timeout), which the client raises as an exception. */
  datatype Reply =
    | Response(status: int, text: string, body: Body, setCookies: map<string, string>)
    | TransportError

  /** `response.raise_for_status()` raises for client and server errors. */
  predicate RaisesForStatus(status: int) {
    400 <= status < 600
  }

  /** The part of a session that requests read and change. */
  datatype Wire = Wire(cookies: map<string, string>, pending: seq<Reply>, sent: seq<Request>)

  /** The script once `n` replies have been consumed. */
  function Skip(p: seq<Reply>, n: nat): (r: seq<Reply>)
    ensures n < |p| ==> r != [] && r[0] == p[n]
    ensures n >= |p| ==> r == []
  {
    if n <= |p| then p[n..] else []
  }

  lemma SkipSkip(p: seq<Reply>, a: nat, b: nat)
    ensures Skip(Skip(p, a), b) == Skip(p, a + b)
  {
  }

  /** Sending one request: it is logged, the next scripted reply answers it
      and the cookies that reply sets join the jar. An exhausted script reads
      as a transport failure. */
  function Exchange(w: Wire, req: Request): (res: (Wire, Reply))
    ensures res.0.sent == w.sent + [req]
    ensures res.0.pending == Skip(w.pending, 1)
    ensures w.pending == [] ==> res.1 == TransportError && res.0.pending == [] && res.0.cookies == w.cookies
    ensures w.pending != [] ==> res.1 == w.pending[0] && res.0.pending == w.pending[1..]
    ensures res.1.Response? ==> res.0.cookies == w.cookies + res.1.setCookies
    ensures res.1.TransportError? ==> res.0.cookies == w.cookies
  {
    if w.pending == [] then (w.(sent := w.sent + [req]), TransportError)
    else
      var reply := w.pending[0];
      var jar := if reply.Response? then w.cookies + reply.setCookies else w.cookies;
      (Wire(jar, w.pending[1..], w.sent + [req]), reply)
  }

  /** `session.cookies.get(name)` is truthy: present and not empty. */
  predicate HasCookie(w: Wire, name: string) {
    name in w.cookies && w.cookies[name] != ""
  }

  /** `session.headers.update(updates)`: header names compare without regard
      to ASCII case, so they are stored lower-cased; later entries win. */
  function WithHeaders(h: map<string, string>, updates: seq<(string, string)>): (r: map<string, string>)
    ensures forall k :: k in h ==> k in r
    decreases |updates|
  {
    if updates == [] then h
    else
      var last := updates[|updates| - 1];
      WithHeaders(h, updates[..|updates| - 1])[AsciiLower(last.0) := last.1]
  }

  /** After an update a header holds the value of its last entry in the
      update, and every header the update does not name keeps its value. */
  lemma {:induction false} WithHeadersLookup(h: map<string, string>, updates: seq<(string, string)>, i: nat)
    requires i < |updates|
    requires forall j :: i < j < |updates| ==> AsciiLower(updates[j].0) != AsciiLower(updates[i].0)
    ensures AsciiLower(updates[i].0) in WithHeaders(h, updates)
    ensures WithHeaders(h, updates)[AsciiLower(updates[i].0)] == updates[i].1
    decreases |updates|
  {
    if i < |updates| - 1 {
      WithHeadersLookup(h, updates[..|updates| - 1], i);
    }
  }

  lemma {:induction false} WithHeadersKeeps(h: map<string, string>, updates: seq<(string, string)>, k: string)
    requires k in h
    requires forall j :: 0 <= j < |updates| ==> AsciiLower(updates[j].0) != k
    ensures WithHeaders(h, updates)[k] == h[k]
    decreases |updates|
  {
    if updates != [] {
      WithHeadersKeeps(h, updates[..|updates| - 1], k);
    }
  }

  /** A `requests.Session`: its cookie jar, its default headers, and (for the
      model) the replies still to come and the requests already sent. */
  class Session {
    var cookies: map<string, string>
    var headers: map<string, string>
    var pending: seq<Reply>
    var sent: seq<Request>

    function State(): Wire
      reads this
    {
      Wire(cookies, pending, sent)
    }

    /** A new session: empty jar, no headers, nothing sent. */
    constructor(script: seq<Reply>)
      ensures cookies == map[] && headers == map[] && pending == script && sent == []
    {
      cookies := map[];
      headers := map[];
      pending := script;
      sent := [];
    }

    method Send(req: Request) returns (reply: Reply)
      modifies this
      ensures (State(), reply) == Exchange(old(State()), req)
      ensures headers == old(headers)
    {
      var step := Exchange(State(), req);
      reply := step.1;
      cookies, pending, sent := step.0.cookies, step.0.pending, step.0.sent;
    }

    /** `session.cookies.set(name, value)`. */
    method SetCookie(name: string, value: string)
      modifies this
      ensures cookies == old(cookies)[name := value]
      ensures headers == old(headers) && pending == old(pending) && sent == old(sent)
    {
      cookies := cookies[name := value];
    }

    method UpdateHeaders(updates: seq<(string, string)>)
      modifies this
      ensures headers == WithHeaders(old(headers), updates)
      ensures State() == old(State())
    {
      headers := WithHeaders(headers, updates);
    }

    /** `del session.headers[name]`. */
    method DeleteHeader(name: string)
      modifies this
      ensures headers == old(headers) - {AsciiLower(name)}
      ensures State() == old(State())
    {
      headers := headers - {AsciiLower(name)};
    }
  }
}
