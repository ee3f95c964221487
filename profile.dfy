/** Finding out what the signed-in account may do (main.py, get_user_info): the
    account endpoint first, then the profile page, then the admin site. Any
    failure ends in an assumption of ordinary rights; it never raises. */
module Profile {
  import opened Common
  import opened Http
  import opened Login

  function MeRequest(cfg: Config): Request {
    Request(GET, cfg.base + "/api/user/v1/me", [], [], [])
  }

  function ProfileRequest(cfg: Config): Request {
    Request(GET, cfg.base + "/u/" + cfg.username, [], [], [])
  }

  function AdminRequest(cfg: Config): Request {
    Request(GET, cfg.base + "/admin/", [], [], [])
  }

  /** The record the probe builds itself when the account endpoint gives no
      usable answer. */
  function Assumed(cfg: Config, staff: bool, superuser: bool): (info: Json)
    ensures info.JObj? && "is_superuser" in info.fields && info.fields["is_superuser"] == JBool(superuser)
    ensures "is_staff" in info.fields && info.fields["is_staff"] == JBool(staff)
  {
    JObj(map["username" := JStr(cfg.username), "is_staff" := JBool(staff), "is_superuser" := JBool(superuser)])
  }

  /** The account endpoint answered 200 with a JSON object: that object is the answer. */
  predicate AccountAnswer(r: Reply) {
    r.Response? && r.status == 200 && r.body.Parsed? && r.body.doc.JObj?
  }

  predicate Answered(r: Reply) {
    r.Response? && r.status == 200
  }

  /** The probe ladder on a session in state `w`. A 200 from the account
      endpoint whose body is JSON but not an object makes the code fail on
      `.get`, which ends in the default. */
  function UserInfoFlow(w: Wire, cfg: Config): (res: (Wire, Json))
  {
    var (w1, me) := Exchange(w, MeRequest(cfg));
    if me.TransportError? then (w1, Assumed(cfg, false, false))
    else if me.status == 200 && me.body.Parsed? then
      (w1, if me.body.doc.JObj? then me.body.doc else Assumed(cfg, false, false))
    else
      var (w2, profile) := Exchange(w1, ProfileRequest(cfg));
      if profile.TransportError? then (w2, Assumed(cfg, false, false))
      else if profile.status == 200 then (w2, Assumed(cfg, true, false))
      else
        var (w3, admin) := Exchange(w2, AdminRequest(cfg));
        if Answered(admin) then (w3, Assumed(cfg, true, true))
        else (w3, Assumed(cfg, false, false))
  }

  method GetUserInfo(s: Session, cfg: Config) returns (info: Json)
    modifies s
    ensures (s.State(), info) == UserInfoFlow(old(s.State()), cfg)
    ensures s.headers == old(s.headers)
  {
    var me := s.Send(MeRequest(cfg));
    if me.TransportError? {
      return Assumed(cfg, false, false);
    }
    if me.status == 200 && me.body.Parsed? {
      if me.body.doc.JObj? {
        return me.body.doc;
      }
      return Assumed(cfg, false, false);
    }
    var profile := s.Send(ProfileRequest(cfg));
    if profile.TransportError? {
      return Assumed(cfg, false, false);
    }
    if profile.status == 200 {
      return Assumed(cfg, true, false);
    }
    var admin := s.Send(AdminRequest(cfg));
    if admin.Response? && admin.status == 200 {
      return Assumed(cfg, true, true);
    }
    return Assumed(cfg, false, false);
  }

  /** The probes that were sent: a non-empty prefix of account, profile,
      admin, with one reply consumed for each. */
  function Probes(cfg: Config): seq<Request> {
    [MeRequest(cfg), ProfileRequest(cfg), AdminRequest(cfg)]
  }

  /** The probe always answers with a JSON object, sends one to three GETs in
      the fixed order and consumes one reply per request. */
  lemma UserInfoRequests(w: Wire, cfg: Config)
    ensures var (w1, info) := UserInfoFlow(w, cfg);
      var n := |w1.sent| - |w.sent|;
      && info.JObj?
      && 1 <= n <= 3
      && w1.sent == w.sent + Probes(cfg)[..n]
      && w1.pending == Skip(w.pending, n)
  {
    var p := Probes(cfg);
    assert p[..1] == [MeRequest(cfg)];
    assert p[..2] == [MeRequest(cfg), ProfileRequest(cfg)];
    assert p[..3] == p;
    SkipSkip(w.pending, 1, 1);
    SkipSkip(w.pending, 2, 1);
  }

  /** An account-endpoint answer that is a JSON object is passed on as it is,
      after a single request. */
  lemma AccountAnswerVerbatim(w: Wire, cfg: Config)
    requires w.pending != [] && AccountAnswer(w.pending[0])
    ensures UserInfoFlow(w, cfg).1 == w.pending[0].body.doc
    ensures UserInfoFlow(w, cfg).0.sent == w.sent + [MeRequest(cfg)]
  {
  }

  /** Superuser rights are never assumed unless the admin site itself answered
      200 as the third reply. */
  lemma SuperuserNeedsAdminSite(w: Wire, cfg: Config)
    requires !(w.pending != [] && AccountAnswer(w.pending[0]))
    requires UserInfoFlow(w, cfg).1 == Assumed(cfg, true, true)
    ensures |w.pending| >= 3 && Answered(w.pending[2])
    ensures UserInfoFlow(w, cfg).0.sent == w.sent + Probes(cfg)
  {
    var (w1, me) := Exchange(w, MeRequest(cfg));
    var (w2, profile) := Exchange(w1, ProfileRequest(cfg));
    assert Assumed(cfg, true, true).fields["is_superuser"] == JBool(true);
  }
}
