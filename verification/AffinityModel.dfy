// What a proxied request does to the affinity store: its arrival (decision and
// bindings), the response to its hop, and the login fail-over.
module AffinityModel {
  import opened Prelude
  import opened Text
  import opened Paths
  import opened Store
  import opened RouterModel
  import Health

  /* Paths */

  predicate IsLoginPath(verb: string, path: string) {
    var p := ToLower(path);
    && EqualFold(verb, "post")
    && (|| HasSuffix(p, "/users/authenticatebyname") || HasSuffix(p, "/users/authenticatewithquickconnect")
        || Contains(p, "/quickconnect/connect"))
  }

  predicate IsLogoutPath(verb: string, path: string) {
    var p := ToLower(path);
    && (EqualFold(verb, "post") || EqualFold(verb, "delete"))
    && (HasSuffix(p, "/sessions/logout") || Contains(p, "/sessions/logout"))
  }

  predicate IsStatusPath(path: string) {
    var p := ToLower(path);
    (|p| >= 5 && p[..5] == "/hap/") || p == "/metrics"
  }

  predicate IsGuid(s: string) {
    && |s| == 36
    && forall i :: 0 <= i < 36 ==> if i == 8 || i == 13 || i == 18 || i == 23 then s[i] == '-' else IsHex(s[i])
  }

  function PathUserID(path: string): (id: string)
    ensures id != "" ==> IsGuid(id)
  {
    if |path| < 7 || ToLower(path[..7]) != "/users/" then ""
    else
      var rest := path[7..];
      var id := rest[..IndexByte(rest, '/')];
      if IsGuid(id) then id else ""
  }

  // Exactly the GUID between "/users/", in any case, and the next '/' or the end.
  lemma PathUserIDIsSegment(path: string, id: string)
    requires id != ""
    ensures PathUserID(path) == id <==>
      && IsGuid(id) && |path| >= 7 + |id| && ToLower(path[..7]) == "/users/" && path[7..7 + |id|] == id
      && (|path| == 7 + |id| || path[7 + |id|] == '/')
  {
    if |path| >= 7 {
      var rest := path[7..];
      var n := IndexByte(rest, '/');
      if IsGuid(id) && |path| >= 7 + |id| && path[7..7 + |id|] == id {
        assert rest[..|id|] == id;
        assert forall i :: 0 <= i < |id| ==> rest[i] == id[i] && rest[i] != '/';
      }
      if n < |rest| {
        assert path[7 + n] == '/';
      }
      assert rest[..n] == path[7..7 + n];
    }
  }

  predicate Success(status: int) {
    200 <= status < 300
  }

  /* Arrival */

  datatype Route = NotProxied | Refused(error: HapError) | Forward(to: Backend) | TryLogin(decision: Decision)

  function RequestMeta(req: Request): Meta {
    Meta(PathUserID(req.path), "", req.id.deviceID, req.id.client, req.id.device, req.id.version)
  }

  function BindRequest(db: Db, req: Request, name: string, now: int): Db {
    var db1 :=
      if req.id.deviceID != "" then BindDevice(db, req.id.deviceID, name, req.id.client, now)
      else BindAnon(db, AnonKey(req.ip, req.userAgent), name, now);
    if req.id.token == "" then db1
    else BindAnon(BindToken(db1, req.id.token, name, RequestMeta(req), now), SessionKey(req.ip), name, now)
  }

  // What follows a decision, in ServeHTTP's order.
  function Act(db: Db, req: Request, d: Decision, now: int): (Db, Route) {
    var db1 := if d.drop then DeleteClient(db, req.id.token, req.id.deviceID) else db;
    if d.error.Some? then (db1, Refused(d.error.value))
    else if d.backend.None? then (db1, Refused(NoEligible))
    else if IsLoginPath(req.verb, req.path) then (db1, TryLogin(d))
    else (BindRequest(db1, req, d.backend.value.name, now), Forward(d.backend.value))
  }

  ghost function Arrive(cfg: Config, w: World, db: Db, req: Request, faults: Faults, now: int): (Db, Route) {
    if IsStatusPath(req.path) then (db, NotProxied)
    else
      var (db1, d) := Decide(cfg, w, db, req, faults, now);
      Act(db1, req, d, now)
  }

  /* Responses */

  // The hop answered; path is the hop's own.
  function Answered(db: Db, req: Request, status: int, path: string, now: int): Db {
    var db1 := if IsLogoutPath(req.verb, req.path) && Success(status) then DeleteToken(db, req.id.token) else db;
    TouchDevice(TouchToken(db1, req.id.token, req.verb, path, status, now), req.id.deviceID, now)
  }

  // What a login response says; the token is its AccessToken.
  datatype Login = Login(token: string, userID: string, username: string, sessionDevice: string)

  function LoginMeta(req: Request, login: Login): Meta {
    Meta(login.userID, login.username, Or(login.sessionDevice, req.id.deviceID),
         req.id.client, req.id.device, req.id.version)
  }

  // peekLogin
  function LoggedIn(db: Db, req: Request, name: string, login: Login, now: int): Db {
    if login.token == "" then db
    else
      var meta := LoginMeta(req, login);
      var db1 := BindDevice(BindToken(db, login.token, name, meta, now), meta.deviceID, name, meta.client, now);
      if req.ip == "" then db1 else BindAnon(db1, SessionKey(req.ip), name, now)
  }

  /* Login fail-over */

  // login is None for a body without an AccessToken.
  datatype HopResult = NoResponse | Response(status: int, login: Option<Login>)

  function AnswerOf(answers: map<string, HopResult>, b: Backend): HopResult {
    if b.name in answers then answers[b.name] else NoResponse
  }

  // hint is the user_affinity backend of the body's user, "" for none.
  function LoginPreferred(d: Decision, hint: string): string
    requires d.backend.Some?
  {
    if d.kind.TokenKind? then d.backend.value.name else Or(hint, d.backend.value.name)
  }

  // The loop answers the client from candidate i.
  predicate Stops(cands: seq<Backend>, answers: map<string, HopResult>, i: nat)
    requires i < |cands|
  {
    var r := AnswerOf(answers, cands[i]);
    r.Response? && !(r.status == 401 && i < |cands| - 1)
  }

  datatype LoginEnd = NoCandidates | FromBackend(name: string, status: int) | LoginFailed | Unreachable

  // The status the client sees.
  function SeenStatus(end: LoginEnd): int {
    match end
    case NoCandidates => 503
    case FromBackend(_, status) => status
    case LoginFailed => 401
    case Unreachable => 503
  }

  // What the loop comes to from candidate i; saw401: a response so far, which was a 401.
  function LoginFrom(cands: seq<Backend>, answers: map<string, HopResult>, i: nat, saw401: bool): LoginEnd
    requires i <= |cands|
    decreases |cands| - i
  {
    if i == |cands| then if saw401 then LoginFailed else Unreachable
    else
      var r := AnswerOf(answers, cands[i]);
      if Stops(cands, answers, i) then FromBackend(cands[i].name, r.status)
      else LoginFrom(cands, answers, i + 1, saw401 || r.Response?)
  }

  function LoginOver(cands: seq<Backend>, answers: map<string, HopResult>): LoginEnd {
    if |cands| == 0 then NoCandidates else LoginFrom(cands, answers, 0, false)
  }

  // One hop of the loop.  Headers and URI of the request are copied, so the hop carries
  // the token the request came with.
  datatype Hop = Hop(to: Backend, token: string)

  // The hops from candidate i on.
  function LoginHops(cands: seq<Backend>, answers: map<string, HopResult>, i: nat, token: string): seq<Hop>
    requires i <= |cands|
    decreases |cands| - i
  {
    if i == |cands| then []
    else [Hop(cands[i], token)] + if Stops(cands, answers, i) then [] else LoginHops(cands, answers, i + 1, token)
  }

  // Only the answering backend binds, and only on success.
  function LoginBinds(db: Db, req: Request, end: LoginEnd, answers: map<string, HopResult>, now: int): Db {
    if end.FromBackend? && Success(end.status) && end.name in answers
       && answers[end.name].Response? && answers[end.name].login.Some?
    then LoggedIn(db, req, end.name, answers[end.name].login.value, now)
    else db
  }

  // The backends a login counts a failure against, from candidate i on: the silent
  // ones it skipped, and the one that answered if it answered 5xx.
  function Blamed(cands: seq<Backend>, answers: map<string, HopResult>, i: nat): seq<string>
    requires i <= |cands|
    decreases |cands| - i
  {
    if i == |cands| then []
    else
      var r := AnswerOf(answers, cands[i]);
      if Stops(cands, answers, i) then if r.status >= 500 then [cands[i].name] else []
      else if r.NoResponse? then [cands[i].name] + Blamed(cands, answers, i + 1)
      else Blamed(cands, answers, i + 1)
  }

  function Charge(cfg: Health.Config, s: Health.Sys, names: seq<string>, now: int): Health.Sys
    decreases |names|
  {
    if |names| == 0 then s
    else Charge(cfg, Health.Step(cfg, s, Health.Failure(names[0], now)), names[1..], now)
  }
}
