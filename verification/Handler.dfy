// The proxy handler as it runs: requests are decided and bound, hops answered and
// logins failed over, statement by statement on the store.
module Handler {
  import opened Prelude
  import opened Store
  import opened RouterModel
  import opened AffinityModel
  import opened LoginProofs
  import Health
  import Router

  class Handler {
    const rt: Router.Router

    constructor (rt: Router.Router)
      ensures this.rt == rt
    {
      this.rt := rt;
    }

    // Built from a validated configuration.
    ghost predicate Valid()
      reads rt, rt.flags, rt.st
    {
      rt.Valid() && UniqueNames(rt.cfg.backends)
    }

    // Up to the hop or the login, which follow the route.
    method ServeHTTP(req: Request, faults: Faults, now: int) returns (route: Route)
      requires Valid()
      modifies rt.st
      ensures Valid()
      ensures (rt.st.Contents(), route) == Arrive(rt.cfg, rt.World(), old(rt.st.Contents()), req, faults, now)
    {
      if IsStatusPath(req.path) {
        return NotProxied;
      }
      var d := rt.Decide(req, faults, now);
      if d.drop {
        rt.st.DeleteClient(req.id.token, req.id.deviceID);
      }
      if d.error.Some? {
        return Refused(d.error.value);
      }
      if d.backend.None? {
        return Refused(NoEligible);
      }
      if IsLoginPath(req.verb, req.path) {
        return TryLogin(d);
      }
      Bind(req, d.backend.value.name, now);
      return Forward(d.backend.value);
    }

    method Bind(req: Request, name: string, now: int)
      requires rt.st.Valid()
      modifies rt.st
      ensures rt.st.Valid()
      ensures rt.st.Contents() == BindRequest(old(rt.st.Contents()), req, name, now)
    {
      if req.id.deviceID != "" {
        rt.st.BindDevice(req.id.deviceID, name, req.id.client, now);
      } else {
        rt.st.BindAnon(AnonKey(req.ip, req.userAgent), name, now);
      }
      if req.id.token != "" {
        rt.st.BindToken(req.id.token, name, RequestMeta(req), now);
        rt.st.BindAnon(SessionKey(req.ip), name, now);
      }
    }

    // The store statements of ModifyResponse.
    method Respond(req: Request, status: int, path: string, now: int)
      requires rt.st.Valid()
      modifies rt.st
      ensures rt.st.Valid()
      ensures rt.st.Contents() == Answered(old(rt.st.Contents()), req, status, path, now)
    {
      if IsLogoutPath(req.verb, req.path) && Success(status) && req.id.token != "" {
        rt.st.DeleteToken(req.id.token);
      }
      rt.st.TouchToken(req.id.token, req.verb, path, status, now);
      rt.st.TouchDevice(req.id.deviceID, now);
    }

    method PeekLogin(req: Request, name: string, login: Login, now: int)
      requires rt.st.Valid()
      modifies rt.st
      ensures rt.st.Valid()
      ensures rt.st.Contents() == LoggedIn(old(rt.st.Contents()), req, name, login, now)
    {
      if login.token == "" {
        return;
      }
      var meta := Meta(login.userID, login.username, req.id.deviceID, req.id.client, req.id.device, req.id.version);
      if login.sessionDevice != "" {
        meta := meta.(deviceID := login.sessionDevice);
      }
      rt.st.BindToken(login.token, name, meta, now);
      if meta.deviceID != "" {
        rt.st.BindDevice(meta.deviceID, name, meta.client, now);
      }
      if req.ip != "" {
        rt.st.BindAnon(SessionKey(req.ip), name, now);
      }
    }

    // The fail-over loop.  Each eligible backend is tried at most once, in the order of
    // the candidates; only a successful answer binds, and to the backend that gave it.
    method Login(req: Request, d: Decision, hint: string, answers: map<string, HopResult>, now: int)
      returns (end: LoginEnd, hops: seq<Hop>)
      requires Valid() && d.backend.Some?
      modifies rt.st, rt.mon`fails
      ensures Valid()
      ensures var cands := LoginCandidates(rt.cfg, rt.World(), LoginPreferred(d, hint));
        && end == LoginOver(cands, answers)
        && rt.mon.Contents() == Charge(rt.mon.cfg, old(rt.mon.Contents()), Blamed(cands, answers, 0), now)
        && hops == LoginHops(cands, answers, 0, req.id.token)
      ensures rt.st.Contents() == LoginBinds(old(rt.st.Contents()), req, end, answers, now)
      ensures forall i, j :: 0 <= i < j < |hops| ==> hops[i].to.name != hops[j].to.name
      ensures forall h :: h in hops ==> h.to in rt.cfg.backends && Takes(rt.cfg, rt.World(), h.to.name)
    {
      var preferred := d.backend.value.name;
      if !d.kind.TokenKind? && hint != "" {
        preferred := hint;
      }
      var cands := rt.CandidatesFor(preferred);
      if |cands| == 0 {
        return NoCandidates, [];
      }
      end, hops := TryAll(req, cands, answers, now);
      HopsAreEligible(rt.cfg, rt.World(), preferred, answers, req.id.token);
    }

    // What an answer that ends the loop does.
    method Conclude(req: Request, name: string, status: int, login: Option<Login>, now: int)
      requires rt.st.Valid()
      modifies rt.st, rt.mon`fails
      ensures rt.st.Valid()
      ensures rt.st.Contents() ==
        if Success(status) && login.Some? then LoggedIn(old(rt.st.Contents()), req, name, login.value, now)
        else old(rt.st.Contents())
      ensures rt.mon.Contents() ==
        if status >= 500 then Health.Step(rt.mon.cfg, old(rt.mon.Contents()), Health.Failure(name, now))
        else old(rt.mon.Contents())
    {
      if Success(status) && login.Some? {
        PeekLogin(req, name, login.value, now);
      }
      if status >= 500 {
        rt.mon.RecordAuthFailure(name, now);
      }
    }

    method TryAll(req: Request, cands: seq<Backend>, answers: map<string, HopResult>, now: int)
      returns (end: LoginEnd, hops: seq<Hop>)
      requires rt.st.Valid()
      modifies rt.st, rt.mon`fails
      ensures rt.st.Valid()
      ensures end == LoginFrom(cands, answers, 0, false)
      ensures rt.mon.Contents() == Charge(rt.mon.cfg, old(rt.mon.Contents()), Blamed(cands, answers, 0), now)
      ensures hops == LoginHops(cands, answers, 0, req.id.token)
      ensures rt.st.Contents() == LoginBinds(old(rt.st.Contents()), req, end, answers, now)
    {
      hops := [];
      var lastStatus := 0;
      ghost var charged := Charge(rt.mon.cfg, rt.mon.Contents(), Blamed(cands, answers, 0), now);
      for i := 0 to |cands|
        invariant hops + LoginHops(cands, answers, i, req.id.token) == LoginHops(cands, answers, 0, req.id.token)
        invariant lastStatus == 0 || lastStatus == 401
        invariant LoginFrom(cands, answers, i, lastStatus == 401) == LoginFrom(cands, answers, 0, false)
        invariant Charge(rt.mon.cfg, rt.mon.Contents(), Blamed(cands, answers, i), now) == charged
        invariant rt.st.Contents() == old(rt.st.Contents())
      {
        var b := cands[i];
        var res := AnswerOf(answers, b);
        LoopStep(cands, answers, i, req.id.token, hops);
        hops := hops + [Hop(b, req.id.token)];
        if res.NoResponse? {
          rt.mon.RecordAuthFailure(b.name, now);
          continue;
        }
        lastStatus := res.status;
        if res.status == 401 && i < |cands| - 1 {
          continue;
        }
        Conclude(req, b.name, res.status, res.login, now);
        return FromBackend(b.name, res.status), hops;
      }
      if lastStatus == 401 {
        return LoginFailed, hops;
      }
      return Unreachable, hops;
    }
  }

  // One round of the loop.
  lemma LoopStep(cands: seq<Backend>, answers: map<string, HopResult>, i: nat, token: string, hops: seq<Hop>)
    requires i < |cands|
    ensures var rest := if Stops(cands, answers, i) then [] else LoginHops(cands, answers, i + 1, token);
      hops + LoginHops(cands, answers, i, token) == hops + [Hop(cands[i], token)] + rest
    ensures AnswerOf(answers, cands[i]).NoResponse? ==>
      Blamed(cands, answers, i) == [cands[i].name] + Blamed(cands, answers, i + 1)
      && Blamed(cands, answers, i)[1..] == Blamed(cands, answers, i + 1)
  {
  }
}
