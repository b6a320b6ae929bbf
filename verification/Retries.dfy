// Where a token goes that no row binds: after a force_reauth drop, and after every
// other end of its epoch.
module Retries {
  import opened Prelude
  import opened Store
  import opened RouterModel
  import opened RouterProofs
  import opened AffinityModel
  import opened AffinityRuns
  import opened LoginProofs

  predicate LiveDevice(cfg: Config, db: Db, device: string, now: int) {
    device != "" && device in db.devices && !Expired(db.devices[device].seen, cfg.ttl.device, now)
  }

  predicate LiveAnon(cfg: Config, db: Db, key: AnonKey, now: int) {
    key in db.anons && !Expired(db.anons[key].seen, cfg.ttl.anon, now)
  }

  // No live row binds the token.
  predicate Rowless(cfg: Config, db: Db, req: Request, now: int) {
    && req.id.token != ""
    && (req.id.token in db.tokens ==> Expired(db.tokens[req.id.token].seen, cfg.ttl.token, now))
  }

  // What the lookups of its token and device leave of the store.
  function Looked(cfg: Config, db: Db, req: Request, now: int): Db {
    LookupDevice(cfg.ttl, LookupToken(cfg.ttl, db, req.id.token, now).0, req.id.deviceID, now).0
  }

  // The cookie, else the address.
  ghost function SessionGuide(cfg: Config, db: Db, req: Request, faults: Faults, now: int): Option<string> {
    if CookieFollows(cfg, db, faults.counts, req.cookie) then Some(req.cookie)
    else if LiveAnon(cfg, db, SessionKey(req.ip), now) then Some(db.anons[SessionKey(req.ip)].backend)
    else None
  }

  ghost function AnonGuide(cfg: Config, db: Db, req: Request, now: int): Option<string> {
    var key := AnonKey(req.ip, req.userAgent);
    if LiveAnon(cfg, db, key, now) then Some(db.anons[key].backend) else None
  }

  // The same two, on media paths, then the anonymous row.
  ghost function AddressGuide(cfg: Config, db: Db, req: Request, faults: Faults, now: int): Option<string> {
    var session := SessionGuide(cfg, db, req, faults, now);
    if IsSessionMediaPath(req.path) && session.Some? then session else AnonGuide(cfg, db, req, now)
  }

  // The backend such a request follows: that of the device row, else as above.
  ghost function Guide(cfg: Config, db: Db, req: Request, faults: Faults, now: int): Option<string> {
    var db' := Looked(cfg, db, req, now);
    if LiveDevice(cfg, db', req.id.deviceID, now) then Some(db'.devices[req.id.deviceID].backend)
    else AddressGuide(cfg, db', req, faults, now)
  }

  // The store reads on the way to that guide succeed.
  ghost predicate AddressReads(cfg: Config, db: Db, req: Request, faults: Faults, now: int) {
    var media := IsSessionMediaPath(req.path);
    && (media && !CookieFollows(cfg, db, faults.counts, req.cookie) ==> !faults.session)
    && (!(media && SessionGuide(cfg, db, req, faults, now).Some?) ==> !faults.anon)
  }

  ghost predicate Reads(cfg: Config, db: Db, req: Request, faults: Faults, now: int) {
    var db' := Looked(cfg, db, req, now);
    && !faults.token && (req.id.deviceID != "" ==> !faults.device)
    && (LiveDevice(cfg, db', req.id.deviceID, now) || AddressReads(cfg, db', req, faults, now))
  }

  // The policy of its class.
  ghost function ClassPolicy(cfg: Config, db: Db, req: Request, now: int): Policy {
    var device := if LiveDevice(cfg, db, req.id.deviceID, now) then db.devices[req.id.deviceID].client else "";
    PolicyFor(cfg, Graylisted(cfg.graylist, req, "", device))
  }

  // Where pin_unhealthy places a new client.
  ghost function Hashed(cfg: Config, req: Request): string {
    HashPick(req.id.deviceID, cfg.digest(AnonKey(req.ip, req.userAgent)), NamesOf(cfg.backends))
  }

  predicate Serves(cfg: Config, w: World, name: string, evenUnhealthy: bool) {
    && LastNamed(cfg.backends, name).Some? && !Disabled(cfg, w, name)
    && (State(w, name).Unhealthy? ==> evenUnhealthy)
  }

  ghost predicate SomeTakes(cfg: Config, w: World) {
    exists b :: b in cfg.backends && Takes(cfg, w, b.name)
  }

  // What a guide comes to, on a store that may have lost expired anonymous rows.
  ghost function Follow(cfg: Config, w: World, db: Db, req: Request, faults: Faults, g: Option<string>, policy: Policy,
                        gray: bool): Decision
  {
    match g
    case Some(n) => Bound(cfg, w, db, faults.counts, n, AnonKind, req.id, policy, gray)
    case None => PickNew(cfg, w, db, faults.counts, req, policy, gray)
  }

  lemma AnonOrNewIs(cfg: Config, w: World, db: Db, req: Request, faults: Faults, now: int, policy: Policy, gray: bool)
    requires !faults.anon
    ensures var db' := LookupAnon(cfg.ttl, db, AnonKey(req.ip, req.userAgent), now).0;
      AnonOrNew(cfg, w, db, req, faults, now, policy, gray).1 ==
        Follow(cfg, w, db', req, faults, AnonGuide(cfg, db, req, now), policy, gray)
  {
  }

  lemma FollowSessionIs(cfg: Config, w: World, db: Db, req: Request, faults: Faults, now: int, policy: Policy,
                        gray: bool)
    requires CookieFollows(cfg, db, faults.counts, req.cookie) || !faults.session
    ensures var (db', d) := FollowSession(cfg, w, db, req, faults, now, policy, gray);
      var g := SessionGuide(cfg, db, req, faults, now);
      if g.Some? then d == Some(Follow(cfg, w, db', req, faults, g, policy, gray))
      else d == None && db' == LookupAnon(cfg.ttl, db, SessionKey(req.ip), now).0
  {
  }

  // A request without device row, on a store that has been looked up.
  lemma UnboundIs(cfg: Config, w: World, db: Db, req: Request, faults: Faults, now: int, policy: Policy, gray: bool)
      returns (db': Db)
    ensures Unbound(cfg, w, db, req, faults, now, policy, gray).1 ==
      if AddressReads(cfg, db, req, faults, now)
      then Follow(cfg, w, db', req, faults, AddressGuide(cfg, db, req, faults, now), policy, gray)
      else REFUSED
  {
    db' := db;
    if !IsSessionMediaPath(req.path) {
      if !faults.anon {
        AnonOrNewIs(cfg, w, db, req, faults, now, policy, gray);
        db' := LookupAnon(cfg.ttl, db, AnonKey(req.ip, req.userAgent), now).0;
      }
    } else if CookieFollows(cfg, db, faults.counts, req.cookie) || !faults.session {
      db' := MediaIs(cfg, w, db, req, faults, now, policy, gray);
    }
  }

  lemma MediaIs(cfg: Config, w: World, db: Db, req: Request, faults: Faults, now: int, policy: Policy, gray: bool)
      returns (db': Db)
    requires IsSessionMediaPath(req.path)
    requires CookieFollows(cfg, db, faults.counts, req.cookie) || !faults.session
    ensures Unbound(cfg, w, db, req, faults, now, policy, gray).1 ==
      if AddressReads(cfg, db, req, faults, now)
      then Follow(cfg, w, db', req, faults, AddressGuide(cfg, db, req, faults, now), policy, gray)
      else REFUSED
  {
    var (db1, d) := FollowSession(cfg, w, db, req, faults, now, policy, gray);
    FollowSessionIs(cfg, w, db, req, faults, now, policy, gray);
    db' := db1;
    if d.None? && !faults.anon {
      AnonOrNewIs(cfg, w, db1, req, faults, now, policy, gray);
      assert AnonGuide(cfg, db1, req, now) == AnonGuide(cfg, db, req, now);
      db' := LookupAnon(cfg.ttl, db1, AnonKey(req.ip, req.userAgent), now).0;
    }
  }

  // Whether a rowless request is forwarded, and where to.
  ghost predicate Leads(cfg: Config, w: World, g: Option<string>, policy: Policy, hashed: string) {
    match g
    case Some(n) => Serves(cfg, w, n, policy.PinUnhealthy?)
    case None => if policy.PinUnhealthy? then Serves(cfg, w, hashed, false) else SomeTakes(cfg, w)
  }

  ghost predicate LeadsTo(cfg: Config, w: World, g: Option<string>, policy: Policy, hashed: string, to: Backend) {
    && to in cfg.backends
    && match g
       case Some(n) => to.name == n
       case None => if policy.PinUnhealthy? then to.name == hashed else Takes(cfg, w, to.name)
  }

  lemma BoundLeads(cfg: Config, w: World, db: Db, fault: bool, name: string, kind: Kind, id: Id, policy: Policy,
                   gray: bool)
    requires id.token != ""
    ensures var d := Bound(cfg, w, db, fault, name, kind, id, policy, gray);
      && (d.error.None? && d.backend.Some? <==> Serves(cfg, w, name, policy.PinUnhealthy?))
      && (d.error.None? && d.backend.Some? ==> d.backend == LastNamed(cfg.backends, name))
  {
    BoundSays(cfg, w, db, fault, name, kind, id, policy, gray);
  }

  lemma NewLeads(cfg: Config, w: World, db: Db, fault: bool, req: Request, policy: Policy, gray: bool)
    ensures var d := PickNew(cfg, w, db, fault, req, policy, gray);
      && (d.error.None? && d.backend.Some? <==> Leads(cfg, w, None, policy, Hashed(cfg, req)))
      && (d.error.None? && d.backend.Some? ==> LeadsTo(cfg, w, None, policy, Hashed(cfg, req), d.backend.value))
  {
    if !policy.PinUnhealthy? {
      PickIsEligible(cfg, w, db, fault, req.id.deviceID, req.cookie);
      var d := PickEligible(cfg, w, db, fault, req.id.deviceID, req.cookie);
      assert PickNew(cfg, w, db, fault, req, policy, gray) == d.(gray := gray);
    }
  }

  lemma FollowLeads(cfg: Config, w: World, db: Db, req: Request, faults: Faults, g: Option<string>, policy: Policy,
                    gray: bool)
    requires req.id.token != ""
    ensures var d := Follow(cfg, w, db, req, faults, g, policy, gray);
      && (d.error.None? && d.backend.Some? <==> Leads(cfg, w, g, policy, Hashed(cfg, req)))
      && (d.error.None? && d.backend.Some? ==>
            !d.kind.TokenKind? && LeadsTo(cfg, w, g, policy, Hashed(cfg, req), d.backend.value))
  {
    match g
    case Some(n) => BoundLeads(cfg, w, db, faults.counts, n, AnonKind, req.id, policy, gray);
    case None => NewLeads(cfg, w, db, faults.counts, req, policy, gray);
  }

  lemma UnboundLeads(cfg: Config, w: World, db: Db, req: Request, faults: Faults, now: int, policy: Policy, gray: bool)
    requires req.id.token != ""
    ensures var d, g := Unbound(cfg, w, db, req, faults, now, policy, gray).1, AddressGuide(cfg, db, req, faults, now);
      && (d.error.None? && d.backend.Some? <==>
            AddressReads(cfg, db, req, faults, now) && Leads(cfg, w, g, policy, Hashed(cfg, req)))
      && (d.error.None? && d.backend.Some? ==>
            !d.kind.TokenKind? && LeadsTo(cfg, w, g, policy, Hashed(cfg, req), d.backend.value))
  {
    var g := AddressGuide(cfg, db, req, faults, now);
    var db' := UnboundIs(cfg, w, db, req, faults, now, policy, gray);
    FollowLeads(cfg, w, db', req, faults, g, policy, gray);
  }

  // Decide's steps, for such a token and readable tables.
  lemma RowlessDecides(cfg: Config, w: World, db: Db, req: Request, faults: Faults, now: int) returns (gray: bool)
    requires Rowless(cfg, db, req, now) && !faults.token && (req.id.deviceID != "" ==> !faults.device)
    ensures var db', device, d := Looked(cfg, db, req, now), req.id.deviceID, Decide(cfg, w, db, req, faults, now).1;
      var policy := ClassPolicy(cfg, db, req, now);
      d == if LiveDevice(cfg, db', device, now)
           then Bound(cfg, w, db', faults.counts, db'.devices[device].backend, DeviceKind, req.id, policy, gray)
           else Unbound(cfg, w, db', req, faults, now, policy, gray).1
  {
    var db1 := LookupToken(cfg.ttl, db, req.id.token, now).0;
    var (db2, deviceRow) := LookupDevice(cfg.ttl, db1, req.id.deviceID, now);
    assert LookupToken(cfg.ttl, db, req.id.token, now) == (db1, None) && db1.devices == db.devices;
    gray := Graylisted(cfg.graylist, req, "", DeviceClient(deviceRow));
    assert PolicyFor(cfg, gray) == ClassPolicy(cfg, db, req, now);
  }

  // The exact decision for a token without a live row, whatever happened before.
  lemma RowlessDecision(cfg: Config, w: World, db: Db, req: Request, faults: Faults, now: int)
    requires Rowless(cfg, db, req, now)
    ensures var d, g := Decide(cfg, w, db, req, faults, now).1, Guide(cfg, db, req, faults, now);
      var policy := ClassPolicy(cfg, db, req, now);
      && (d.error.None? && d.backend.Some? <==>
            Reads(cfg, db, req, faults, now) && Leads(cfg, w, g, policy, Hashed(cfg, req)))
      && (d.error.None? && d.backend.Some? ==>
            !d.kind.TokenKind? && LeadsTo(cfg, w, g, policy, Hashed(cfg, req), d.backend.value))
  {
    if faults.token || (req.id.deviceID != "" && faults.device) {
      assert Decide(cfg, w, db, req, faults, now).1 == REFUSED;
    } else {
      var db', device := Looked(cfg, db, req, now), req.id.deviceID;
      var policy := ClassPolicy(cfg, db, req, now);
      var gray := RowlessDecides(cfg, w, db, req, faults, now);
      if LiveDevice(cfg, db', device, now) {
        BoundLeads(cfg, w, db', faults.counts, db'.devices[device].backend, DeviceKind, req.id, policy, gray);
      } else {
        UnboundLeads(cfg, w, db', req, faults, now, policy, gray);
      }
    }
  }

  // And its exact route: a request that is no login is forwarded exactly when its
  // guide can be read and leads somewhere, to where it leads, and its token is bound
  // there.
  lemma RowlessRoute(cfg: Config, w: World, db: Db, req: Request, faults: Faults, now: int)
    requires Rowless(cfg, db, req, now) && !IsStatusPath(req.path) && !IsLoginPath(req.verb, req.path)
    ensures var (db', route) := Arrive(cfg, w, db, req, faults, now);
      var g, policy := Guide(cfg, db, req, faults, now), ClassPolicy(cfg, db, req, now);
      && (route.Forward? <==> Reads(cfg, db, req, faults, now) && Leads(cfg, w, g, policy, Hashed(cfg, req)))
      && (route.Forward? ==>
            && LeadsTo(cfg, w, g, policy, Hashed(cfg, req), route.to)
            && (route.to.name != "" ==> Pinned(db', req.id.token, route.to.name)))
  {
    RowlessDecision(cfg, w, db, req, faults, now);
    var (db1, d) := Decide(cfg, w, db, req, faults, now);
    var db2 := if d.drop then DeleteClient(db1, req.id.token, req.id.deviceID) else db1;
    if d.error.None? && d.backend.Some? {
      BindRequestTokens(db2, req, d.backend.value.name, now);
    }
  }

  /* The retry after a force_reauth drop */

  ghost predicate Drops(cfg: Config, w: World, db: Db, req: Request, faults: Faults, now: int) {
    && req.id.token != "" && req.id.token in db.tokens && !Lapses(cfg, db, req, faults, now)
    && Decide(cfg, w, db, req, faults, now).1.drop
    && !IsStatusPath(req.path) && !IsLoginPath(req.verb, req.path)
  }

  // Where the token of a goes after a drop, in any request that is no login: exactly
  // where its guide leads.  While a is still down or disabled, that is another backend
  // exactly when the guide leads somewhere and is not a.
  lemma RetryMovesExactlyWhen(cfg: Config, w: World, db: Db, req: Request, faults: Faults, now: int,
                              w': World, retry: Request, again: Faults, later: int)
    requires Drops(cfg, w, db, req, faults, now) && retry.id.token == req.id.token
    requires !IsStatusPath(retry.path) && !IsLoginPath(retry.verb, retry.path)
    ensures var (db1, _) := Arrive(cfg, w, db, req, faults, now);
      var (db2, route) := Arrive(cfg, w', db1, retry, again, later);
      var a, g := db.tokens[req.id.token].backend, Guide(cfg, db1, retry, again, later);
      var policy := ClassPolicy(cfg, db1, retry, later);
      var leads := Reads(cfg, db1, retry, again, later) && Leads(cfg, w', g, policy, Hashed(cfg, retry));
      && (route.Forward? <==> leads)
      && (route.Forward? ==> LeadsTo(cfg, w', g, policy, Hashed(cfg, retry), route.to))
      && (State(w', a).Unhealthy? || Disabled(cfg, w', a) ==>
            (route.Forward? && route.to.name != a <==> leads && g != Some(a)))
      && (route.Forward? && route.to.name != "" ==> Pinned(db2, req.id.token, route.to.name))
  {
    DroppedRows(cfg, w, db, req, faults, now);
    RowlessRoute(cfg, w', Arrive(cfg, w, db, req, faults, now).0, retry, again, later);
  }

  // The ordinary case of a client without DeviceId: its last forwarded request left an
  // anonymous row, and while that row lives the retry is refused again, unless its own
  // class is under pin_unhealthy.
  lemma RetryIsRefusedAgain(cfg: Config, w: World, db: Db, req: Request, faults: Faults, now: int,
                            again: Faults, later: int)
    requires Drops(cfg, w, db, req, faults, now) && !IsSessionMediaPath(req.path)
    requires LiveAnon(cfg, db, AnonKey(req.ip, req.userAgent), later)
    requires db.anons[AnonKey(req.ip, req.userAgent)].backend == db.tokens[req.id.token].backend
    requires !PolicyFor(cfg, Graylisted(cfg.graylist, req, "", "")).PinUnhealthy?
    ensures var db1 := Arrive(cfg, w, db, req, faults, now).0;
      Arrive(cfg, w, db1, req, again, later).1.Refused?
  {
    LiveTokenDecides(cfg, w, db, req, faults, now);
    DroppedRows(cfg, w, db, req, faults, now);
    RowlessRoute(cfg, w, Arrive(cfg, w, db, req, faults, now).0, req, again, later);
  }

  lemma BindLeavesAnonRow(db: Db, req: Request, name: string, now: int)
    requires req.id.deviceID == "" && name != ""
    ensures var db', key := BindRequest(db, req, name, now), AnonKey(req.ip, req.userAgent);
      key in db'.anons && db'.anons[key].backend == name && db'.anons[key].seen == Unix(now)
  {
  }

  lemma ForwardLeavesAnonRow(cfg: Config, w: World, db: Db, req: Request, faults: Faults, now: int)
    requires req.id.deviceID == ""
    ensures var (db', route) := Arrive(cfg, w, db, req, faults, now);
      var key := AnonKey(req.ip, req.userAgent);
      route.Forward? && route.to.name != "" ==>
        key in db'.anons && db'.anons[key].backend == route.to.name && db'.anons[key].seen == Unix(now)
  {
    if !IsStatusPath(req.path) {
      var (db1, d) := Decide(cfg, w, db, req, faults, now);
      var db2 := if d.drop then DeleteClient(db1, req.id.token, req.id.deviceID) else db1;
      if d.error.None? && d.backend.Some? && d.backend.value.name != "" {
        BindLeavesAnonRow(db2, req, d.backend.value.name, now);
        assert Act(db1, req, d, now).1.Forward? ==>
          Act(db1, req, d, now).0 == BindRequest(db2, req, d.backend.value.name, now);
      }
    }
  }

  /* A login that still carries the token */

  // The candidates such a login tries: the hint first, else its guide or placement.
  ghost function LoginTries(cfg: Config, w: World, db: Db, req: Request, faults: Faults, now: int, hint: string)
    : seq<Backend>
  {
    var d := Decide(cfg, w, db, req, faults, now).1;
    LoginCandidates(cfg, w, if d.backend.Some? then LoginPreferred(d, hint) else hint)
  }

  // For a token without a live row, as after a drop, and every backend a: the login
  // sends the token to a backend other than a exactly when its guide leads somewhere,
  // another backend is eligible, and a, if tried first, gives no answer or answers 401.
  // LoginSendsTokenElsewhere says it for a token with a live row.
  lemma RowlessLoginSendsToken(cfg: Config, w: World, db: Db, req: Request, faults: Faults, now: int, hint: string,
                               answers: map<string, HopResult>, a: string)
    requires UniqueNames(cfg.backends) && Rowless(cfg, db, req, now)
    requires IsLoginPath(req.verb, req.path) && !IsStatusPath(req.path)
    ensures var g, policy := Guide(cfg, db, req, faults, now), ClassPolicy(cfg, db, req, now);
      var cands := LoginTries(cfg, w, db, req, faults, now, hint);
      SentElsewhere(HopsOf(cfg, w, db, req, faults, now, hint, answers), req.id.token, a) <==>
        && Reads(cfg, db, req, faults, now) && Leads(cfg, w, g, policy, Hashed(cfg, req))
        && AnotherTakes(cfg, w, a)
        && (|cands| > 0 && cands[0].name == a ==> Skipped(AnswerOf(answers, cands[0])))
  {
    var cands := LoginTries(cfg, w, db, req, faults, now, hint);
    var d := Decide(cfg, w, db, req, faults, now).1;
    RowlessDecision(cfg, w, db, req, faults, now);
    if d.error.None? && d.backend.Some? {
      assert HopsOf(cfg, w, db, req, faults, now, hint, answers) == LoginHops(cands, answers, 0, req.id.token);
      CandidatesPermuteEligible(cfg, w, LoginPreferred(d, hint));
      HopsLeave(cands, answers, req.id.token, a);
    } else {
      assert HopsOf(cfg, w, db, req, faults, now, hint, answers) == [];
    }
  }
}
