// Runs of arrivals and responses, interleaved at will: where a token may go from the
// moment a row binds it.
module AffinityRuns {
  import opened Prelude
  import opened Text
  import opened Store
  import opened RouterModel
  import opened RouterProofs
  import opened AffinityModel

  // Arrival: a request is decided, bound and sent on its way.  HopDone: the answer to
  // some earlier arrival.  LoginDone: a successful login answer of a backend.
  datatype Event =
    | Arrival(req: Request, faults: Faults, now: int)
    | HopDone(req: Request, status: int, path: string, now: int)
    | LoginDone(req: Request, backend: string, login: Login, now: int)
    | Unpin(username: string, ids: seq<string>)
    | Change(world: World)

  datatype Sys = Sys(db: Db, world: World)

  ghost function Step(cfg: Config, s: Sys, ev: Event): Sys {
    match ev
    case Arrival(req, faults, now) => s.(db := Arrive(cfg, s.world, s.db, req, faults, now).0)
    case HopDone(req, status, path, now) => s.(db := Answered(s.db, req, status, path, now))
    case LoginDone(req, backend, login, now) => s.(db := LoggedIn(s.db, req, backend, login, now))
    case Unpin(username, ids) =>
      if TrimSpace(username) == "" then s else s.(db := Unpinned(s.db, TrimSpace(username), CompactIDs(ids)))
    case Change(world) => s.(world := world)
  }

  ghost function Run(cfg: Config, s: Sys, evs: seq<Event>): Sys
    decreases |evs|
  {
    if |evs| == 0 then s else Run(cfg, Step(cfg, s, evs[0]), evs[1..])
  }

  lemma {:induction false} RunPush(cfg: Config, s: Sys, evs: seq<Event>, ev: Event)
    ensures Run(cfg, s, evs + [ev]) == Step(cfg, Run(cfg, s, evs), ev)
    decreases |evs|
  {
    if |evs| == 0 {
      assert evs + [ev] == [ev] && [ev][1..] == [];
    } else {
      assert (evs + [ev])[1..] == evs[1..] + [ev];
      RunPush(cfg, Step(cfg, s, evs[0]), evs[1..], ev);
    }
  }

  /* The epoch of a token */

  predicate Pinned(db: Db, t: string, backend: string) {
    t in db.tokens && db.tokens[t].backend == backend
  }

  // The row is past its TTL when this request looks it up.
  predicate Lapses(cfg: Config, db: Db, req: Request, faults: Faults, now: int)
    requires req.id.token in db.tokens
  {
    !faults.token && Expired(db.tokens[req.id.token].seen, cfg.ttl.token, now)
  }

  // The five ends of a token's epoch: expiry, a force_reauth drop, a successful
  // logout, an unpin that selects it, and a login response that issues it.
  ghost predicate Ends(cfg: Config, s: Sys, ev: Event, t: string)
    requires t != "" && t in s.db.tokens
  {
    match ev
    case Arrival(req, faults, now) =>
      && req.id.token == t && !IsStatusPath(req.path)
      && (Lapses(cfg, s.db, req, faults, now) || Decide(cfg, s.world, s.db, req, faults, now).1.drop)
    case HopDone(req, status, _, _) => req.id.token == t && IsLogoutPath(req.verb, req.path) && Success(status)
    case LoginDone(_, _, login, _) => login.token == t
    case Unpin(username, ids) => TrimSpace(username) != "" && t in Selected(s.db, TrimSpace(username), CompactIDs(ids))
    case Change(_) => false
  }

  ghost predicate Quiet(cfg: Config, s: Sys, evs: seq<Event>, t: string)
    requires t != ""
    decreases |evs|
  {
    |evs| == 0 || (t in s.db.tokens && !Ends(cfg, s, evs[0], t) && Quiet(cfg, Step(cfg, s, evs[0]), evs[1..], t))
  }

  // The tables a decision on anonymous rows never touches.
  predicate SamePins(db: Db, db': Db) {
    db'.tokens == db.tokens && db'.devices == db.devices
  }

  lemma FollowKeeps(cfg: Config, w: World, db: Db, req: Request, faults: Faults, now: int, policy: Policy, gray: bool)
    ensures SamePins(db, FollowSession(cfg, w, db, req, faults, now, policy, gray).0)
  {
    assert SamePins(db, LookupAnon(cfg.ttl, db, SessionKey(req.ip), now).0);
  }

  lemma AnonOrNewKeeps(cfg: Config, w: World, db: Db, req: Request, faults: Faults, now: int, policy: Policy,
                       gray: bool)
    ensures SamePins(db, AnonOrNew(cfg, w, db, req, faults, now, policy, gray).0)
  {
    assert SamePins(db, LookupAnon(cfg.ttl, db, AnonKey(req.ip, req.userAgent), now).0);
  }

  lemma UnboundKeeps(cfg: Config, w: World, db: Db, req: Request, faults: Faults, now: int, policy: Policy, gray: bool)
    ensures SamePins(db, Unbound(cfg, w, db, req, faults, now, policy, gray).0)
  {
    var db1 := FollowSession(cfg, w, db, req, faults, now, policy, gray).0;
    FollowKeeps(cfg, w, db, req, faults, now, policy, gray);
    AnonOrNewKeeps(cfg, w, db, req, faults, now, policy, gray);
    AnonOrNewKeeps(cfg, w, db1, req, faults, now, policy, gray);
  }

  // Its own lookups are all a decision does to the token and device tables.
  lemma DecideOnlyLooksUp(cfg: Config, w: World, db: Db, req: Request, faults: Faults, now: int)
    ensures var db' := Decide(cfg, w, db, req, faults, now).0;
      var (db1, _) := LookupToken(cfg.ttl, db, req.id.token, now);
      var (db2, _) := LookupDevice(cfg.ttl, db1, req.id.deviceID, now);
      || db' == db || db' == db1 || SamePins(db2, db')
  {
    var (db1, tokenRow) := LookupToken(cfg.ttl, db, req.id.token, now);
    var (db2, deviceRow) := LookupDevice(cfg.ttl, db1, req.id.deviceID, now);
    var gray := Graylisted(cfg.graylist, req, TokenClient(tokenRow), DeviceClient(deviceRow));
    UnboundKeeps(cfg, w, db2, req, faults, now, PolicyFor(cfg, gray), gray);
  }

  // Every lookup leaves the other rows alone, and its own unless it lapsed.
  lemma DecideKeepsTokens(cfg: Config, w: World, db: Db, req: Request, faults: Faults, now: int)
    ensures var db' := Decide(cfg, w, db, req, faults, now).0;
      && (forall t :: t != req.id.token || t == "" ==> Row(db'.tokens, t) == Row(db.tokens, t))
      && (req.id.token in db.tokens && !Lapses(cfg, db, req, faults, now) ==> db'.tokens == db.tokens)
  {
    DecideOnlyLooksUp(cfg, w, db, req, faults, now);
  }

  // The binding of a forwarded request touches the row of its own token only.
  lemma BindRequestTokens(db: Db, req: Request, name: string, now: int)
    ensures var db' := BindRequest(db, req, name, now);
      && (forall t :: t != req.id.token || t == "" ==> Row(db'.tokens, t) == Row(db.tokens, t))
      && (req.id.token != "" && name != "" ==>
            Row(db'.tokens, req.id.token) == Some(BoundRow(Row(db.tokens, req.id.token), name, RequestMeta(req), now)))
      && (name == "" ==> db'.tokens == db.tokens)
  {
  }

  // A request that carries a bound token and neither lapses nor logs in goes to the
  // row's backend or is refused.
  lemma BoundTokenRoute(cfg: Config, w: World, db: Db, req: Request, faults: Faults, now: int)
    requires req.id.token != "" && req.id.token in db.tokens && !Lapses(cfg, db, req, faults, now)
    requires !IsLoginPath(req.verb, req.path)
    ensures var route := Arrive(cfg, w, db, req, faults, now).1;
      || route.NotProxied? || route.Refused?
      || (&& route.Forward? && route.to.name == db.tokens[req.id.token].backend
          && Some(route.to) == LastNamed(cfg.backends, route.to.name))
  {
    if !faults.token {
      LiveTokenDecides(cfg, w, db, req, faults, now);
    }
  }

  lemma ActElsewhere(db: Db, req: Request, d: Decision, now: int, t: string)
    requires t != req.id.token
    ensures Row(Act(db, req, d, now).0.tokens, t) == Row(db.tokens, t)
  {
    var db1 := if d.drop then DeleteClient(db, req.id.token, req.id.deviceID) else db;
    assert Row(db1.tokens, t) == Row(db.tokens, t);
    if d.backend.Some? {
      BindRequestTokens(db1, req, d.backend.value.name, now);
    }
  }

  // An arrival leaves the rows of all other tokens as they were.
  lemma ArrivalElsewhere(cfg: Config, w: World, db: Db, req: Request, faults: Faults, now: int, t: string)
    requires t != req.id.token
    ensures Row(Arrive(cfg, w, db, req, faults, now).0.tokens, t) == Row(db.tokens, t)
  {
    var (db1, d) := Decide(cfg, w, db, req, faults, now);
    DecideKeepsTokens(cfg, w, db, req, faults, now);
    ActElsewhere(db1, req, d, now, t);
  }

  // An arrival with a bound token that neither lapses nor is dropped leaves the
  // row on its backend, and only adds to what it knows.
  lemma ArrivalOwn(cfg: Config, w: World, db: Db, req: Request, faults: Faults, now: int)
    requires req.id.token != "" && req.id.token in db.tokens
    requires IsStatusPath(req.path)
      || (!Lapses(cfg, db, req, faults, now) && !Decide(cfg, w, db, req, faults, now).1.drop)
    ensures var row, row' := db.tokens[req.id.token], Row(Arrive(cfg, w, db, req, faults, now).0.tokens, req.id.token);
      row'.Some? && row'.value.backend == row.backend
      && (row'.value.meta == row.meta || row'.value.meta == Merge(RequestMeta(req), row.meta))
  {
    var (db1, d) := Decide(cfg, w, db, req, faults, now);
    if !IsStatusPath(req.path) {
      DecideKeepsTokens(cfg, w, db, req, faults, now);
      if !faults.token {
        LiveTokenDecides(cfg, w, db, req, faults, now);
      }
      if d.error.None? && d.backend.Some? {
        BindRequestTokens(db1, req, d.backend.value.name, now);
      }
    }
  }

  lemma UnpinKeeps(db: Db, username: string, ids: set<string>, t: string)
    requires t in db.tokens && t !in Selected(db, username, ids)
    ensures Row(Unpinned(db, username, ids).tokens, t) == Some(db.tokens[t])
  {
  }

  // Nor do the other events that do not end its epoch.
  lemma OtherEventKeeps(cfg: Config, s: Sys, ev: Event, t: string)
    requires t != "" && t in s.db.tokens && !ev.Arrival? && !Ends(cfg, s, ev, t)
    ensures var row' := Row(Step(cfg, s, ev).db.tokens, t);
      row'.Some? && row'.value.backend == s.db.tokens[t].backend && row'.value.meta == s.db.tokens[t].meta
  {
    match ev
    case Unpin(username, ids) =>
      if TrimSpace(username) != "" {
        UnpinKeeps(s.db, TrimSpace(username), CompactIDs(ids), t);
      }
    case _ =>
  }

  // An event that does not end the epoch leaves the row on its backend, and its
  // values as they were or merged with those of a request that carries it.
  lemma StepKeepsPin(cfg: Config, s: Sys, ev: Event, t: string)
    requires t != "" && t in s.db.tokens && !Ends(cfg, s, ev, t)
    ensures var row, row' := s.db.tokens[t], Row(Step(cfg, s, ev).db.tokens, t);
      && row'.Some? && row'.value.backend == row.backend
      && (|| row'.value.meta == row.meta
          || (ev.Arrival? && ev.req.id.token == t && row'.value.meta == Merge(RequestMeta(ev.req), row.meta)))
  {
    if !ev.Arrival? {
      OtherEventKeeps(cfg, s, ev, t);
    } else if ev.req.id.token == t {
      ArrivalOwn(cfg, s.world, s.db, ev.req, ev.faults, ev.now);
    } else {
      ArrivalElsewhere(cfg, s.world, s.db, ev.req, ev.faults, ev.now, t);
    }
  }

  lemma {:induction false} RunKeepsPin(cfg: Config, s: Sys, evs: seq<Event>, t: string)
    requires t != "" && t in s.db.tokens && Quiet(cfg, s, evs, t)
    ensures Pinned(Run(cfg, s, evs).db, t, s.db.tokens[t].backend)
    decreases |evs|
  {
    if |evs| != 0 {
      StepKeepsPin(cfg, s, evs[0], t);
      RunKeepsPin(cfg, Step(cfg, s, evs[0]), evs[1..], t);
    }
  }

  // The epoch theorem.  However arrivals and responses interleave, once a row binds a
  // token to a backend, every non-login request with that token is forwarded to that
  // backend or refused, until the token's epoch ends.
  lemma TokenEpoch(cfg: Config, s: Sys, evs: seq<Event>, req: Request, faults: Faults, now: int)
    requires req.id.token != "" && req.id.token in s.db.tokens && Quiet(cfg, s, evs, req.id.token)
    requires !IsLoginPath(req.verb, req.path)
    requires var s' := Run(cfg, s, evs);
      req.id.token in s'.db.tokens ==> !Lapses(cfg, s'.db, req, faults, now)
    ensures var s' := Run(cfg, s, evs);
      var route := Arrive(cfg, s'.world, s'.db, req, faults, now).1;
      || route.NotProxied? || route.Refused?
      || (route.Forward? && route.to.name == s.db.tokens[req.id.token].backend)
  {
    RunKeepsPin(cfg, s, evs, req.id.token);
    var s' := Run(cfg, s, evs);
    BoundTokenRoute(cfg, s'.world, s'.db, req, faults, now);
  }

  // In particular a token that a backend issued at a login stays with that backend.
  lemma IssuedTokenStays(cfg: Config, s: Sys, from: Request, issuer: string, login: Login, at: int,
                         evs: seq<Event>, req: Request, faults: Faults, now: int)
    requires login.token != "" && issuer != "" && req.id.token == login.token && !IsLoginPath(req.verb, req.path)
    requires var s1 := Step(cfg, s, LoginDone(from, issuer, login, at));
      && Quiet(cfg, s1, evs, login.token)
      && var s' := Run(cfg, s1, evs);
         login.token in s'.db.tokens ==> !Lapses(cfg, s'.db, req, faults, now)
    ensures var s' := Run(cfg, Step(cfg, s, LoginDone(from, issuer, login, at)), evs);
      var route := Arrive(cfg, s'.world, s'.db, req, faults, now).1;
      route.Forward? ==> route.to.name == issuer
  {
    var s1 := Step(cfg, s, LoginDone(from, issuer, login, at));
    assert Pinned(s1.db, login.token, issuer);
    TokenEpoch(cfg, s1, evs, req, faults, now);
  }

  // A drop happens only under force_reauth, to an enabled backend that is unhealthy;
  // without that policy in either list, the other four ends are all there is.
  lemma DropNeedsForceReauth(cfg: Config, w: World, db: Db, req: Request, faults: Faults, now: int)
    requires req.id.token != "" && req.id.token in db.tokens && !Lapses(cfg, db, req, faults, now)
    requires Decide(cfg, w, db, req, faults, now).1.drop
    ensures cfg.policy.ForceReauth? || cfg.graylist.policy == Some(ForceReauth)
    ensures State(w, db.tokens[req.id.token].backend).Unhealthy? && !Disabled(cfg, w, db.tokens[req.id.token].backend)
    ensures Arrive(cfg, w, db, req, faults, now).1 in {NotProxied, Refused(ReauthRequired)}
  {
    if !faults.token {
      LiveTokenDecides(cfg, w, db, req, faults, now);
    }
  }

  lemma DroppedRows(cfg: Config, w: World, db: Db, req: Request, faults: Faults, now: int)
    requires req.id.token != "" && req.id.token in db.tokens && !Lapses(cfg, db, req, faults, now)
    requires Decide(cfg, w, db, req, faults, now).1.drop && !IsStatusPath(req.path)
    ensures var db1 := Arrive(cfg, w, db, req, faults, now).0;
      && req.id.token !in db1.tokens && (req.id.deviceID != "" ==> req.id.deviceID !in db1.devices)
      && db1.anons == db.anons
  {
    LiveTokenDecides(cfg, w, db, req, faults, now);
  }

  // Each of the five ends does end it: the row is gone, or names the issuer, or the
  // request is decided as if there were no row.
  lemma EndsForget(cfg: Config, s: Sys, ev: Event, t: string)
    requires t != "" && t in s.db.tokens && Ends(cfg, s, ev, t)
    requires ev.LoginDone? ==> ev.backend != ""
    ensures match ev
      case Arrival(req, faults, now) =>
        if Lapses(cfg, s.db, req, faults, now) then
          var without := s.db.(tokens := s.db.tokens - {t});
          Arrive(cfg, s.world, s.db, req, faults, now) == Arrive(cfg, s.world, without, req, faults, now)
        else
          t !in Step(cfg, s, ev).db.tokens
      case LoginDone(_, backend, _, _) => Pinned(Step(cfg, s, ev).db, t, backend)
      case _ => t !in Step(cfg, s, ev).db.tokens
  {
    if ev.Arrival? {
      var db' := s.db.(tokens := s.db.tokens - {t});
      if Lapses(cfg, s.db, ev.req, ev.faults, ev.now) {
        assert LookupToken(cfg.ttl, s.db, t, ev.now) == (db', None) == LookupToken(cfg.ttl, db', t, ev.now);
      } else {
        DroppedRows(cfg, s.world, s.db, ev.req, ev.faults, ev.now);
      }
    }
  }

  /* The gray-list class of a token and of a device */

  ghost predicate GrayToken(cfg: Config, db: Db, t: string) {
    t in db.tokens && MatchesClient(cfg.graylist, db.tokens[t].meta.client)
  }

  // Requests with the token name no other client class.
  ghost predicate KeepsClass(cfg: Config, ev: Event, t: string) {
    ev.Arrival? && ev.req.id.token == t ==> ev.req.id.client == "" || MatchesClient(cfg.graylist, ev.req.id.client)
  }

  lemma StepKeepsGray(cfg: Config, s: Sys, ev: Event, t: string)
    requires t != "" && GrayToken(cfg, s.db, t) && !Ends(cfg, s, ev, t) && KeepsClass(cfg, ev, t)
    ensures GrayToken(cfg, Step(cfg, s, ev).db, t)
  {
    StepKeepsPin(cfg, s, ev, t);
  }

  lemma {:induction false} RunKeepsGray(cfg: Config, s: Sys, evs: seq<Event>, t: string)
    requires t != "" && GrayToken(cfg, s.db, t) && Quiet(cfg, s, evs, t)
    requires forall i :: 0 <= i < |evs| ==> KeepsClass(cfg, evs[i], t)
    ensures GrayToken(cfg, Run(cfg, s, evs).db, t)
    decreases |evs|
  {
    if |evs| != 0 {
      StepKeepsGray(cfg, s, evs[0], t);
      RunKeepsGray(cfg, Step(cfg, s, evs[0]), evs[1..], t);
    }
  }

  // A later request that does not name its client is still gray-listed.
  lemma GraySurvives(cfg: Config, s: Sys, evs: seq<Event>, req: Request, faults: Faults, now: int)
    requires req.id.token != "" && GrayToken(cfg, s.db, req.id.token) && Quiet(cfg, s, evs, req.id.token)
    requires forall i :: 0 <= i < |evs| ==> KeepsClass(cfg, evs[i], req.id.token)
    requires var s' := Run(cfg, s, evs);
      req.id.token in s'.db.tokens ==> !Lapses(cfg, s'.db, req, faults, now)
    ensures var s' := Run(cfg, s, evs);
      var d := Decide(cfg, s'.world, s'.db, req, faults, now).1;
      d.gray || d.error == Some(StoreUnavailable)
  {
    RunKeepsGray(cfg, s, evs, req.id.token);
    var s' := Run(cfg, s, evs);
    if !faults.token {
      LiveTokenDecides(cfg, s'.world, s'.db, req, faults, now);
    }
  }

  ghost predicate GrayDevice(cfg: Config, db: Db, device: string) {
    device in db.devices && MatchesClient(cfg.graylist, db.devices[device].client)
  }

  predicate LapsesDevice(cfg: Config, db: Db, req: Request, faults: Faults, now: int)
    requires req.id.deviceID in db.devices
  {
    && !faults.device && !(req.id.token != "" && faults.token)
    && Expired(db.devices[req.id.deviceID].seen, cfg.ttl.device, now)
  }

  // What removes a device row: expiry, a drop, an unpin of its backend.  Logout is not
  // among them.
  ghost predicate EndsDevice(cfg: Config, s: Sys, ev: Event, device: string)
    requires device != "" && device in s.db.devices
  {
    match ev
    case Arrival(req, faults, now) =>
      && req.id.deviceID == device && !IsStatusPath(req.path)
      && (LapsesDevice(cfg, s.db, req, faults, now) || Decide(cfg, s.world, s.db, req, faults, now).1.drop)
    case Unpin(username, ids) =>
      TrimSpace(username) != "" && device !in Unpinned(s.db, TrimSpace(username), CompactIDs(ids)).devices
    case _ => false
  }

  // Requests and logins for the device name no other client class.
  ghost predicate KeepsDeviceClass(cfg: Config, ev: Event, device: string) {
    (|| (ev.Arrival? && ev.req.id.deviceID == device)
     || (ev.LoginDone? && LoginMeta(ev.req, ev.login).deviceID == device)) ==>
      ev.req.id.client == "" || MatchesClient(cfg.graylist, ev.req.id.client)
  }

  // A row keeps its class under a bind that names no other.
  predicate Reclassed(row: DeviceRow, row': Option<DeviceRow>, client: string) {
    row'.Some? && (row'.value.client == row.client || row'.value.client == Sticky(client, row.client))
  }

  lemma BindRequestDevices(db: Db, req: Request, name: string, now: int, device: string)
    requires device != "" && device in db.devices
    ensures var row' := Row(BindRequest(db, req, name, now).devices, device);
      if req.id.deviceID == device then Reclassed(db.devices[device], row', req.id.client)
      else row' == Some(db.devices[device])
  {
  }

  lemma DecideKeepsDevice(cfg: Config, w: World, db: Db, req: Request, faults: Faults, now: int, device: string)
    requires device != "" && device in db.devices
    requires req.id.deviceID == device ==> !LapsesDevice(cfg, db, req, faults, now)
    ensures Row(Decide(cfg, w, db, req, faults, now).0.devices, device) == Some(db.devices[device])
  {
    DecideOnlyLooksUp(cfg, w, db, req, faults, now);
  }

  lemma ActDevice(db: Db, req: Request, d: Decision, now: int, device: string)
    requires device != "" && device in db.devices && (req.id.deviceID == device ==> !d.drop)
    ensures var row' := Row(Act(db, req, d, now).0.devices, device);
      if req.id.deviceID == device then Reclassed(db.devices[device], row', req.id.client)
      else row' == Some(db.devices[device])
  {
    var db1 := if d.drop then DeleteClient(db, req.id.token, req.id.deviceID) else db;
    assert Row(db1.devices, device) == Some(db.devices[device]);
    if d.backend.Some? {
      BindRequestDevices(db1, req, d.backend.value.name, now, device);
    }
  }

  lemma ArrivalKeepsGrayDevice(cfg: Config, s: Sys, ev: Event, device: string)
    requires ev.Arrival? && device != ""
    requires GrayDevice(cfg, s.db, device) && !EndsDevice(cfg, s, ev, device) && KeepsDeviceClass(cfg, ev, device)
    ensures GrayDevice(cfg, Step(cfg, s, ev).db, device)
  {
    if !IsStatusPath(ev.req.path) {
      var (db1, d) := Decide(cfg, s.world, s.db, ev.req, ev.faults, ev.now);
      DecideKeepsDevice(cfg, s.world, s.db, ev.req, ev.faults, ev.now, device);
      ActDevice(db1, ev.req, d, ev.now, device);
      assert Step(cfg, s, ev).db == Act(db1, ev.req, d, ev.now).0;
    }
  }

  lemma LoginDevice(db: Db, req: Request, name: string, login: Login, now: int, device: string)
    requires device != "" && device in db.devices
    ensures var row' := Row(LoggedIn(db, req, name, login, now).devices, device);
      if LoginMeta(req, login).deviceID == device then Reclassed(db.devices[device], row', req.id.client)
      else row' == Some(db.devices[device])
  {
  }

  lemma StepKeepsGrayDevice(cfg: Config, s: Sys, ev: Event, device: string)
    requires device != "" && GrayDevice(cfg, s.db, device) && !EndsDevice(cfg, s, ev, device)
    requires KeepsDeviceClass(cfg, ev, device)
    ensures GrayDevice(cfg, Step(cfg, s, ev).db, device)
  {
    match ev
    case Arrival(_, _, _) => ArrivalKeepsGrayDevice(cfg, s, ev, device);
    case LoginDone(req, backend, login, now) => LoginDevice(s.db, req, backend, login, now, device);
    case Unpin(username, ids) =>
      if TrimSpace(username) != "" {
        assert Row(Unpinned(s.db, TrimSpace(username), CompactIDs(ids)).devices, device) == Some(s.db.devices[device]);
      }
    case _ =>
  }

  ghost predicate QuietDevice(cfg: Config, s: Sys, evs: seq<Event>, device: string)
    requires device != ""
    decreases |evs|
  {
    |evs| == 0 ||
      (device in s.db.devices && !EndsDevice(cfg, s, evs[0], device) && KeepsDeviceClass(cfg, evs[0], device)
       && QuietDevice(cfg, Step(cfg, s, evs[0]), evs[1..], device))
  }

  lemma {:induction false} RunKeepsGrayDevice(cfg: Config, s: Sys, evs: seq<Event>, device: string)
    requires device != "" && GrayDevice(cfg, s.db, device) && QuietDevice(cfg, s, evs, device)
    ensures GrayDevice(cfg, Run(cfg, s, evs).db, device)
    decreases |evs|
  {
    if |evs| != 0 {
      StepKeepsGrayDevice(cfg, s, evs[0], device);
      RunKeepsGrayDevice(cfg, Step(cfg, s, evs[0]), evs[1..], device);
    }
  }

  // The class of a device outlives its tokens: after any number of logouts and
  // logins, a request with the DeviceId and no client name is still gray-listed.
  lemma DeviceClassSurvivesLogout(cfg: Config, s: Sys, evs: seq<Event>, req: Request, faults: Faults, now: int)
    requires req.id.deviceID != "" && GrayDevice(cfg, s.db, req.id.deviceID)
    requires QuietDevice(cfg, s, evs, req.id.deviceID)
    requires var s' := Run(cfg, s, evs);
      req.id.deviceID in s'.db.devices ==> !LapsesDevice(cfg, s'.db, req, faults, now)
    ensures var s' := Run(cfg, s, evs);
      var d := Decide(cfg, s'.world, s'.db, req, faults, now).1;
      d.gray || d.error == Some(StoreUnavailable)
  {
    RunKeepsGrayDevice(cfg, s, evs, req.id.deviceID);
    var s' := Run(cfg, s, evs);
    LiveDeviceIsGray(cfg, s'.world, s'.db, req, faults, now);
  }

  lemma LiveDeviceIsGray(cfg: Config, w: World, db: Db, req: Request, faults: Faults, now: int)
    requires req.id.deviceID != "" && GrayDevice(cfg, db, req.id.deviceID) && !LapsesDevice(cfg, db, req, faults, now)
    ensures var d := Decide(cfg, w, db, req, faults, now).1;
      d.gray || d.error == Some(StoreUnavailable)
  {
    var (db1, tokenRow) := LookupToken(cfg.ttl, db, req.id.token, now);
    var (db2, deviceRow) := LookupDevice(cfg.ttl, db1, req.id.deviceID, now);
    var policy := PolicyFor(cfg, true);
    if !(req.id.token != "" && faults.token) && !faults.device {
      assert deviceRow == Some(db.devices[req.id.deviceID]);
      if tokenRow.Some? {
        assert Bound(cfg, w, db2, faults.counts, tokenRow.value.backend, TokenKind, req.id, policy, true).gray;
      } else {
        assert Bound(cfg, w, db2, faults.counts, deviceRow.value.backend, DeviceKind, req.id, policy, true).gray;
      }
    }
  }
}
