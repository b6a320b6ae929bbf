// How long a token's row lives in a run: what refreshes it, and what an outage that
// outlasts it does under fail_closed.
module Lifetimes {
  import opened Prelude
  import opened Store
  import opened RouterModel
  import opened RouterProofs
  import opened AffinityModel
  import opened AffinityRuns
  import opened Retries
  import StoreRows

  // The event refreshes the row of t: a forwarded request that carries it, the answer
  // to one unless it is a logout, or the login that issues it.
  ghost predicate Uses(cfg: Config, s: Sys, ev: Event, t: string) {
    match ev
    case Arrival(req, faults, now) =>
      req.id.token == t && Forwards(Arrive(cfg, s.world, s.db, req, faults, now).1)
    case HopDone(req, status, _, _) =>
      req.id.token == t && t in s.db.tokens && !(IsLogoutPath(req.verb, req.path) && Success(status))
    case LoginDone(_, backend, login, _) => login.token == t && backend != ""
    case Unpin(_, _) => false
    case Change(_) => false
  }

  predicate Forwards(route: Route) {
    route.Forward? && route.to.name != ""
  }

  function When(ev: Event): int {
    match ev
    case Arrival(_, _, now) => now
    case HopDone(_, _, _, now) => now
    case LoginDone(_, _, _, now) => now
    case _ => 0
  }

  // The last event of the run that refreshes it.
  ghost function LastUse(cfg: Config, s: Sys, evs: seq<Event>, t: string): Option<int>
    decreases |evs|
  {
    if |evs| == 0 then None
    else
      var later := LastUse(cfg, Step(cfg, s, evs[0]), evs[1..], t);
      if later.Some? then later else if Uses(cfg, s, evs[0], t) then Some(When(evs[0])) else None
  }

  lemma ArrivalSeen(cfg: Config, w: World, db: Db, req: Request, faults: Faults, now: int)
    requires req.id.token != ""
    ensures var (db', route) := Arrive(cfg, w, db, req, faults, now);
      var row' := Row(db'.tokens, req.id.token);
      if Forwards(route) then row'.Some? && row'.value.seen == Unix(now)
      else row'.None? || row' == Row(db.tokens, req.id.token)
  {
    if !IsStatusPath(req.path) {
      var (db1, d) := Decide(cfg, w, db, req, faults, now);
      DecideOnlyLooksUp(cfg, w, db, req, faults, now);
      assert Row(db1.tokens, req.id.token) in {None, Row(db.tokens, req.id.token)};
      ActSeen(db1, req, d, now);
    }
  }

  lemma ActSeen(db: Db, req: Request, d: Decision, now: int)
    requires req.id.token != ""
    ensures var (db', route) := Act(db, req, d, now);
      var row' := Row(db'.tokens, req.id.token);
      if Forwards(route) then row'.Some? && row'.value.seen == Unix(now)
      else row'.None? || row' == Row(db.tokens, req.id.token)
  {
    var db1 := if d.drop then DeleteClient(db, req.id.token, req.id.deviceID) else db;
    assert Row(db1.tokens, req.id.token) in {None, Row(db.tokens, req.id.token)};
    if d.backend.Some? {
      BindRequestTokens(db1, req, d.backend.value.name, now);
    }
  }

  lemma HopSeen(db: Db, req: Request, status: int, path: string, now: int, t: string)
    requires t != ""
    ensures var row' := Row(Answered(db, req, status, path, now).tokens, t);
      if req.id.token == t && t in db.tokens && !(IsLogoutPath(req.verb, req.path) && Success(status))
      then row'.Some? && row'.value.seen == Unix(now)
      else row'.None? || row' == Row(db.tokens, t)
  {
    var db1 := if IsLogoutPath(req.verb, req.path) && Success(status) then DeleteToken(db, req.id.token) else db;
    assert Row(db1.tokens, t) in {None, Row(db.tokens, t)};
  }

  lemma LoginSeen(db: Db, req: Request, backend: string, login: Login, now: int, t: string)
    requires t != ""
    ensures var row' := Row(LoggedIn(db, req, backend, login, now).tokens, t);
      if login.token == t && backend != "" then row'.Some? && row'.value.seen == Unix(now)
      else row' == Row(db.tokens, t)
  {
  }

  lemma StepSeen(cfg: Config, s: Sys, ev: Event, t: string)
    requires t != ""
    ensures var row' := Row(Step(cfg, s, ev).db.tokens, t);
      if Uses(cfg, s, ev, t) then row'.Some? && row'.value.seen == Unix(When(ev))
      else row'.None? || row' == Row(s.db.tokens, t)
  {
    match ev
    case Arrival(req, faults, now) =>
      if req.id.token == t {
        ArrivalSeen(cfg, s.world, s.db, req, faults, now);
      } else {
        ArrivalElsewhere(cfg, s.world, s.db, req, faults, now, t);
      }
    case HopDone(req, status, path, now) => HopSeen(s.db, req, status, path, now, t);
    case LoginDone(req, backend, login, now) => LoginSeen(s.db, req, backend, login, now, t);
    case Unpin(_, _) =>
    case Change(_) =>
  }

  // Over every run: a row that is there was last seen at the last use of its token, to
  // the second, and is untouched if there was none.
  lemma {:induction false} RunSeen(cfg: Config, s: Sys, evs: seq<Event>, t: string)
    requires t != ""
    ensures var row', use := Row(Run(cfg, s, evs).db.tokens, t), LastUse(cfg, s, evs, t);
      || row'.None?
      || (if use.Some? then row'.value.seen == Unix(use.value) else row' == Row(s.db.tokens, t))
    decreases |evs|
  {
    if |evs| != 0 {
      StepSeen(cfg, s, evs[0], t);
      RunSeen(cfg, Step(cfg, s, evs[0]), evs[1..], t);
    }
  }

  // So from a store without tokens on, a request whose token has a row is decided
  // without it exactly when the last use of the token is too long ago.
  lemma RowlessInRuns(cfg: Config, s: Sys, evs: seq<Event>, req: Request, now: int)
    requires req.id.token != "" && s.db.tokens == map[] && 0 < cfg.ttl.token
    ensures var db', use := Run(cfg, s, evs).db, LastUse(cfg, s, evs, req.id.token);
      req.id.token in db'.tokens ==>
        && use.Some?
        && (Rowless(cfg, db', req, now) <==> now - use.value > cfg.ttl.token - use.value % SECOND)
  {
    var use := LastUse(cfg, s, evs, req.id.token);
    RunSeen(cfg, s, evs, req.id.token);
    if use.Some? {
      StoreRows.ExpiryBounds(use.value, now, cfg.ttl.token);
    }
  }

  /* An outage under fail_closed */

  // fail_closed for every class.
  predicate FailsClosed(cfg: Config) {
    cfg.policy.FailClosed? && (cfg.graylist.policy.None? || cfg.graylist.policy == Some(FailClosed))
  }

  // Nothing in the run uses the token, deletes its row or issues it, and the requests
  // that carry it come no later than the deadline.
  ghost predicate Waits(cfg: Config, s: Sys, evs: seq<Event>, t: string, deadline: int)
    requires t != ""
    decreases |evs|
  {
    |evs| == 0 ||
      (&& !Uses(cfg, s, evs[0], t)
       && (t in s.db.tokens && !evs[0].Arrival? ==> !Ends(cfg, s, evs[0], t))
       && (evs[0].Arrival? && evs[0].req.id.token == t ==> evs[0].now <= deadline)
       && Waits(cfg, Step(cfg, s, evs[0]), evs[1..], t, deadline))
  }

  lemma {:induction false} WaitsUnused(cfg: Config, s: Sys, evs: seq<Event>, t: string, deadline: int)
    requires t != "" && Waits(cfg, s, evs, t, deadline)
    ensures LastUse(cfg, s, evs, t) == None
    decreases |evs|
  {
    if |evs| != 0 {
      WaitsUnused(cfg, Step(cfg, s, evs[0]), evs[1..], t, deadline);
    }
  }

  lemma NeverDropped(cfg: Config, s: Sys, ev: Event, t: string, deadline: int)
    requires FailsClosed(cfg) && t != "" && t in s.db.tokens && !Expired(s.db.tokens[t].seen, cfg.ttl.token, deadline)
    requires ev.Arrival? && (ev.req.id.token == t ==> ev.now <= deadline)
    ensures !Ends(cfg, s, ev, t)
  {
    if ev.req.id.token == t && !ev.faults.token {
      LiveTokenDecides(cfg, s.world, s.db, ev.req, ev.faults, ev.now);
    }
  }

  lemma {:induction false} WaitsQuiet(cfg: Config, s: Sys, evs: seq<Event>, t: string, deadline: int)
    requires FailsClosed(cfg) && t != "" && t in s.db.tokens && !Expired(s.db.tokens[t].seen, cfg.ttl.token, deadline)
    requires Waits(cfg, s, evs, t, deadline)
    ensures Row(Run(cfg, s, evs).db.tokens, t) == Some(s.db.tokens[t])
    decreases |evs|
  {
    if |evs| != 0 {
      if evs[0].Arrival? {
        NeverDropped(cfg, s, evs[0], t, deadline);
      }
      StepKeepsPin(cfg, s, evs[0], t);
      StepSeen(cfg, s, evs[0], t);
      WaitsQuiet(cfg, Step(cfg, s, evs[0]), evs[1..], t, deadline);
    }
  }

  // fail_closed promises that the binding is kept and the token works again when its
  // backend recovers.  Refused requests do not refresh the row.  So this holds exactly
  // until the TTL counted from the last use before the outage is over: until then the
  // token goes to its backend as soon as that serves, and to no other; after that it
  // goes where its guide leads, although the client kept sending it.
  lemma FailClosedKeepsExactlyWhen(cfg: Config, s: Sys, evs: seq<Event>, req: Request, faults: Faults, now: int)
    requires FailsClosed(cfg) && req.id.token != "" && req.id.token in s.db.tokens
    requires Waits(cfg, s, evs, req.id.token, now)
    requires !IsStatusPath(req.path) && !IsLoginPath(req.verb, req.path)
    ensures var s', row := Run(cfg, s, evs), s.db.tokens[req.id.token];
      var route := Arrive(cfg, s'.world, s'.db, req, faults, now).1;
      var g, policy := Guide(cfg, s'.db, req, faults, now), ClassPolicy(cfg, s'.db, req, now);
      if !Expired(row.seen, cfg.ttl.token, now) then
        && (route.Forward? <==>
              && !faults.token && (req.id.deviceID == "" || !faults.device)
              && Serves(cfg, s'.world, row.backend, false))
        && (route.Forward? ==> route.to.name == row.backend)
      else
        && (route.Forward? <==>
              Reads(cfg, s'.db, req, faults, now) && Leads(cfg, s'.world, g, policy, Hashed(cfg, req)))
        && (route.Forward? ==> LeadsTo(cfg, s'.world, g, policy, Hashed(cfg, req), route.to))
  {
    var s' := Run(cfg, s, evs);
    if !Expired(s.db.tokens[req.id.token].seen, cfg.ttl.token, now) {
      WaitsQuiet(cfg, s, evs, req.id.token, now);
      LiveTokenDecides(cfg, s'.world, s'.db, req, faults, now);
    } else {
      WaitsUnused(cfg, s, evs, req.id.token, now);
      RunSeen(cfg, s, evs, req.id.token);
      RowlessRoute(cfg, s'.world, s'.db, req, faults, now);
    }
  }
}
