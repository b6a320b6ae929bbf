// Concrete runs from the empty store, on two backends "a" and "b", that the
// documentation rules out.
module AffinityExamples {
  import opened Prelude
  import opened Text
  import opened Paths
  import opened Store
  import opened RouterModel
  import opened RouterProofs
  import opened AffinityModel
  import opened AffinityRuns
  import opened LoginProofs
  import opened Retries
  import Health
  import Identifiers

  const A := Backend("a", false)
  const B := Backend("b", false)
  const OK := Faults(false, false, false, false, false)
  const EMPTY := Sys(Db(map[], map[], map[]), World(map[], map[]))
  const A_DOWN := World(map[], map["a" := Health.Unhealthy])

  // Both backends refuse the password.
  const REFUSALS: map<string, HopResult> := map["a" := Response(401, None), "b" := Response(401, None)]

  const NO_GRAYLIST := Graylist(None, Some([]), [])

  // The two backends and an empty gray-list.
  predicate Small(cfg: Config) {
    cfg.backends == [A, B] && cfg.graylist == NO_GRAYLIST && !cfg.degradedOK
  }

  // force_reauth, rows that never expire.
  function Conf(digest: AnonKey -> string): (cfg: Config)
    ensures Small(cfg)
  {
    Config([A, B], ForceReauth, NO_GRAYLIST, false, TTLs(0, 0, 0), digest)
  }

  // fail_closed, token rows that live for ttl.
  function FailConf(digest: AnonKey -> string, ttl: int): (cfg: Config)
    ensures Small(cfg)
  {
    Config([A, B], FailClosed, NO_GRAYLIST, false, TTLs(ttl, 0, 0), digest)
  }

  // A request of one client; its User-Agent is not empty.
  function From(verb: string, path: string, token: string): Request {
    Request(verb, path, "10.0.0.1", "player", "", Identifiers.Identifiers(token, "", "", "", ""))
  }

  predicate LogsIn(verb: string, path: string) {
    IsLoginPath(verb, path) && !IsStatusPath(path)
  }

  // Any other request that is not for media.
  predicate Browses(verb: string, path: string) {
    !IsLoginPath(verb, path) && !IsStatusPath(path) && !IsSessionMediaPath(path)
  }

  // Such requests exist.
  lemma RootIsBrowsing()
    ensures Browses("GET", "/")
  {
    assert |ToLower("/")| == 1;
  }

  // The path of a login, as this client writes it.
  predicate Authenticates(path: string) {
    |path| == 25 && HasSuffix(path, "/users/authenticatebyname")
  }

  predicate Letters(s: string) {
    forall i :: 0 <= i < |s| ==> s[i] == '/' || 'a' <= s[i] <= 'z'
  }

  // Two segments of letters, the second in "aut".
  ghost predicate UserPath(path: string) {
    && |path| >= 10 && Letters(path)
    && path[1] == 'u' && path[7] == 'a' && path[8] == 'u' && path[9] == 't'
    && forall i :: 0 <= i < |path| && path[i] == '/' ==> i == 0 || i == 6
  }

  lemma LettersStay(s: string)
    requires Letters(s)
    ensures ToLower(s) == s
  {
  }

  lemma AuthenticateReads(path: string)
    requires Authenticates(path)
    ensures UserPath(path)
  {
    var suffix := path[0..];
    assert forall i :: 0 <= i < 25 ==> path[i] == suffix[i];
  }

  lemma UserPathIsNoStatus(path: string)
    requires UserPath(path)
    ensures !IsStatusPath(path)
  {
    LettersStay(path);
    assert path[..5][1] != "/hap/"[1];
  }

  lemma UserPathIsNoMedia(path: string)
    requires UserPath(path)
    ensures !IsSessionMediaPath(path)
  {
    LettersStay(path);
    assert !Contains(path, "/images") by { Unmentioned(path, "/images"); }
    assert !Contains(path, "/videos/") by { Unmentioned(path, "/videos/"); }
    assert !Contains(path, "/audio/") by { Unmentioned(path, "/audio/"); }
    assert !Contains(path, "/subtitles") by { Unmentioned(path, "/subtitles"); }
    assert !Contains(path, "/attachments") by { Unmentioned(path, "/attachments"); }
    assert !Contains(path, "/trickplay") by { Unmentioned(path, "/trickplay"); }
  }

  lemma AuthenticateLogsIn(verb: string, path: string)
    requires EqualFold(verb, "post") && Authenticates(path)
    ensures LogsIn(verb, path) && !IsSessionMediaPath(path)
  {
    AuthenticateReads(path);
    LettersStay(path);
    UserPathIsNoStatus(path);
    UserPathIsNoMedia(path);
  }

  lemma Unmentioned(path: string, part: string)
    requires UserPath(path) && |part| >= 4 && part[0] == '/' && part[1] != 'u' && (part[2] != 'u' || part[3] != 't')
    ensures !Contains(path, part)
  {
    forall i | 0 <= i <= |path| - |part| ensures !OccursAt(path, part, i) {
      var here := path[i..i + |part|];
      assert here[0] == path[i] && here[1] == path[i + 1] && here[2] == path[i + 2] && here[3] == path[i + 3];
    }
  }

  lemma ConfIs(cfg: Config)
    requires Small(cfg)
    ensures UniqueNames(cfg.backends) && A in cfg.backends && B in cfg.backends
    ensures forall b :: b in cfg.backends <==> b == A || b == B
    ensures LastNamed(cfg.backends, "a") == Some(A) && LastNamed(cfg.backends, "b") == Some(B)
  {
    var bs := cfg.backends;
    assert bs == [A, B] && bs[0] == A && bs[1] == B && bs[..1] == [A];
    assert LastNamed(bs[..1], "a") == Some(A);
  }

  lemma WorldsAre(cfg: Config)
    requires Small(cfg)
    ensures Takes(cfg, EMPTY.world, "a") && Takes(cfg, EMPTY.world, "b")
    ensures !Disabled(cfg, A_DOWN, "a") && !Takes(cfg, A_DOWN, "a") && Takes(cfg, A_DOWN, "b")
  {
    ConfIs(cfg);
  }

  lemma NobodyIsGray(cfg: Config, req: Request)
    requires Small(cfg) && req.id.client == ""
    ensures !Graylisted(cfg.graylist, req, "", "")
  {
    assert MatchPaths(cfg.graylist) == [];
  }

  // A request without token changes an empty store in no way before it is bound.
  lemma EmptyDecides(cfg: Config, w: World, req: Request, faults: Faults, now: int)
    ensures var (db, d) := Decide(cfg, w, EMPTY.db, req, faults, now);
      db == EMPTY.db && !d.drop
  {
    var db := EMPTY.db;
    assert LookupToken(cfg.ttl, db, req.id.token, now) == (db, None);
    assert LookupDevice(cfg.ttl, db, req.id.deviceID, now) == (db, None);
    var gray := Graylisted(cfg.graylist, req, "", "");
    EmptyUnbound(cfg, w, req, faults, now, PolicyFor(cfg, gray), gray);
  }

  lemma CountsBounded(db: Db, name: string)
    ensures CountsOf(db, name).tokens <= |db.tokens| && CountsOf(db, name).devices <= |db.devices|
  {
    SmallerSet((set k | k in db.tokens && db.tokens[k].backend == name), db.tokens.Keys);
    SmallerSet((set k | k in db.devices && db.devices[k].backend == name), db.devices.Keys);
  }

  lemma SmallerSet(a: set<string>, b: set<string>)
    requires a <= b
    ensures |a| <= |b|
  {
    assert b == a + (b - a);
  }

  lemma EmptyUnbound(cfg: Config, w: World, req: Request, faults: Faults, now: int, policy: Policy, gray: bool)
    ensures var (db, d) := Unbound(cfg, w, EMPTY.db, req, faults, now, policy, gray);
      db == EMPTY.db && !d.drop
  {
    var db := EMPTY.db;
    assert LookupAnon(cfg.ttl, db, SessionKey(req.ip), now) == (db, None);
    CountsBounded(db, req.cookie);
    assert !CookieFollows(cfg, db, faults.counts, req.cookie);
    var (db1, d1) := AnonOrNew(cfg, w, db, req, faults, now, policy, gray);
    assert db1 == db && !d1.drop by {
      assert LookupAnon(cfg.ttl, db, AnonKey(req.ip, req.userAgent), now) == (db, None);
    }
  }

  /* The runs */

  // Someone logs in, and "a" issues the token "t".
  function LoggingIn(verb: string, path: string): seq<Event> {
    var req := From(verb, path, "");
    [Arrival(req, OK, 0), LoginDone(req, "a", Login("t", "", "", ""), 0)]
  }

  const ISSUED := Db(map["t" := TokenRow("a", Meta("", "", "", "", "", ""), 0, 0, "", "", 0)], map[],
                     map[SessionKey("10.0.0.1") := AnonRow("a", 0, 0)])

  lemma AfterLogin(cfg: Config, verb: string, path: string)
    requires Small(cfg) && LogsIn(verb, path)
    ensures Run(cfg, EMPTY, LoggingIn(verb, path)) == Sys(ISSUED, EMPTY.world)
  {
    var evs := LoggingIn(verb, path);
    EmptyDecides(cfg, EMPTY.world, evs[0].req, OK, 0);
    var s := Step(cfg, EMPTY, evs[1]);
    assert Step(cfg, EMPTY, evs[0]) == EMPTY;
    assert s.db == ISSUED by {
      assert Unix(0) == 0;
    }
    var none: seq<Event> := [];
    assert none + [evs[0]] == [evs[0]] && [evs[0]] + [evs[1]] == evs;
    RunPush(cfg, EMPTY, none, evs[0]);
    RunPush(cfg, EMPTY, [evs[0]], evs[1]);
  }

  lemma RunChange(cfg: Config, evs: seq<Event>, s: Sys, world: World)
    requires Run(cfg, EMPTY, evs) == s
    ensures Run(cfg, EMPTY, evs + [Change(world)]) == Sys(s.db, world)
  {
    RunPush(cfg, EMPTY, evs, Change(world));
  }

  lemma RunArrival(cfg: Config, evs: seq<Event>, s: Sys, req: Request)
    requires Run(cfg, EMPTY, evs) == s
    ensures Run(cfg, EMPTY, evs + [Arrival(req, OK, 0)]) == Sys(Arrive(cfg, s.world, s.db, req, OK, 0).0, s.world)
  {
    RunPush(cfg, EMPTY, evs, Arrival(req, OK, 0));
  }

  lemma IssuedThenDown(cfg: Config, verb: string, path: string)
    requires Small(cfg) && LogsIn(verb, path)
    ensures Run(cfg, EMPTY, LoggingIn(verb, path) + [Change(A_DOWN)]) == Sys(ISSUED, A_DOWN)
  {
    AfterLogin(cfg, verb, path);
    RunChange(cfg, LoggingIn(verb, path), Sys(ISSUED, EMPTY.world), A_DOWN);
  }

  lemma UsedThenDown(digest: AnonKey -> string, verb: string, path: string, req: Request)
    requires LogsIn(verb, path)
    ensures var cfg := Conf(digest);
      Run(cfg, EMPTY, LoggingIn(verb, path) + [Arrival(req, OK, 0)] + [Change(A_DOWN)]) ==
        Sys(Arrive(cfg, EMPTY.world, ISSUED, req, OK, 0).0, A_DOWN)
  {
    var cfg, evs := Conf(digest), LoggingIn(verb, path);
    AfterLogin(Conf(digest), verb, path);
    RunArrival(cfg, evs, Sys(ISSUED, EMPTY.world), req);
    var used := Arrive(cfg, EMPTY.world, ISSUED, req, OK, 0).0;
    RunChange(cfg, evs + [Arrival(req, OK, 0)], Sys(used, EMPTY.world), A_DOWN);
  }

  lemma DownDrops(digest: AnonKey -> string, db: Db, req: Request)
    requires Pinned(db, "t", "a") && req.id == Identifiers.Identifiers("t", "", "", "", "")
    requires Browses(req.verb, req.path)
    requires db.tokens["t"].meta.client == ""
    ensures var cfg := Conf(digest);
      && Retries.Drops(cfg, A_DOWN, db, req, OK, 0)
      && Arrive(cfg, A_DOWN, db, req, OK, 0).1 == Refused(ReauthRequired)
  {
    var cfg := Conf(digest);
    WorldsAre(Conf(digest));
    NobodyIsGray(Conf(digest), req);
    LiveTokenDecides(cfg, A_DOWN, db, req, OK, 0);
  }

  // The token is refused once, and then forwarded to "b" and bound there.
  ghost predicate MovesOn(cfg: Config, s: Sys, req: Request) {
    var (db1, first) := Arrive(cfg, s.world, s.db, req, OK, 0);
    var (db2, second) := Arrive(cfg, s.world, db1, req, OK, 0);
    first == Refused(ReauthRequired) && second == Forward(B) && Pinned(db2, "t", "b")
  }

  // It is refused, and refused again.
  ghost predicate StaysRefused(cfg: Config, s: Sys, req: Request) {
    var (db1, first) := Arrive(cfg, s.world, s.db, req, OK, 0);
    first == Refused(ReauthRequired) && Arrive(cfg, s.world, db1, req, OK, 0).1.Refused?
  }

  // Then "a" goes down.  The client comes back with its token, which is refused, and
  // tries again: the token "a" issued is forwarded to "b" and bound there.
  lemma RetryMovesAwayHappens(digest: AnonKey -> string, loginVerb: string, loginPath: string, verb: string,
                              path: string)
    requires LogsIn(loginVerb, loginPath) && Browses(verb, path)
    ensures var cfg := Conf(digest);
      MovesOn(cfg, Run(cfg, EMPTY, LoggingIn(loginVerb, loginPath) + [Change(A_DOWN)]), From(verb, path, "t"))
  {
    IssuedThenDown(Conf(digest), loginVerb, loginPath);
    IssuedMoves(digest, From(verb, path, "t"));
  }

  lemma IssuedMoves(digest: AnonKey -> string, req: Request)
    requires Browses(req.verb, req.path) && req == From(req.verb, req.path, "t")
    ensures MovesOn(Conf(digest), Sys(ISSUED, A_DOWN), req)
  {
    var cfg := Conf(digest);
    DownDrops(digest, ISSUED, req);
    var db1 := Arrive(cfg, A_DOWN, ISSUED, req, OK, 0).0;
    assert Guide(cfg, db1, req, OK, 0) == None by {
      DroppedRows(cfg, A_DOWN, ISSUED, req, OK, 0);
      assert AnonKey("10.0.0.1", "player") !in db1.anons;
    }
    assert Leads(cfg, A_DOWN, None, ClassPolicy(cfg, db1, req, 0), Hashed(cfg, req)) by {
      WorldsAre(Conf(digest));
      ConfIs(Conf(digest));
      NobodyIsGray(Conf(digest), req);
    }
    RetryMovesExactlyWhen(cfg, A_DOWN, ISSUED, req, OK, 0, A_DOWN, req, OK, 0);
    var route := Arrive(cfg, A_DOWN, db1, req, OK, 0).1;
    assert route.to == B by {
      ConfIs(Conf(digest));
    }
  }

  // But had the client used its token before, without a DeviceId, the retry would be
  // refused again.
  lemma RetryIsRefusedAgainHappens(digest: AnonKey -> string, loginVerb: string, loginPath: string, verb: string,
                                   path: string)
    requires LogsIn(loginVerb, loginPath) && Browses(verb, path)
    ensures var cfg, req := Conf(digest), From(verb, path, "t");
      var evs := LoggingIn(loginVerb, loginPath) + [Arrival(req, OK, 0)] + [Change(A_DOWN)];
      StaysRefused(cfg, Run(cfg, EMPTY, evs), req)
  {
    UsedThenDown(digest, loginVerb, loginPath, From(verb, path, "t"));
    UsedIsRefused(digest, From(verb, path, "t"));
  }

  lemma UsedIsRefused(digest: AnonKey -> string, req: Request)
    requires Browses(req.verb, req.path) && req == From(req.verb, req.path, "t")
    ensures var db := Arrive(Conf(digest), EMPTY.world, ISSUED, req, OK, 0).0;
      StaysRefused(Conf(digest), Sys(db, A_DOWN), req)
  {
    var cfg := Conf(digest);
    var db := Arrive(cfg, EMPTY.world, ISSUED, req, OK, 0).0;
    UsedToken(digest, req.verb, req.path);
    DownDrops(digest, db, req);
    NobodyIsGray(Conf(digest), req);
    RetryIsRefusedAgain(cfg, A_DOWN, db, req, OK, 0, OK, 0);
  }

  lemma UsedToken(digest: AnonKey -> string, verb: string, path: string)
    requires Browses(verb, path)
    ensures var db := Arrive(Conf(digest), EMPTY.world, ISSUED, From(verb, path, "t"), OK, 0).0;
      var key := AnonKey("10.0.0.1", "player");
      && Pinned(db, "t", "a") && db.tokens["t"].meta.client == ""
      && key in db.anons && db.anons[key].backend == "a"
  {
    var cfg, req := Conf(digest), From(verb, path, "t");
    ConfIs(Conf(digest));
    WorldsAre(Conf(digest));
    LiveTokenDecides(cfg, EMPTY.world, ISSUED, req, OK, 0);
    BoundTokenRoute(cfg, EMPTY.world, ISSUED, req, OK, 0);
    ForwardLeavesAnonRow(cfg, EMPTY.world, ISSUED, req, OK, 0);
    ArrivalOwn(cfg, EMPTY.world, ISSUED, req, OK, 0);
  }

  // A login that still carries the token: "a" refuses the password, and the hop to
  // "b" carries the token "a" issued.
  lemma LoginSendsTokenHappens(digest: AnonKey -> string, verb: string, path: string)
    requires LogsIn(verb, path)
    ensures var s := Run(Conf(digest), EMPTY, LoggingIn(verb, path));
      HopsOf(Conf(digest), s.world, s.db, From(verb, path, "t"), OK, 0, "", REFUSALS) == [Hop(A, "t"), Hop(B, "t")]
  {
    AfterLogin(Conf(digest), verb, path);
    IssuedHops(digest, verb, path);
  }

  lemma IssuedHops(digest: AnonKey -> string, verb: string, path: string)
    requires LogsIn(verb, path)
    ensures HopsOf(Conf(digest), EMPTY.world, ISSUED, From(verb, path, "t"), OK, 0, "", REFUSALS) ==
      [Hop(A, "t"), Hop(B, "t")]
  {
    BothAreCandidates(digest);
    IssuedLogsIn(digest, verb, path);
    TwoHops();
  }

  lemma TwoHops()
    ensures LoginHops([A, B], REFUSALS, 0, "t") == [Hop(A, "t"), Hop(B, "t")]
  {
    assert LoginHops([A, B], REFUSALS, 1, "t") == [Hop(B, "t")];
  }

  lemma IssuedLogsIn(digest: AnonKey -> string, verb: string, path: string)
    requires LogsIn(verb, path)
    ensures var route := Arrive(Conf(digest), EMPTY.world, ISSUED, From(verb, path, "t"), OK, 0).1;
      route.TryLogin? && route.decision.backend == Some(A) && route.decision.kind.TokenKind?
  {
    ConfIs(Conf(digest));
    WorldsAre(Conf(digest));
    LiveTokenDecides(Conf(digest), EMPTY.world, ISSUED, From(verb, path, "t"), OK, 0);
  }

  lemma BothAreCandidates(digest: AnonKey -> string)
    ensures LoginCandidates(Conf(digest), EMPTY.world, "a") == [A, B]
  {
    var cfg, w := Conf(digest), EMPTY.world;
    var none: seq<Backend> := [];
    var one, both := [A], [A, B];
    assert both[..1] == one && one[..0] == none;
    assert Takes(cfg, w, "a") && Takes(cfg, w, "b") by {
      WorldsAre(cfg);
    }
    assert EligibleAmong(cfg, w, none) == none;
    assert EligibleAmong(cfg, w, one) == one;
    assert EligibleAmong(cfg, w, both) == both;
    assert LastNamed(one, "a") == Some(A) && LastNamed(both, "a") == Some(A);
    assert Others(one, "a") == none;
    assert Others(both, "a") == [B];
  }

  // And the login the client makes after its token was dropped: the hop to "b"
  // carries the token "a" issued, whatever "b" answers.
  lemma DroppedLoginSendsTokenHappens(digest: AnonKey -> string, loginVerb: string, loginPath: string,
                                      verb: string, path: string, answers: map<string, HopResult>)
    requires LogsIn(loginVerb, loginPath) && !IsSessionMediaPath(loginPath) && Browses(verb, path)
    ensures var cfg := Conf(digest);
      var evs := LoggingIn(loginVerb, loginPath) + [Change(A_DOWN)] + [Arrival(From(verb, path, "t"), OK, 0)];
      var s := Run(cfg, EMPTY, evs);
      HopsOf(cfg, s.world, s.db, From(loginVerb, loginPath, "t"), OK, 0, "", answers) == [Hop(B, "t")]
  {
    var cfg, req := Conf(digest), From(verb, path, "t");
    IssuedThenDown(Conf(digest), loginVerb, loginPath);
    RunArrival(cfg, LoggingIn(loginVerb, loginPath) + [Change(A_DOWN)], Sys(ISSUED, A_DOWN), req);
    DownDrops(digest, ISSUED, req);
    DroppedRows(cfg, A_DOWN, ISSUED, req, OK, 0);
    DroppedHops(digest, Arrive(cfg, A_DOWN, ISSUED, req, OK, 0).0, loginVerb, loginPath, answers);
  }

  lemma DroppedHops(digest: AnonKey -> string, db: Db, verb: string, path: string, answers: map<string, HopResult>)
    requires LogsIn(verb, path) && !IsSessionMediaPath(path)
    requires "t" !in db.tokens && db.anons == ISSUED.anons
    ensures HopsOf(Conf(digest), A_DOWN, db, From(verb, path, "t"), OK, 0, "", answers) == [Hop(B, "t")]
  {
    var cfg, req := Conf(digest), From(verb, path, "t");
    var d := Decide(cfg, A_DOWN, db, req, OK, 0).1;
    DroppedDecides(digest, db, req);
    assert Arrive(cfg, A_DOWN, db, req, OK, 0).1 == TryLogin(d) && LoginPreferred(d, "") == "b";
    OnlyBIsLeft(digest);
    LastHop(B, answers);
  }

  lemma LastHop(b: Backend, answers: map<string, HopResult>)
    ensures LoginHops([b], answers, 0, "t") == [Hop(b, "t")]
  {
    assert LoginHops([b], answers, 1, "t") == [];
  }

  lemma DroppedDecides(digest: AnonKey -> string, db: Db, req: Request)
    requires req == From(req.verb, req.path, "t") && !IsSessionMediaPath(req.path)
    requires "t" !in db.tokens && db.anons == ISSUED.anons
    ensures var d := Decide(Conf(digest), A_DOWN, db, req, OK, 0).1;
      d.error.None? && d.backend == Some(B) && !d.kind.TokenKind?
  {
    var cfg := Conf(digest);
    assert Guide(cfg, db, req, OK, 0) == None by {
      assert AnonKey("10.0.0.1", "player") !in db.anons;
    }
    WorldsAre(Conf(digest));
    ConfIs(Conf(digest));
    NobodyIsGray(Conf(digest), req);
    assert Leads(cfg, A_DOWN, None, ClassPolicy(cfg, db, req, 0), Hashed(cfg, req));
    RowlessDecision(cfg, A_DOWN, db, req, OK, 0);
  }

  lemma OnlyBIsLeft(digest: AnonKey -> string)
    ensures LoginCandidates(Conf(digest), A_DOWN, "b") == [B]
  {
    var cands := LoginCandidates(Conf(digest), A_DOWN, "b");
    WorldsAre(Conf(digest));
    ConfIs(Conf(digest));
    CandidatesPermuteEligible(Conf(digest), A_DOWN, "b");
    assert B in cands;
    forall c | c in cands ensures c == B {
    }
    forall i | 0 <= i < |cands| ensures cands[i] == B && i == 0 {
      assert cands[i] in cands && cands[0] in cands;
    }
    assert cands[|cands| - 1] == B;
  }

  /* An outage that outlives the token, under fail_closed */

  function Tries(req: Request, times: seq<int>): seq<Event> {
    seq(|times|, i requires 0 <= i < |times| => Arrival(req, OK, times[i]))
  }

  // Every request of the outage is refused and leaves the store as it was.
  lemma TryIsRefused(cfg: Config, req: Request, now: int)
    requires Small(cfg) && cfg.policy.FailClosed? && Browses(req.verb, req.path) && req == From(req.verb, req.path, "t")
    requires !Expired(0, cfg.ttl.token, now)
    ensures Arrive(cfg, A_DOWN, ISSUED, req, OK, now) == (ISSUED, Refused(BoundUnavailable))
  {
    ConfIs(cfg);
    WorldsAre(cfg);
    NobodyIsGray(cfg, req);
    assert LookupToken(cfg.ttl, ISSUED, "t", now) == (ISSUED, Some(ISSUED.tokens["t"]));
    assert LookupDevice(cfg.ttl, ISSUED, "", now) == (ISSUED, None);
  }

  lemma {:induction false} TriesAreRefused(cfg: Config, req: Request, times: seq<int>)
    requires Small(cfg) && cfg.policy.FailClosed? && Browses(req.verb, req.path) && req == From(req.verb, req.path, "t")
    requires forall i :: 0 <= i < |times| ==> !Expired(0, cfg.ttl.token, times[i])
    ensures Run(cfg, Sys(ISSUED, A_DOWN), Tries(req, times)) == Sys(ISSUED, A_DOWN)
    decreases |times|
  {
    if |times| != 0 {
      TryIsRefused(cfg, req, times[0]);
      assert Tries(req, times)[1..] == Tries(req, times[1..]);
      TriesAreRefused(cfg, req, times[1..]);
    }
  }

  // The token is refused at last, and forwarded to "b" and bound there at now.
  ghost predicate OutlivesToken(cfg: Config, s: Sys, req: Request, last: int, now: int) {
    var (db', route) := Arrive(cfg, s.world, s.db, req, OK, now);
    && Arrive(cfg, s.world, s.db, req, OK, last).1 == Refused(BoundUnavailable)
    && route == Forward(B) && Pinned(db', "t", "b")
  }

  // Someone logs in at "a", which then goes down.  However often the client tries its
  // token while the TTL lasts, the next try is refused; but the first one after that
  // goes to "b" with the token "a" issued.
  lemma OutageMovesTokenHappens(digest: AnonKey -> string, ttl: int, loginVerb: string, loginPath: string,
                                verb: string, path: string, times: seq<int>, last: int, now: int)
    requires LogsIn(loginVerb, loginPath) && Browses(verb, path) && 0 < ttl && last <= ttl < now
    requires forall i :: 0 <= i < |times| ==> times[i] <= ttl
    ensures var cfg, req := FailConf(digest, ttl), From(verb, path, "t");
      var down := Run(cfg, EMPTY, LoggingIn(loginVerb, loginPath) + [Change(A_DOWN)]);
      OutlivesToken(cfg, Run(cfg, down, Tries(req, times)), req, last, now)
  {
    var cfg, req := FailConf(digest, ttl), From(verb, path, "t");
    IssuedThenDown(cfg, loginVerb, loginPath);
    TriesAreRefused(cfg, req, times);
    TryIsRefused(cfg, req, last);
    LapsedMoves(cfg, req, now);
  }

  lemma LapsedMoves(cfg: Config, req: Request, now: int)
    requires Small(cfg) && cfg.policy.FailClosed? && Browses(req.verb, req.path) && req == From(req.verb, req.path, "t")
    requires Expired(0, cfg.ttl.token, now)
    ensures var (db', route) := Arrive(cfg, A_DOWN, ISSUED, req, OK, now);
      route == Forward(B) && Pinned(db', "t", "b")
  {
    assert Guide(cfg, ISSUED, req, OK, now) == None by {
      assert AnonKey("10.0.0.1", "player") !in ISSUED.anons;
    }
    ConfIs(cfg);
    WorldsAre(cfg);
    NobodyIsGray(cfg, req);
    assert Leads(cfg, A_DOWN, None, ClassPolicy(cfg, ISSUED, req, now), Hashed(cfg, req));
    RowlessRoute(cfg, A_DOWN, ISSUED, req, OK, now);
  }
}
