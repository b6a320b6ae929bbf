// Where a request goes: the token, device and anonymous rows decide first, then the
// placement of new clients, under the configured policy for unhealthy backends.
module RouterModel {
  import opened Prelude
  import opened Text
  import opened Paths
  import opened Names
  import opened Store
  import Health
  import Identifiers

  type Id = Identifiers.Identifiers

  datatype Backend = Backend(name: string, disabled: bool)

  datatype Policy = ForceReauth | FailClosed | PinUnhealthy

  // clients is None for the built-in ["Infuse"], policy is None for the default.
  datatype Graylist = Graylist(policy: Option<Policy>, clients: Option<seq<string>>, pathPrefixes: seq<string>)

  // degradedOK: new_clients_require is healthy_or_degraded.  digest: HashAnon.
  datatype Config = Config(backends: seq<Backend>, policy: Policy, graylist: Graylist, degradedOK: bool, ttl: TTLs,
                           digest: AnonKey -> string)

  // What the router reads besides the store: the runtime flags and the last probes.
  datatype World = World(runtime: map<string, bool>, health: map<string, Health.Status>)

  // cookie is hap_backend, "" for absent.
  datatype Request = Request(verb: string, path: string, ip: string, userAgent: string, cookie: string, id: Id)

  // Which store reads fail.
  datatype Faults = Faults(token: bool, device: bool, session: bool, anon: bool, counts: bool)

  datatype Kind = NoKind | TokenKind | DeviceKind | AnonKind

  datatype HapError = BackendDisabled | BoundUnavailable | ReauthRequired | NoEligible | StoreUnavailable

  datatype Decision = Decision(backend: Option<Backend>, kind: Kind, bound: bool, drop: bool, refuseToken: bool,
                               gray: bool, error: Option<HapError>)

  const REFUSED := Decision(None, NoKind, false, false, false, false, Some(StoreUnavailable))

  /* Backends */

  predicate UniqueNames(bs: seq<Backend>) {
    forall i, j :: 0 <= i < j < |bs| ==> bs[i].name != bs[j].name
  }

  function NamesOf(bs: seq<Backend>): seq<string> {
    seq(|bs|, i requires 0 <= i < |bs| => bs[i].name)
  }

  // The by map and the yaml flags: a later backend of the same name wins.
  function LastNamed(bs: seq<Backend>, name: string): (b: Option<Backend>)
    ensures b.Some? ==> b.value in bs && b.value.name == name
    ensures b.None? ==> forall i :: 0 <= i < |bs| ==> bs[i].name != name
  {
    if |bs| == 0 then None
    else if bs[|bs| - 1].name == name then Some(bs[|bs| - 1])
    else LastNamed(bs[..|bs| - 1], name)
  }

  predicate Disabled(cfg: Config, w: World, name: string) {
    var b := LastNamed(cfg.backends, name);
    (b.Some? && b.value.disabled) || (name in w.runtime && w.runtime[name])
  }

  function State(w: World, name: string): Health.Status {
    if name in w.health then w.health[name] else Health.Unknown
  }

  predicate Takes(cfg: Config, w: World, name: string) {
    var st := State(w, name);
    !Disabled(cfg, w, name) && (st.Healthy? || st.Unknown? || (cfg.degradedOK && st.Degraded?))
  }

  function EligibleAmong(cfg: Config, w: World, bs: seq<Backend>): seq<Backend> {
    if |bs| == 0 then []
    else
      var rest := EligibleAmong(cfg, w, bs[..|bs| - 1]);
      if Takes(cfg, w, bs[|bs| - 1].name) then rest + [bs[|bs| - 1]] else rest
  }

  function Eligible(cfg: Config, w: World): seq<Backend> {
    EligibleAmong(cfg, w, cfg.backends)
  }

  /* Gray-list */

  function ClientNames(g: Graylist): seq<string> {
    if g.clients.None? then ["Infuse"] else g.clients.value
  }

  predicate MatchesClient(g: Graylist, client: string) {
    client != "" && exists i :: 0 <= i < |ClientNames(g)| && NamesClient(ClientNames(g)[i], client)
  }

  predicate NamesClient(name: string, client: string) {
    name != "" && Contains(ToLower(client), ToLower(name))
  }

  predicate IsInfuse(name: string) {
    EqualFold(name, "infuse")
  }

  function MatchPaths(g: Graylist): seq<string> {
    if exists i :: 0 <= i < |ClientNames(g)| && IsInfuse(ClientNames(g)[i]) then g.pathPrefixes + ["/InfuseSync"]
    else g.pathPrefixes
  }

  predicate UnderPrefix(path: string, prefix: string) {
    prefix != "" && |prefix| <= |path| && ToLower(path)[..|prefix|] == ToLower(prefix)
  }

  predicate MatchesPath(g: Graylist, path: string) {
    path != "" && exists i :: 0 <= i < |MatchPaths(g)| && UnderPrefix(path, MatchPaths(g)[i])
  }

  // The request, or the client class stored with its token or device.
  predicate Graylisted(g: Graylist, req: Request, tokenClient: string, deviceClient: string) {
    || MatchesClient(g, req.id.client) || MatchesPath(g, req.path)
    || MatchesClient(g, tokenClient) || MatchesClient(g, deviceClient)
  }

  function PolicyFor(cfg: Config, gray: bool): Policy {
    if !gray then cfg.policy else if cfg.graylist.policy.None? then FailClosed else cfg.graylist.policy.value
  }

  predicate IsSessionMediaPath(path: string) {
    var p := ToLower(path);
    || Contains(p, "/images") || Contains(p, "/videos/") || Contains(p, "/audio/")
    || Contains(p, "/subtitles") || Contains(p, "/attachments") || Contains(p, "/trickplay")
  }

  /* Placement */

  ghost function Load(db: Db, fault: bool, name: string): nat {
    if fault then 0 else CountsOf(db, name).tokens + CountsOf(db, name).devices
  }

  // b goes before c: fewer bindings, or as many and the smaller name.
  ghost predicate Lighter(db: Db, fault: bool, b: string, c: string) {
    var m, n := Load(db, fault, b), Load(db, fault, c);
    m < n || (m == n && Less(b, c))
  }

  ghost function Lightest(db: Db, fault: bool, bs: seq<Backend>): Backend
    requires |bs| > 0
  {
    if |bs| == 1 then bs[0]
    else
      var best, b := Lightest(db, fault, bs[..|bs| - 1]), bs[|bs| - 1];
      if Lighter(db, fault, b.name, best.name) then b else best
  }

  function HashPick(device: string, anon: string, names: seq<string>): string {
    if |names| == 0 then "" else HashName(Or(device, anon), names)
  }

  function Placed(b: Option<Backend>): Decision {
    Decision(b, NoKind, false, false, false, false, None)
  }

  ghost function PickEligible(cfg: Config, w: World, db: Db, fault: bool, device: string, hint: string): Decision {
    var elig := Eligible(cfg, w);
    if |elig| == 0 then Placed(None).(error := Some(NoEligible))
    else if hint != "" && LastNamed(elig, hint).Some? then Placed(LastNamed(elig, hint))
    else if device != "" then Placed(LastNamed(cfg.backends, HashPick(device, "", NamesOf(elig))))
    else Placed(Some(Lightest(db, fault, elig)))
  }

  ghost function PickNew(cfg: Config, w: World, db: Db, fault: bool, req: Request, policy: Policy,
                         gray: bool): Decision
  {
    if policy.PinUnhealthy? then
      var name := HashPick(req.id.deviceID, cfg.digest(AnonKey(req.ip, req.userAgent)), NamesOf(cfg.backends));
      var d := Placed(LastNamed(cfg.backends, name)).(gray := gray);
      if Disabled(cfg, w, name) then d.(kind := DeviceKind, error := Some(BackendDisabled))
      else if State(w, name).Unhealthy? then d.(kind := DeviceKind, error := Some(BoundUnavailable))
      else d
    else
      PickEligible(cfg, w, db, fault, req.id.deviceID, req.cookie).(gray := gray)
  }

  ghost function Bound(cfg: Config, w: World, db: Db, fault: bool, name: string, kind: Kind, id: Id, policy: Policy,
                       gray: bool): Decision
  {
    var b := LastNamed(cfg.backends, name);
    var to := Decision(b, kind, true, false, false, gray, None);
    if Disabled(cfg, w, name) then to.(error := Some(BackendDisabled))
    else if !State(w, name).Unhealthy? then to
    else match policy
      case FailClosed => to.(error := Some(BoundUnavailable))
      case PinUnhealthy =>
        if b.Some? then to else Placed(None).(gray := gray, error := Some(BoundUnavailable))
      case ForceReauth =>
        if id.token != "" then Decision(None, kind, false, true, true, gray, Some(ReauthRequired))
        else PickEligible(cfg, w, db, fault, id.deviceID, "").(drop := true, kind := kind, gray := gray)
  }

  /* Decide */

  // The cookie counts only for a known backend with a token or device row, expired or not.
  ghost predicate CookieFollows(cfg: Config, db: Db, fault: bool, cookie: string) {
    cookie != "" && LastNamed(cfg.backends, cookie).Some? && Load(db, fault, cookie) > 0
  }

  ghost function AnonOrNew(cfg: Config, w: World, db: Db, req: Request, faults: Faults, now: int, policy: Policy,
                           gray: bool): (Db, Decision)
  {
    if faults.anon then (db, REFUSED)
    else
      var (db', row) := LookupAnon(cfg.ttl, db, AnonKey(req.ip, req.userAgent), now);
      if row.Some? then (db', Bound(cfg, w, db', faults.counts, row.value.backend, AnonKind, req.id, policy, gray))
      else (db', PickNew(cfg, w, db', faults.counts, req, policy, gray))
  }

  // Media without identifiers: the cookie, else the address glue, else nothing.
  ghost function FollowSession(cfg: Config, w: World, db: Db, req: Request, faults: Faults, now: int, policy: Policy,
                               gray: bool): (Db, Option<Decision>)
  {
    if CookieFollows(cfg, db, faults.counts, req.cookie) then
      (db, Some(Bound(cfg, w, db, faults.counts, req.cookie, AnonKind, req.id, policy, gray)))
    else if faults.session then (db, Some(REFUSED))
    else
      var (db', row) := LookupAnon(cfg.ttl, db, SessionKey(req.ip), now);
      if row.Some? then
        (db', Some(Bound(cfg, w, db', faults.counts, row.value.backend, AnonKind, req.id, policy, gray)))
      else (db', None)
  }

  ghost function Unbound(cfg: Config, w: World, db: Db, req: Request, faults: Faults, now: int, policy: Policy,
                         gray: bool): (Db, Decision)
  {
    if IsSessionMediaPath(req.path) then
      var (db', d) := FollowSession(cfg, w, db, req, faults, now, policy, gray);
      if d.Some? then (db', d.value) else AnonOrNew(cfg, w, db', req, faults, now, policy, gray)
    else
      AnonOrNew(cfg, w, db, req, faults, now, policy, gray)
  }

  function TokenClient(row: Option<TokenRow>): string {
    if row.Some? then row.value.meta.client else ""
  }

  function DeviceClient(row: Option<DeviceRow>): string {
    if row.Some? then row.value.client else ""
  }

  ghost function Decide(cfg: Config, w: World, db: Db, req: Request, faults: Faults, now: int): (Db, Decision) {
    if req.id.token != "" && faults.token then (db, REFUSED)
    else
      var (db1, tokenRow) := LookupToken(cfg.ttl, db, req.id.token, now);
      if req.id.deviceID != "" && faults.device then (db1, REFUSED)
      else
        var (db2, deviceRow) := LookupDevice(cfg.ttl, db1, req.id.deviceID, now);
        var gray := Graylisted(cfg.graylist, req, TokenClient(tokenRow), DeviceClient(deviceRow));
        var policy := PolicyFor(cfg, gray);
        if tokenRow.Some? then
          (db2, Bound(cfg, w, db2, faults.counts, tokenRow.value.backend, TokenKind, req.id, policy, gray))
        else if deviceRow.Some? then
          (db2, Bound(cfg, w, db2, faults.counts, deviceRow.value.backend, DeviceKind, req.id, policy, gray))
        else
          Unbound(cfg, w, db2, req, faults, now, policy, gray)
  }

  /* Login */

  function Others(bs: seq<Backend>, name: string): seq<Backend> {
    if |bs| == 0 then []
    else
      var rest := Others(bs[..|bs| - 1], name);
      if bs[|bs| - 1].name == name then rest else rest + [bs[|bs| - 1]]
  }

  function LoginCandidates(cfg: Config, w: World, preferred: string): seq<Backend> {
    var elig := Eligible(cfg, w);
    var first := LastNamed(elig, preferred);
    if first.Some? then [first.value] + Others(elig, preferred) else Others(elig, preferred)
  }
}
