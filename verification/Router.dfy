// The router as it runs, over the store, the health monitor and the flags.
module Router {
  import opened Prelude
  import opened Names
  import opened Store
  import opened SqlStore
  import opened RouterModel
  import Health
  import Flags
  import RouterProofs

  class Router {
    const cfg: Config
    const st: SQLStore
    const mon: Health.Monitor
    const flags: Flags.Flags
    var byName: map<string, Backend>

    ghost predicate Valid()
      reads this, flags, st
    {
      && st.Valid() && st.ttl == cfg.ttl
      && flags.Follows(cfg.backends)
      && forall n :: Row(byName, n) == LastNamed(cfg.backends, n)
    }

    ghost function World(): World
      reads flags, mon
    {
      RouterModel.World(flags.runtime, mon.snaps)
    }

    // New; rows is the flag table, None when it cannot be read.
    constructor (cfg: Config, st: SQLStore, mon: Health.Monitor, rows: Option<map<string, bool>>)
      requires st.Valid() && st.ttl == cfg.ttl
      ensures Valid() && fresh(flags)
      ensures this.cfg == cfg && this.st == st && this.mon == mon
      ensures World() == RouterModel.World(Flags.Loaded(rows), mon.snaps)
    {
      this.cfg := cfg;
      this.st := st;
      this.mon := mon;
      var switches := new Flags.Flags(cfg.backends);
      switches.Load(rows);
      assert map[] + Flags.Loaded(rows) == Flags.Loaded(rows);
      flags := switches;
      byName := map[];
      new;
      for i := 0 to |cfg.backends|
        invariant forall n :: Row(byName, n) == LastNamed(cfg.backends[..i], n)
        invariant World() == RouterModel.World(Flags.Loaded(rows), mon.snaps) && flags.Follows(cfg.backends)
        invariant fresh(flags)
      {
        assert cfg.backends[..i + 1][..i] == cfg.backends[..i];
        byName := byName[cfg.backends[i].name := cfg.backends[i]];
      }
      assert cfg.backends[..|cfg.backends|] == cfg.backends;
    }

    function StateOf(name: string): Health.Status
      reads mon
    {
      if name in mon.snaps then mon.snaps[name] else Health.Unknown
    }

    method EligibleNow() returns (out: seq<Backend>)
      requires Valid()
      ensures out == Eligible(cfg, World())
    {
      out := [];
      for i := 0 to |cfg.backends|
        invariant out == EligibleAmong(cfg, World(), cfg.backends[..i])
      {
        assert cfg.backends[..i + 1][..i] == cfg.backends[..i];
        var b := cfg.backends[i];
        if flags.Disabled(b.name) {
          continue;
        }
        var st := StateOf(b.name);
        var ok := st.Healthy? || st.Unknown?;
        if cfg.degradedOK {
          ok := ok || st.Degraded?;
        }
        if ok {
          out := out + [b];
        }
      }
      assert cfg.backends[..|cfg.backends|] == cfg.backends;
    }

    // hashName
    static method HashOf(device: string, anon: string, names: seq<string>) returns (n: string)
      ensures n == HashPick(device, anon, names)
    {
      if |names| == 0 {
        return "";
      }
      var key := device;
      if key == "" {
        key := anon;
      }
      var h := Sum32(key);
      SortSorts(names);
      var sorted := SortNames(names);
      n := sorted[h as int % |sorted|];
    }

    // The scan for the lightest of a non-empty list.
    method LeastLoaded(elig: seq<Backend>, fault: bool) returns (best: Backend)
      requires |elig| > 0
      ensures best == Lightest(st.Contents(), fault, elig)
    {
      var counts: map<string, Counts> := map[];
      if !fault {
        counts := st.CountsByBackend();
      }
      best := elig[0];
      var bestN := LoadIn(counts, best.name);
      assert elig[..1] == [elig[0]];
      assert forall name :: LoadIn(counts, name) == Load(st.Contents(), fault, name);
      for i := 1 to |elig|
        invariant best == Lightest(st.Contents(), fault, elig[..i])
        invariant bestN == LoadIn(counts, best.name)
      {
        assert elig[..i + 1][..i] == elig[..i];
        var b := elig[i];
        var n := LoadIn(counts, b.name);
        if n < bestN || (n == bestN && Less(b.name, best.name)) {
          best := b;
          bestN := n;
        }
      }
      assert elig[..|elig|] == elig;
    }

    // The backend a usable hint names.
    static method Hinted(elig: seq<Backend>, hint: string) returns (b: Option<Backend>)
      requires UniqueNames(elig)
      ensures b == if hint == "" then None else LastNamed(elig, hint)
    {
      if hint != "" {
        for i := 0 to |elig|
          invariant forall j :: 0 <= j < i ==> elig[j].name != hint
        {
          if elig[i].name == hint {
            return Some(elig[i]);
          }
        }
      }
      return None;
    }

    method Pick(device: string, hint: string, fault: bool) returns (d: Decision)
      requires Valid() && UniqueNames(cfg.backends)
      ensures d == PickEligible(cfg, World(), st.Contents(), fault, device, hint)
    {
      var elig := EligibleNow();
      if |elig| == 0 {
        return Placed(None).(error := Some(NoEligible));
      }
      RouterProofs.EligibleIsFilter(cfg, World(), cfg.backends);
      var hinted := Hinted(elig, hint);
      if hinted.Some? {
        return Placed(hinted);
      }
      if device != "" {
        var name := HashOf(device, "", NamesOf(elig));
        return Placed(Row(byName, name));
      }
      var best := LeastLoaded(elig, fault);
      return Placed(Some(best));
    }

    method PickNewFor(req: Request, policy: Policy, gray: bool, fault: bool) returns (d: Decision)
      requires Valid() && UniqueNames(cfg.backends)
      ensures d == PickNew(cfg, World(), st.Contents(), fault, req, policy, gray)
    {
      if policy.PinUnhealthy? {
        var name := HashOf(req.id.deviceID, cfg.digest(AnonKey(req.ip, req.userAgent)), NamesOf(cfg.backends));
        d := Placed(Row(byName, name)).(gray := gray);
        if flags.Disabled(name) {
          return d.(kind := DeviceKind, error := Some(BackendDisabled));
        }
        if StateOf(name).Unhealthy? {
          return d.(kind := DeviceKind, error := Some(BoundUnavailable));
        }
        return;
      }
      d := Pick(req.id.deviceID, req.cookie, fault);
      d := d.(gray := gray);
    }

    method BoundTo(name: string, kind: Kind, id: Id, policy: Policy, gray: bool, fault: bool) returns (d: Decision)
      requires Valid() && UniqueNames(cfg.backends)
      ensures d == Bound(cfg, World(), st.Contents(), fault, name, kind, id, policy, gray)
    {
      var b := Row(byName, name);
      d := Decision(b, kind, true, false, false, gray, None);
      if flags.Disabled(name) {
        return d.(error := Some(BackendDisabled));
      }
      if !StateOf(name).Unhealthy? {
        return;
      }
      match policy
      case FailClosed =>
        return d.(error := Some(BoundUnavailable));
      case PinUnhealthy =>
        if b.None? {
          d := Placed(None).(gray := gray, error := Some(BoundUnavailable));
        }
      case ForceReauth =>
        if id.token != "" {
          return Decision(None, kind, false, true, true, gray, Some(ReauthRequired));
        }
        d := Pick(id.deviceID, "", fault);
        d := d.(drop := true, kind := kind, gray := gray);
    }

    // hasLiveBinding
    method HasLiveBinding(name: string, fault: bool) returns (live: bool)
      ensures live <==> Load(st.Contents(), fault, name) > 0
    {
      if fault {
        return false;
      }
      var counts := st.CountsByBackend();
      assert CountIn(counts, name) == CountsOf(st.Contents(), name);
      return LoadIn(counts, name) > 0;
    }

    method FollowSessionOf(req: Request, faults: Faults, now: int, policy: Policy, gray: bool)
        returns (d: Option<Decision>)
      requires Valid() && UniqueNames(cfg.backends)
      modifies st
      ensures Valid()
      ensures (st.Contents(), d) == FollowSession(cfg, World(), old(st.Contents()), req, faults, now, policy, gray)
    {
      if req.cookie != "" && Row(byName, req.cookie).Some? {
        var live := HasLiveBinding(req.cookie, faults.counts);
        if live {
          var to := BoundTo(req.cookie, AnonKind, req.id, policy, gray, faults.counts);
          return Some(to);
        }
      }
      if faults.session {
        return Some(REFUSED);
      }
      var row := st.LookupAnon(SessionKey(req.ip), now);
      if row.Some? {
        var to := BoundTo(row.value.backend, AnonKind, req.id, policy, gray, faults.counts);
        return Some(to);
      }
      return None;
    }

    method UnboundOf(req: Request, faults: Faults, now: int, policy: Policy, gray: bool) returns (d: Decision)
      requires Valid() && UniqueNames(cfg.backends)
      modifies st
      ensures Valid()
      ensures (st.Contents(), d) == Unbound(cfg, World(), old(st.Contents()), req, faults, now, policy, gray)
    {
      if IsSessionMediaPath(req.path) {
        var followed := FollowSessionOf(req, faults, now, policy, gray);
        if followed.Some? {
          return followed.value;
        }
      }
      d := AnonOrNewOf(req, faults, now, policy, gray);
    }

    method AnonOrNewOf(req: Request, faults: Faults, now: int, policy: Policy, gray: bool) returns (d: Decision)
      requires Valid() && UniqueNames(cfg.backends)
      modifies st
      ensures Valid()
      ensures (st.Contents(), d) == AnonOrNew(cfg, World(), old(st.Contents()), req, faults, now, policy, gray)
    {
      if faults.anon {
        return REFUSED;
      }
      var row := st.LookupAnon(AnonKey(req.ip, req.userAgent), now);
      if row.Some? {
        d := BoundTo(row.value.backend, AnonKind, req.id, policy, gray, faults.counts);
        return;
      }
      d := PickNewFor(req, policy, gray, faults.counts);
    }

    method Decide(req: Request, faults: Faults, now: int) returns (d: Decision)
      requires Valid() && UniqueNames(cfg.backends)
      modifies st
      ensures Valid()
      ensures (st.Contents(), d) == RouterModel.Decide(cfg, World(), old(st.Contents()), req, faults, now)
    {
      var tokenRow: Option<TokenRow> := None;
      var deviceRow: Option<DeviceRow> := None;
      if req.id.token != "" {
        if faults.token {
          return REFUSED;
        }
        tokenRow := st.LookupToken(req.id.token, now);
      }
      if req.id.deviceID != "" {
        if faults.device {
          return REFUSED;
        }
        deviceRow := st.LookupDevice(req.id.deviceID, now);
      }
      var gray := IsGraylisted(cfg.graylist, req, TokenClient(tokenRow), DeviceClient(deviceRow));
      var policy := PolicyFor(cfg, gray);
      if tokenRow.Some? {
        d := BoundTo(tokenRow.value.backend, TokenKind, req.id, policy, gray, faults.counts);
        return;
      }
      if deviceRow.Some? {
        d := BoundTo(deviceRow.value.backend, DeviceKind, req.id, policy, gray, faults.counts);
        return;
      }
      d := UnboundOf(req, faults, now, policy, gray);
    }

    // LoginCandidates
    method CandidatesFor(preferred: string) returns (out: seq<Backend>)
      requires Valid()
      ensures out == LoginCandidates(cfg, World(), preferred)
    {
      var elig := EligibleNow();
      var first: Option<Backend> := None;
      var rest: seq<Backend> := [];
      for i := 0 to |elig|
        invariant first == LastNamed(elig[..i], preferred)
        invariant rest == Others(elig[..i], preferred)
      {
        assert elig[..i + 1][..i] == elig[..i];
        if elig[i].name == preferred {
          first := Some(elig[i]);
          continue;
        }
        rest := rest + [elig[i]];
      }
      assert elig[..|elig|] == elig;
      if first.Some? {
        return [first.value] + rest;
      }
      return rest;
    }
  }

  /* Gray-list scans */

  method ClientMatches(g: Graylist, client: string) returns (m: bool)
    ensures m == MatchesClient(g, client)
  {
    if client == "" {
      return false;
    }
    var names := ClientNames(g);
    for i := 0 to |names|
      invariant forall j :: 0 <= j < i ==> !NamesClient(names[j], client)
    {
      if NamesClient(names[i], client) {
        return true;
      }
    }
    return false;
  }

  method PathsOf(g: Graylist) returns (out: seq<string>)
    ensures out == MatchPaths(g)
  {
    out := g.pathPrefixes;
    var names := ClientNames(g);
    for i := 0 to |names|
      invariant out == g.pathPrefixes
      invariant forall j :: 0 <= j < i ==> !IsInfuse(names[j])
    {
      if IsInfuse(names[i]) {
        out := out + ["/InfuseSync"];
        break;
      }
    }
  }

  method PathMatches(g: Graylist, path: string) returns (m: bool)
    ensures m == MatchesPath(g, path)
  {
    if path == "" {
      return false;
    }
    var prefixes := PathsOf(g);
    for i := 0 to |prefixes|
      invariant forall j :: 0 <= j < i ==> !UnderPrefix(path, prefixes[j])
    {
      if UnderPrefix(path, prefixes[i]) {
        return true;
      }
    }
    return false;
  }

  method IsGraylisted(g: Graylist, req: Request, tokenClient: string, deviceClient: string) returns (gray: bool)
    ensures gray == Graylisted(g, req, tokenClient, deviceClient)
  {
    gray := ClientMatches(g, req.id.client);
    if !gray {
      gray := PathMatches(g, req.path);
    }
    if !gray {
      gray := ClientMatches(g, tokenClient);
    }
    if !gray {
      gray := ClientMatches(g, deviceClient);
    }
  }

  function LoadIn(counts: map<string, Counts>, name: string): nat {
    CountIn(counts, name).tokens + CountIn(counts, name).devices
  }
}
