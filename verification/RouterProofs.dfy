// What every decision of the router satisfies.
module RouterProofs {
  import opened Prelude
  import opened Text
  import opened Names
  import opened Store
  import opened RouterModel

  /* Eligible backends */

  lemma {:induction false} EligibleIsFilter(cfg: Config, w: World, bs: seq<Backend>)
    ensures forall b :: b in EligibleAmong(cfg, w, bs) <==> b in bs && Takes(cfg, w, b.name)
    ensures UniqueNames(bs) ==> UniqueNames(EligibleAmong(cfg, w, bs))
  {
    if |bs| != 0 {
      var last := bs[|bs| - 1];
      EligibleIsFilter(cfg, w, bs[..|bs| - 1]);
      assert bs == bs[..|bs| - 1] + [last];
    }
  }

  lemma NamedIn(bs: seq<Backend>, b: Backend)
    requires UniqueNames(bs) && b in bs
    ensures LastNamed(bs, b.name) == Some(b)
  {
  }

  lemma {:induction false} LightestIn(db: Db, fault: bool, bs: seq<Backend>)
    requires |bs| > 0
    ensures Lightest(db, fault, bs) in bs
  {
    if |bs| > 1 {
      LightestIn(db, fault, bs[..|bs| - 1]);
    }
  }

  lemma HashPickIn(cfg: Config, device: string, anon: string, bs: seq<Backend>)
    requires |bs| > 0 && forall b :: b in bs ==> b in cfg.backends
    ensures exists b :: b in bs && b.name == HashPick(device, anon, NamesOf(bs))
    ensures LastNamed(cfg.backends, HashPick(device, anon, NamesOf(bs))).Some?
  {
    var names := NamesOf(bs);
    var i :| 0 <= i < |names| && names[i] == HashPick(device, anon, names);
    assert bs[i] in bs;
  }

  // A placement goes to a backend that takes new clients, or fails for want of one.
  lemma PickIsEligible(cfg: Config, w: World, db: Db, fault: bool, device: string, hint: string)
    ensures var d := PickEligible(cfg, w, db, fault, device, hint);
      && (d.error.None? <==> exists b :: b in cfg.backends && Takes(cfg, w, b.name))
      && (d.error.Some? ==> d.error.value.NoEligible?)
      && (d.error.None? ==> d.backend.Some? && d.backend.value in cfg.backends && Takes(cfg, w, d.backend.value.name))
  {
    var elig := Eligible(cfg, w);
    EligibleIsFilter(cfg, w, cfg.backends);
    if |elig| > 0 {
      assert elig[0] in elig;
      LightestIn(db, fault, elig);
      HashPickIn(cfg, device, "", elig);
    }
  }

  /* The cookie */

  predicate HasRow(db: Db, name: string) {
    || (exists t :: t in db.tokens && db.tokens[t].backend == name)
    || (exists d :: d in db.devices && db.devices[d].backend == name)
  }

  predicate HasLiveRow(cfg: Config, db: Db, name: string, now: int) {
    || (exists t :: t in db.tokens && db.tokens[t].backend == name && !Expired(db.tokens[t].seen, cfg.ttl.token, now))
    || (exists d ::
          d in db.devices && db.devices[d].backend == name && !Expired(db.devices[d].seen, cfg.ttl.device, now))
  }

  lemma LoadIsRows(db: Db, name: string)
    ensures Load(db, false, name) > 0 <==> HasRow(db, name)
  {
    var tokens := set k | k in db.tokens && db.tokens[k].backend == name;
    var devices := set k | k in db.devices && db.devices[k].backend == name;
    assert CountsOf(db, name).tokens == |tokens| && CountsOf(db, name).devices == |devices|;
    assert |tokens| > 0 <==> tokens != {};
    assert |devices| > 0 <==> devices != {};
    assert forall t :: t in db.tokens && db.tokens[t].backend == name ==> t in tokens;
    assert forall d :: d in db.devices && db.devices[d].backend == name ==> d in devices;
  }

  // Media without identifiers follows the cookie to a backend that takes new clients,
  // exactly when some row names it that has not been deleted yet: the documented
  // condition, that the row is live, is not what counts.
  lemma CookieDecides(cfg: Config, w: World, db: Db, req: Request, faults: Faults, now: int)
    requires req.id.token == "" && req.id.deviceID == "" && IsSessionMediaPath(req.path) && !faults.counts
    requires req.cookie != "" && LastNamed(cfg.backends, req.cookie).Some? && Takes(cfg, w, req.cookie)
    ensures CookieFollows(cfg, db, faults.counts, req.cookie) <==> HasRow(db, req.cookie)
    ensures HasRow(db, req.cookie) ==>
      var d := Decide(cfg, w, db, req, faults, now).1;
      d.error.None? && d.backend == LastNamed(cfg.backends, req.cookie) && d.bound
  {
    LoadIsRows(db, req.cookie);
    if HasRow(db, req.cookie) {
      assert LookupToken(cfg.ttl, db, req.id.token, now) == (db, None);
      assert LookupDevice(cfg.ttl, db, req.id.deviceID, now) == (db, None);
      var gray := Graylisted(cfg.graylist, req, "", "");
      var policy := PolicyFor(cfg, gray);
      assert Decide(cfg, w, db, req, faults, now).1 ==
        Bound(cfg, w, db, faults.counts, req.cookie, AnonKind, req.id, policy, gray);
    }
  }

  // So a cookie is followed to a backend whose only row has lapsed.
  lemma LapsedRowIsFollowed(cfg: Config, w: World, db: Db, token: string, req: Request, faults: Faults, now: int)
    requires db.tokens.Keys == {token} && db.tokens[token].backend == req.cookie && db.devices == map[]
    requires Expired(db.tokens[token].seen, cfg.ttl.token, now)
    requires req.id.token == "" && req.id.deviceID == "" && IsSessionMediaPath(req.path) && !faults.counts
    requires req.cookie != "" && LastNamed(cfg.backends, req.cookie).Some? && Takes(cfg, w, req.cookie)
    ensures !HasLiveRow(cfg, db, req.cookie, now)
    ensures var d := Decide(cfg, w, db, req, faults, now).1;
      d.error.None? && d.backend == LastNamed(cfg.backends, req.cookie)
  {
    assert token in db.tokens;
    CookieDecides(cfg, w, db, req, faults, now);
  }

  /* Forwarding safety */

  // What a decision may forward to.
  predicate Safe(cfg: Config, w: World, d: Decision) {
    d.error.None? && d.backend.Some? ==>
      var name := d.backend.value.name;
      && d.backend.value in cfg.backends
      && !Disabled(cfg, w, name)
      && (State(w, name).Unhealthy? ==> d.bound && PolicyFor(cfg, d.gray).PinUnhealthy?)
      && (!d.bound && !PolicyFor(cfg, d.gray).PinUnhealthy? ==> Takes(cfg, w, name))
  }

  lemma BoundIsSafe(cfg: Config, w: World, db: Db, fault: bool, name: string, kind: Kind, id: Id, gray: bool)
    ensures Safe(cfg, w, Bound(cfg, w, db, fault, name, kind, id, PolicyFor(cfg, gray), gray))
  {
    var policy := PolicyFor(cfg, gray);
    if policy.ForceReauth? && id.token == "" {
      PickIsEligible(cfg, w, db, fault, id.deviceID, "");
      var d := PickEligible(cfg, w, db, fault, id.deviceID, "");
      assert d.gray == false && !d.bound;
    } else {
      var d := Bound(cfg, w, db, fault, name, kind, id, policy, gray);
      assert d.backend.Some? ==> d.backend == LastNamed(cfg.backends, name);
      assert d.error.None? && d.backend.Some? ==>
        !Disabled(cfg, w, name) && (State(w, name).Unhealthy? ==> policy.PinUnhealthy?);
    }
  }

  lemma NewIsSafe(cfg: Config, w: World, db: Db, fault: bool, req: Request, gray: bool)
    ensures Safe(cfg, w, PickNew(cfg, w, db, fault, req, PolicyFor(cfg, gray), gray))
  {
    var policy := PolicyFor(cfg, gray);
    if !policy.PinUnhealthy? {
      PickIsEligible(cfg, w, db, fault, req.id.deviceID, req.cookie);
      var d := PickEligible(cfg, w, db, fault, req.id.deviceID, req.cookie);
      assert PickNew(cfg, w, db, fault, req, policy, gray) == d.(gray := gray);
      assert !d.bound;
    }
  }

  lemma AnonOrNewIsSafe(cfg: Config, w: World, db: Db, req: Request, faults: Faults, now: int, gray: bool)
    ensures Safe(cfg, w, AnonOrNew(cfg, w, db, req, faults, now, PolicyFor(cfg, gray), gray).1)
  {
    var (db', row) := LookupAnon(cfg.ttl, db, AnonKey(req.ip, req.userAgent), now);
    NewIsSafe(cfg, w, db', faults.counts, req, gray);
    if row.Some? {
      BoundIsSafe(cfg, w, db', faults.counts, row.value.backend, AnonKind, req.id, gray);
    }
  }

  lemma UnboundIsSafe(cfg: Config, w: World, db: Db, req: Request, faults: Faults, now: int, gray: bool)
    ensures Safe(cfg, w, Unbound(cfg, w, db, req, faults, now, PolicyFor(cfg, gray), gray).1)
  {
    var (db', row) := LookupAnon(cfg.ttl, db, SessionKey(req.ip), now);
    AnonOrNewIsSafe(cfg, w, db, req, faults, now, gray);
    AnonOrNewIsSafe(cfg, w, db', req, faults, now, gray);
    BoundIsSafe(cfg, w, db, faults.counts, req.cookie, AnonKind, req.id, gray);
    if row.Some? {
      BoundIsSafe(cfg, w, db', faults.counts, row.value.backend, AnonKind, req.id, gray);
    }
  }

  // For every configuration, store, health map, request and read fault: a decision
  // with a backend and no error names a configured one that is not disabled, an
  // unhealthy one only for a bound client under pin_unhealthy, and for an unbound
  // client under the other policies one that takes new clients.
  lemma ForwardingSafety(cfg: Config, w: World, db: Db, req: Request, faults: Faults, now: int)
    ensures Safe(cfg, w, Decide(cfg, w, db, req, faults, now).1)
  {
    var (db1, tokenRow) := LookupToken(cfg.ttl, db, req.id.token, now);
    var (db2, deviceRow) := LookupDevice(cfg.ttl, db1, req.id.deviceID, now);
    var gray := Graylisted(cfg.graylist, req, TokenClient(tokenRow), DeviceClient(deviceRow));
    if tokenRow.Some? {
      BoundIsSafe(cfg, w, db2, faults.counts, tokenRow.value.backend, TokenKind, req.id, gray);
    } else if deviceRow.Some? {
      BoundIsSafe(cfg, w, db2, faults.counts, deviceRow.value.backend, DeviceKind, req.id, gray);
    } else {
      UnboundIsSafe(cfg, w, db2, req, faults, now, gray);
    }
  }

  /* A live token decides */

  // The request's gray-list class when its token row is live.
  ghost predicate GrayWith(cfg: Config, db: Db, req: Request, now: int)
    requires req.id.token in db.tokens
  {
    var (db1, _) := LookupToken(cfg.ttl, db, req.id.token, now);
    var (_, deviceRow) := LookupDevice(cfg.ttl, db1, req.id.deviceID, now);
    Graylisted(cfg.graylist, req, db.tokens[req.id.token].meta.client, DeviceClient(deviceRow))
  }

  lemma BoundSays(cfg: Config, w: World, db: Db, fault: bool, name: string, kind: Kind, id: Id, policy: Policy,
                  gray: bool)
    requires id.token != ""
    ensures var d := Bound(cfg, w, db, fault, name, kind, id, policy, gray);
      && (d.error.None? ==> d.backend == LastNamed(cfg.backends, name) && d.bound && d.kind == kind)
      && (d.error.None? && d.backend.Some? <==>
            && LastNamed(cfg.backends, name).Some? && !Disabled(cfg, w, name)
            && (State(w, name).Unhealthy? ==> policy.PinUnhealthy?))
      && (d.drop <==> !Disabled(cfg, w, name) && State(w, name).Unhealthy? && policy.ForceReauth?)
      && (d.drop ==> d.error == Some(ReauthRequired))
      && d.gray == gray && d.error != Some(StoreUnavailable)
  {
  }

  // With a live row the request goes to the row's backend or is refused: the device,
  // cookie, address and placement play no part.  It is dropped exactly when that
  // backend is enabled and unhealthy under force_reauth, and then not forwarded.
  lemma LiveTokenDecides(cfg: Config, w: World, db: Db, req: Request, faults: Faults, now: int)
    requires req.id.token != "" && req.id.token in db.tokens
    requires !Expired(db.tokens[req.id.token].seen, cfg.ttl.token, now)
    ensures var a := db.tokens[req.id.token].backend;
      var d := Decide(cfg, w, db, req, faults, now).1;
      && (d.error.None? ==> d.backend == LastNamed(cfg.backends, a) && d.bound && d.kind.TokenKind?)
      && (d.error.None? && d.backend.Some? <==>
            && !faults.token && (req.id.deviceID == "" || !faults.device)
            && LastNamed(cfg.backends, a).Some? && !Disabled(cfg, w, a)
            && (State(w, a).Unhealthy? ==> PolicyFor(cfg, GrayWith(cfg, db, req, now)).PinUnhealthy?))
      && (d.drop <==>
           && !faults.token && (req.id.deviceID == "" || !faults.device)
           && !Disabled(cfg, w, a) && State(w, a).Unhealthy?
           && PolicyFor(cfg, GrayWith(cfg, db, req, now)).ForceReauth?)
      && (d.drop ==> d.error == Some(ReauthRequired))
      && (d.error == Some(StoreUnavailable) <==> faults.token || (req.id.deviceID != "" && faults.device))
      && (d.error != Some(StoreUnavailable) ==> d.gray == GrayWith(cfg, db, req, now))
  {
    if !faults.token {
      var (db2, deviceRow) := LookupDevice(cfg.ttl, db, req.id.deviceID, now);
      var row := db.tokens[req.id.token];
      var gray := GrayWith(cfg, db, req, now);
      assert LookupToken(cfg.ttl, db, req.id.token, now) == (db, Some(row));
      BoundSays(cfg, w, db2, faults.counts, row.backend, TokenKind, req.id, PolicyFor(cfg, gray), gray);
    }
  }

  /* Least-loaded placement */

  lemma LighterOrders(db: Db, fault: bool, a: string, b: string, c: string)
    ensures a != b ==> Lighter(db, fault, a, b) || Lighter(db, fault, b, a)
    ensures !(Lighter(db, fault, a, b) && Lighter(db, fault, b, a))
    ensures Lighter(db, fault, a, b) && Lighter(db, fault, b, c) ==> Lighter(db, fault, a, c)
  {
    LessTotal(a, b);
    if Less(a, b) && Less(b, c) {
      LessTransitive(a, b, c);
    }
  }

  // With unique names the pick is the one backend lighter than all the others.
  lemma {:induction false} LightestIsLeast(db: Db, fault: bool, bs: seq<Backend>)
    requires |bs| > 0 && UniqueNames(bs)
    ensures var best := Lightest(db, fault, bs);
      best in bs && forall b :: b in bs && b != best ==> Lighter(db, fault, best.name, b.name)
  {
    if |bs| > 1 {
      var rest, last := bs[..|bs| - 1], bs[|bs| - 1];
      var best := Lightest(db, fault, rest);
      LightestIsLeast(db, fault, rest);
      assert bs == rest + [last];
      assert best in rest && best.name != last.name;
      LighterOrders(db, fault, best.name, last.name, "");
      forall b | b in rest && b != best && Lighter(db, fault, last.name, best.name)
        ensures Lighter(db, fault, last.name, b.name)
      {
        LighterOrders(db, fault, last.name, best.name, b.name);
      }
    }
  }

  lemma LightestUnique(db: Db, fault: bool, bs: seq<Backend>, bs': seq<Backend>)
    requires |bs| > 0 && |bs'| > 0 && UniqueNames(bs) && UniqueNames(bs')
    requires forall b :: b in bs <==> b in bs'
    ensures Lightest(db, fault, bs) == Lightest(db, fault, bs')
  {
    var x, y := Lightest(db, fault, bs), Lightest(db, fault, bs');
    LightestIsLeast(db, fault, bs);
    LightestIsLeast(db, fault, bs');
    LighterOrders(db, fault, x.name, y.name, "");
  }

  /* The order of the configuration does not matter */

  // cfg' lists the backends of cfg in another order.
  ghost predicate Reordered(cfg: Config, cfg': Config) {
    && UniqueNames(cfg.backends) && UniqueNames(cfg'.backends)
    && cfg' == cfg.(backends := cfg'.backends)
    && forall b :: b in cfg.backends <==> b in cfg'.backends
  }

  lemma SameNamed(bs: seq<Backend>, bs': seq<Backend>, name: string)
    requires UniqueNames(bs) && UniqueNames(bs') && forall b :: b in bs <==> b in bs'
    ensures LastNamed(bs, name) == LastNamed(bs', name)
  {
    if LastNamed(bs, name).Some? {
      NamedIn(bs', LastNamed(bs, name).value);
    } else if LastNamed(bs', name).Some? {
      NamedIn(bs, LastNamed(bs', name).value);
    }
  }

  lemma SameTakes(cfg: Config, cfg': Config, w: World, name: string)
    requires Reordered(cfg, cfg')
    ensures LastNamed(cfg.backends, name) == LastNamed(cfg'.backends, name)
    ensures Disabled(cfg, w, name) == Disabled(cfg', w, name)
    ensures Takes(cfg, w, name) == Takes(cfg', w, name)
  {
    SameNamed(cfg.backends, cfg'.backends, name);
  }

  lemma SameEligible(cfg: Config, cfg': Config, w: World)
    requires Reordered(cfg, cfg')
    ensures var e, e' := Eligible(cfg, w), Eligible(cfg', w);
      UniqueNames(e) && UniqueNames(e') && (forall b :: b in e <==> b in e') && (|e| == 0 <==> |e'| == 0)
  {
    EligibleIsFilter(cfg, w, cfg.backends);
    EligibleIsFilter(cfg', w, cfg'.backends);
    forall b: Backend ensures Takes(cfg, w, b.name) == Takes(cfg', w, b.name) {
      SameTakes(cfg, cfg', w, b.name);
    }
    BothEmpty(Eligible(cfg, w), Eligible(cfg', w));
  }

  lemma SameHash(bs: seq<Backend>, bs': seq<Backend>, device: string, anon: string)
    requires UniqueNames(bs) && UniqueNames(bs') && forall b :: b in bs <==> b in bs'
    ensures HashPick(device, anon, NamesOf(bs)) == HashPick(device, anon, NamesOf(bs'))
  {
    var names, names' := NamesOf(bs), NamesOf(bs');
    forall n ensures n in names <==> n in names' {
      if n in names {
        var i :| 0 <= i < |names| && names[i] == n;
        assert bs[i] in bs';
        var j :| 0 <= j < |bs'| && bs'[j] == bs[i];
        assert names'[j] == n;
      }
      if n in names' {
        var i :| 0 <= i < |names'| && names'[i] == n;
        assert bs'[i] in bs;
        var j :| 0 <= j < |bs| && bs[j] == bs'[i];
        assert names[j] == n;
      }
    }
    SameElements(names, names');
    BothEmpty(names, names');
    if |names| > 0 {
      HashIgnoresOrder(Or(device, anon), names, names');
    }
  }

  lemma SamePick(cfg: Config, cfg': Config, w: World, db: Db, fault: bool, device: string, hint: string)
    requires Reordered(cfg, cfg')
    ensures PickEligible(cfg, w, db, fault, device, hint) == PickEligible(cfg', w, db, fault, device, hint)
  {
    var e, e' := Eligible(cfg, w), Eligible(cfg', w);
    SameEligible(cfg, cfg', w);
    SameNamed(e, e', hint);
    SameHash(e, e', device, "");
    SameTakes(cfg, cfg', w, HashPick(device, "", NamesOf(e)));
    if |e| > 0 {
      LightestUnique(db, fault, e, e');
    }
  }

  lemma SameBound(cfg: Config, cfg': Config, w: World, db: Db, fault: bool, name: string, kind: Kind, id: Id,
                  policy: Policy, gray: bool)
    requires Reordered(cfg, cfg')
    ensures Bound(cfg, w, db, fault, name, kind, id, policy, gray) ==
      Bound(cfg', w, db, fault, name, kind, id, policy, gray)
  {
    SameTakes(cfg, cfg', w, name);
    SamePick(cfg, cfg', w, db, fault, id.deviceID, "");
  }

  lemma SameNew(cfg: Config, cfg': Config, w: World, db: Db, fault: bool, req: Request, policy: Policy, gray: bool)
    requires Reordered(cfg, cfg')
    ensures PickNew(cfg, w, db, fault, req, policy, gray) == PickNew(cfg', w, db, fault, req, policy, gray)
  {
    var anon := cfg.digest(AnonKey(req.ip, req.userAgent));
    SameHash(cfg.backends, cfg'.backends, req.id.deviceID, anon);
    SameTakes(cfg, cfg', w, HashPick(req.id.deviceID, anon, NamesOf(cfg.backends)));
    SamePick(cfg, cfg', w, db, fault, req.id.deviceID, req.cookie);
  }

  lemma SameAnonOrNew(cfg: Config, cfg': Config, w: World, db: Db, req: Request, faults: Faults, now: int,
                      policy: Policy, gray: bool)
    requires Reordered(cfg, cfg')
    ensures AnonOrNew(cfg, w, db, req, faults, now, policy, gray) ==
      AnonOrNew(cfg', w, db, req, faults, now, policy, gray)
  {
    var (db', row) := LookupAnon(cfg.ttl, db, AnonKey(req.ip, req.userAgent), now);
    SameNew(cfg, cfg', w, db', faults.counts, req, policy, gray);
    if row.Some? {
      SameBound(cfg, cfg', w, db', faults.counts, row.value.backend, AnonKind, req.id, policy, gray);
    }
  }

  lemma SameFollow(cfg: Config, cfg': Config, w: World, db: Db, req: Request, faults: Faults, now: int,
                   policy: Policy, gray: bool)
    requires Reordered(cfg, cfg')
    ensures FollowSession(cfg, w, db, req, faults, now, policy, gray) ==
      FollowSession(cfg', w, db, req, faults, now, policy, gray)
  {
    var (db', row) := LookupAnon(cfg.ttl, db, SessionKey(req.ip), now);
    SameTakes(cfg, cfg', w, req.cookie);
    if CookieFollows(cfg, db, faults.counts, req.cookie) {
      SameBound(cfg, cfg', w, db, faults.counts, req.cookie, AnonKind, req.id, policy, gray);
    } else if row.Some? {
      SameBound(cfg, cfg', w, db', faults.counts, row.value.backend, AnonKind, req.id, policy, gray);
    }
  }

  lemma SameUnbound(cfg: Config, cfg': Config, w: World, db: Db, req: Request, faults: Faults, now: int,
                    policy: Policy, gray: bool)
    requires Reordered(cfg, cfg')
    ensures Unbound(cfg, w, db, req, faults, now, policy, gray) == Unbound(cfg', w, db, req, faults, now, policy, gray)
  {
    if IsSessionMediaPath(req.path) {
      var (db', d) := FollowSession(cfg, w, db, req, faults, now, policy, gray);
      SameFollow(cfg, cfg', w, db, req, faults, now, policy, gray);
      SameAnonOrNew(cfg, cfg', w, db', req, faults, now, policy, gray);
    } else {
      SameAnonOrNew(cfg, cfg', w, db, req, faults, now, policy, gray);
    }
  }

  // No decision depends on the order in which the backends are configured.
  lemma DecideIgnoresOrder(cfg: Config, cfg': Config, w: World, db: Db, req: Request, faults: Faults, now: int)
    requires Reordered(cfg, cfg')
    ensures Decide(cfg, w, db, req, faults, now) == Decide(cfg', w, db, req, faults, now)
  {
    var (db1, tokenRow) := LookupToken(cfg.ttl, db, req.id.token, now);
    var (db2, deviceRow) := LookupDevice(cfg.ttl, db1, req.id.deviceID, now);
    var gray := Graylisted(cfg.graylist, req, TokenClient(tokenRow), DeviceClient(deviceRow));
    var policy := PolicyFor(cfg, gray);
    if tokenRow.Some? {
      SameBound(cfg, cfg', w, db2, faults.counts, tokenRow.value.backend, TokenKind, req.id, policy, gray);
    } else if deviceRow.Some? {
      SameBound(cfg, cfg', w, db2, faults.counts, deviceRow.value.backend, DeviceKind, req.id, policy, gray);
    } else {
      SameUnbound(cfg, cfg', w, db2, req, faults, now, policy, gray);
    }
  }

  // Without DeviceId and usable hint, the placement is the unique minimum of
  // (tokens + devices, name) over the eligible backends.
  lemma PlacementIsLeastLoaded(cfg: Config, w: World, db: Db, fault: bool, hint: string)
    requires UniqueNames(cfg.backends)
    requires exists b :: b in cfg.backends && Takes(cfg, w, b.name)
    requires hint == "" || forall b :: b in cfg.backends && Takes(cfg, w, b.name) ==> b.name != hint
    ensures var d := PickEligible(cfg, w, db, fault, "", hint);
      && d.error.None? && d.backend.Some?
      && d.backend.value in cfg.backends && Takes(cfg, w, d.backend.value.name)
      && forall b :: b in cfg.backends && Takes(cfg, w, b.name) && b != d.backend.value ==>
           Lighter(db, fault, d.backend.value.name, b.name)
  {
    var elig := Eligible(cfg, w);
    EligibleIsFilter(cfg, w, cfg.backends);
    var b :| b in cfg.backends && Takes(cfg, w, b.name);
    assert b in elig;
    LightestIsLeast(db, fault, elig);
  }

  /* Login candidates */

  lemma {:induction false} OthersIsFilter(bs: seq<Backend>, name: string)
    ensures forall b :: b in Others(bs, name) <==> b in bs && b.name != name
    ensures UniqueNames(bs) ==> UniqueNames(Others(bs, name))
  {
    if |bs| != 0 {
      OthersIsFilter(bs[..|bs| - 1], name);
      assert bs == bs[..|bs| - 1] + [bs[|bs| - 1]];
    }
  }

  // With unique names the candidates are the eligible backends, each once, with the
  // preferred one first when it is eligible.
  lemma CandidatesPermuteEligible(cfg: Config, w: World, preferred: string)
    requires UniqueNames(cfg.backends)
    ensures var cands := LoginCandidates(cfg, w, preferred);
      && UniqueNames(cands)
      && multiset(cands) == multiset(Eligible(cfg, w))
      && (forall b :: b in cands <==> b in cfg.backends && Takes(cfg, w, b.name))
      && ((exists b :: b in cfg.backends && Takes(cfg, w, b.name) && b.name == preferred) ==>
            |cands| > 0 && cands[0].name == preferred)
  {
    var elig := Eligible(cfg, w);
    var cands := LoginCandidates(cfg, w, preferred);
    EligibleIsFilter(cfg, w, cfg.backends);
    OthersIsFilter(elig, preferred);
    assert UniqueNames(elig);
    forall b ensures b in cands <==> b in elig {
      if b in elig && b.name == preferred {
        NamedIn(elig, b);
      }
    }
    SameElements(cands, elig);
  }
}
