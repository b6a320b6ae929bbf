// The store as it runs: its tables are updated in place, statement by statement.
module SqlStore {
  import opened Prelude
  import opened Text
  import opened Store

  class SQLStore {
    const ttl: TTLs
    var tokens: map<string, TokenRow>
    var devices: map<string, DeviceRow>
    var anons: map<AnonKey, AnonRow>

    ghost function Contents(): Db
      reads this
    {
      Db(tokens, devices, anons)
    }

    ghost predicate Valid()
      reads this
    {
      Named(Contents())
    }

    constructor (ttl: TTLs)
      ensures Valid() && this.ttl == ttl && Contents() == Db(map[], map[], map[])
    {
      this.ttl := ttl;
      tokens, devices, anons := map[], map[], map[];
    }

    method LookupToken(token: string, now: int) returns (row: Option<TokenRow>)
      requires Valid()
      modifies this
      ensures Valid()
      ensures (Contents(), row) == Store.LookupToken(ttl, old(Contents()), token, now)
    {
      if token == "" || token !in tokens {
        return None;
      }
      var r := tokens[token];
      if Expired(r.seen, ttl.token, now) {
        tokens := tokens - {token};
        return None;
      }
      return Some(r);
    }

    method LookupDevice(device: string, now: int) returns (row: Option<DeviceRow>)
      requires Valid()
      modifies this
      ensures Valid()
      ensures (Contents(), row) == Store.LookupDevice(ttl, old(Contents()), device, now)
    {
      if device == "" || device !in devices {
        return None;
      }
      var r := devices[device];
      if Expired(r.seen, ttl.device, now) {
        devices := devices - {device};
        return None;
      }
      return Some(r);
    }

    method LookupAnon(key: AnonKey, now: int) returns (row: Option<AnonRow>)
      requires Valid()
      modifies this
      ensures Valid()
      ensures (Contents(), row) == Store.LookupAnon(ttl, old(Contents()), key, now)
    {
      if key !in anons {
        return None;
      }
      var r := anons[key];
      if Expired(r.seen, ttl.anon, now) {
        anons := anons - {key};
        return None;
      }
      return Some(r);
    }

    method BindToken(token: string, backend: string, meta: Meta, now: int)
      requires Valid()
      modifies this
      ensures Valid()
      ensures Contents() == Store.BindToken(old(Contents()), token, backend, meta, now)
    {
      if token == "" || backend == "" {
        return;
      }
      if token in tokens {
        var r := tokens[token];
        tokens := tokens[token := r.(backend := backend, seen := Unix(now), meta := Merge(meta, r.meta))];
      } else {
        tokens := tokens[token := TokenRow(backend, meta, Unix(now), Unix(now), "", "", 0)];
      }
    }

    method BindDevice(device: string, backend: string, client: string, now: int)
      requires Valid()
      modifies this
      ensures Valid()
      ensures Contents() == Store.BindDevice(old(Contents()), device, backend, client, now)
    {
      if device == "" || backend == "" {
        return;
      }
      if device in devices {
        var r := devices[device];
        devices := devices[device := r.(backend := backend, seen := Unix(now), client := Sticky(client, r.client))];
      } else {
        devices := devices[device := DeviceRow(backend, client, Unix(now), Unix(now))];
      }
    }

    method BindAnon(key: AnonKey, backend: string, now: int)
      requires Valid()
      modifies this
      ensures Valid()
      ensures Contents() == Store.BindAnon(old(Contents()), key, backend, now)
    {
      if backend == "" {
        return;
      }
      if key in anons {
        anons := anons[key := anons[key].(backend := backend, seen := Unix(now))];
      } else {
        anons := anons[key := AnonRow(backend, Unix(now), Unix(now))];
      }
    }

    method TouchToken(token: string, verb: string, path: string, status: int, now: int)
      requires Valid()
      modifies this
      ensures Valid()
      ensures Contents() == Store.TouchToken(old(Contents()), token, verb, path, status, now)
    {
      if token != "" && token in tokens {
        var row := tokens[token];
        tokens := tokens[token := row.(seen := Unix(now), lastVerb := verb, lastPath := path, lastStatus := status)];
      }
    }

    method TouchDevice(device: string, now: int)
      requires Valid()
      modifies this
      ensures Valid()
      ensures Contents() == Store.TouchDevice(old(Contents()), device, now)
    {
      if device != "" && device in devices {
        devices := devices[device := devices[device].(seen := Unix(now))];
      }
    }

    method DeleteToken(token: string)
      requires Valid()
      modifies this
      ensures Valid()
      ensures Contents() == Store.DeleteToken(old(Contents()), token)
    {
      if token != "" {
        tokens := tokens - {token};
      }
    }

    method DeleteClient(token: string, device: string)
      requires Valid()
      modifies this
      ensures Valid()
      ensures Contents() == Store.DeleteClient(old(Contents()), token, device)
    {
      DeleteToken(token);
      if device != "" {
        devices := devices - {device};
      }
    }

    // Three GROUP BY queries, each filling its own column of the rows.
    method CountsByBackend() returns (out: map<string, Counts>)
      ensures forall name :: CountIn(out, name) == CountsOf(Contents(), name)
    {
      out := AddTokens(map[]);
      out := AddDevices(out);
      out := AddAnons(out);
    }

    method AddTokens(start: map<string, Counts>) returns (out: map<string, Counts>)
      requires forall name :: CountIn(start, name) == Counts(0, 0, 0)
      ensures forall name :: CountIn(out, name) == Counts(CountsOf(Contents(), name).tokens, 0, 0)
    {
      out := start;
      var names := set k | k in tokens :: tokens[k].backend;
      var rest := names;
      while rest != {}
        invariant rest <= names
        invariant forall name ::
          CountIn(out, name) ==
          CountIn(start, name).(tokens := CountOn(names - rest, name, CountsOf(Contents(), name).tokens))
        decreases rest
      {
        var name :| name in rest;
        var n := |set k | k in tokens && tokens[k].backend == name|;
        out := out[name := CountIn(out, name).(tokens := n)];
        rest := rest - {name};
      }
      forall name | name !in names ensures CountsOf(Contents(), name).tokens == 0 {
        assert (set k | k in tokens && tokens[k].backend == name) == {};
      }
    }

    method AddDevices(start: map<string, Counts>) returns (out: map<string, Counts>)
      requires forall name :: CountIn(start, name) == Counts(CountsOf(Contents(), name).tokens, 0, 0)
      ensures forall name :: CountIn(out, name) == CountsOf(Contents(), name).(anons := 0)
    {
      out := start;
      var names := set k | k in devices :: devices[k].backend;
      var rest := names;
      while rest != {}
        invariant rest <= names
        invariant forall name ::
          CountIn(out, name) ==
          CountIn(start, name).(devices := CountOn(names - rest, name, CountsOf(Contents(), name).devices))
        decreases rest
      {
        var name :| name in rest;
        var n := |set k | k in devices && devices[k].backend == name|;
        out := out[name := CountIn(out, name).(devices := n)];
        rest := rest - {name};
      }
      forall name | name !in names ensures CountsOf(Contents(), name).devices == 0 {
        assert (set k | k in devices && devices[k].backend == name) == {};
      }
    }

    method AddAnons(start: map<string, Counts>) returns (out: map<string, Counts>)
      requires forall name :: CountIn(start, name) == CountsOf(Contents(), name).(anons := 0)
      ensures forall name :: CountIn(out, name) == CountsOf(Contents(), name)
    {
      out := start;
      var names := set k | k in anons :: anons[k].backend;
      var rest := names;
      while rest != {}
        invariant rest <= names
        invariant forall name ::
          CountIn(out, name) ==
          CountIn(start, name).(anons := CountOn(names - rest, name, CountsOf(Contents(), name).anons))
        decreases rest
      {
        var name :| name in rest;
        var n := |set k | k in anons && anons[k].backend == name|;
        out := out[name := CountIn(out, name).(anons := n)];
        rest := rest - {name};
      }
      forall name | name !in names ensures CountsOf(Contents(), name).anons == 0 {
        assert (set k | k in anons && anons[k].backend == name) == {};
      }
    }

    // The SELECT of DeletePinsByUsername: the backends of the chosen rows.
    method BackendsOf(chosen: set<string>) returns (backends: set<string>)
      requires chosen <= tokens.Keys
      ensures backends == (set t | t in chosen :: tokens[t].backend) - {""}
    {
      backends := {};
      var rest := chosen;
      while rest != {}
        invariant rest <= chosen
        invariant backends == (set t | t in chosen - rest :: tokens[t].backend) - {""}
        decreases rest
      {
        var t :| t in rest;
        assert chosen - (rest - {t}) == (chosen - rest) + {t};
        if tokens[t].backend != "" {
          backends := backends + {tokens[t].backend};
        }
        rest := rest - {t};
      }
      assert chosen - rest == chosen;
    }

    // The DELETE loop over backends; the order Go ranges over them does not matter.
    method DeleteDevicesOn(backends: set<string>) returns (removed: nat)
      modifies this`devices
      ensures devices == map d | d in old(devices) && old(devices)[d].backend !in backends :: old(devices)[d]
      ensures removed == |old(devices)| - |devices|
    {
      removed := 0;
      var rest := backends;
      while rest != {}
        invariant rest <= backends
        invariant devices == map d | d in old(devices) && old(devices)[d].backend !in backends - rest :: old(devices)[d]
        invariant removed == |old(devices)| - |devices|
        decreases rest
      {
        var b :| b in rest;
        var gone := set d | d in devices && devices[d].backend == b;
        KeyCount(devices, gone);
        devices := devices - gone;
        removed := removed + |gone|;
        rest := rest - {b};
      }
      assert backends - rest == backends;
    }

    // The two SELECTs: the matching rows, or else the nameless ones.
    method SelectRows(name: string, ids: set<string>) returns (chosen: set<string>, backends: set<string>)
      requires Valid()
      ensures chosen == Selected(Contents(), name, ids)
      ensures backends == set t | t in chosen :: tokens[t].backend
      ensures backends == {} <==> chosen == {}
    {
      chosen := set t | t in tokens && Matches(tokens[t].meta, name, ids);
      backends := BackendsOf(chosen);
      NoneIffEmpty(tokens, chosen, backends);
      if backends == {} {
        chosen := set t | t in tokens && Nameless(tokens[t].meta);
        backends := BackendsOf(chosen);
        NoneIffEmpty(tokens, chosen, backends);
      }
    }

    // The DELETEs.
    method DeleteRows(chosen: set<string>, backends: set<string>) returns (removedTokens: nat, removedDevices: nat)
      requires chosen <= tokens.Keys
      modifies this
      ensures Contents() == Db(old(tokens) - chosen,
        map d | d in old(devices) && old(devices)[d].backend !in backends :: old(devices)[d], old(anons))
      ensures removedTokens == |old(tokens)| - |tokens| && removedDevices == |old(devices)| - |devices|
    {
      KeyCount(tokens, chosen);
      tokens := tokens - chosen;
      removedTokens := |chosen|;
      removedDevices := DeleteDevicesOn(backends);
    }

    // Returns exactly the numbers of token and device rows it removed.
    method DeletePinsByUsername(username: string, extraUserIDs: seq<string>)
        returns (removedTokens: nat, removedDevices: nat)
      requires Valid()
      modifies this
      ensures Valid()
      ensures Contents() ==
        if TrimSpace(username) == "" then old(Contents())
        else Unpinned(old(Contents()), TrimSpace(username), CompactIDs(extraUserIDs))
      ensures removedTokens == |old(tokens)| - |tokens| && removedDevices == |old(devices)| - |devices|
    {
      var name := TrimSpace(username);
      if name == "" {
        return 0, 0;
      }
      var chosen, backends := SelectRows(name, CompactIDs(extraUserIDs));
      if backends == {} {
        NothingUnpinned(Contents(), name, CompactIDs(extraUserIDs));
        return 0, 0;
      }
      UnpinnedStaysNamed(Contents(), name, CompactIDs(extraUserIDs));
      removedTokens, removedDevices := DeleteRows(chosen, backends);
    }
  }

  // A missing row reads as zero counts.
  function CountIn(counts: map<string, Counts>, name: string): Counts {
    if name in counts then counts[name] else Counts(0, 0, 0)
  }

  ghost function CountOn(done: set<string>, name: string, n: nat): nat {
    if name in done then n else 0
  }

  lemma UnpinnedStaysNamed(db: Db, username: string, ids: set<string>)
    requires Named(db)
    ensures Named(Unpinned(db, username, ids))
  {
  }

  lemma NothingUnpinned(db: Db, username: string, ids: set<string>)
    requires Selected(db, username, ids) == {}
    ensures Unpinned(db, username, ids) == db
  {
    assert Unpinned(db, username, ids).tokens == db.tokens;
    assert Unpinned(db, username, ids).devices == db.devices;
  }

  lemma KeyCount<V>(table: map<string, V>, gone: set<string>)
    requires gone <= table.Keys
    ensures |table - gone| == |table| - |gone|
  {
    assert (table - gone).Keys == table.Keys - gone;
    assert |table.Keys| == |table|;
  }

  // Every row names a backend, so no backends means no rows.
  lemma NoneIffEmpty(tokens: map<string, TokenRow>, chosen: set<string>, backends: set<string>)
    requires chosen <= tokens.Keys && (forall t :: t in tokens ==> tokens[t].backend != "")
    requires backends == (set t | t in chosen :: tokens[t].backend) - {""}
    ensures backends == {} <==> chosen == {}
    ensures backends == set t | t in chosen :: tokens[t].backend
  {
    if chosen != {} {
      var t :| t in chosen;
      assert tokens[t].backend in backends;
    }
  }

  /* What unpinning removes and keeps */

  ghost predicate AnyMatch(db: Db, username: string, ids: set<string>) {
    exists t :: t in db.tokens && Matches(db.tokens[t].meta, username, ids)
  }

  // Removed tokens are those matching the name or an id, or the nameless ones when
  // nothing matches; the other rows are as they were.
  lemma UnpinnedTokens(db: Db, username: string, ids: set<string>)
    ensures var db' := Unpinned(db, username, ids);
      && (forall t :: t in db.tokens ==>
            (t !in db'.tokens <==>
              if AnyMatch(db, username, ids) then Matches(db.tokens[t].meta, username, ids)
              else Nameless(db.tokens[t].meta)))
      && (forall t :: t in db'.tokens ==> t in db.tokens && db'.tokens[t] == db.tokens[t])
      && db'.anons == db.anons
  {
    var named := set t | t in db.tokens && Matches(db.tokens[t].meta, username, ids);
    if AnyMatch(db, username, ids) {
      var t :| t in db.tokens && Matches(db.tokens[t].meta, username, ids);
      assert t in named;
    } else {
      assert named == {};
    }
  }

  // Removed devices are exactly those on the backends of removed tokens.
  lemma UnpinnedDevices(db: Db, username: string, ids: set<string>)
    ensures var db' := Unpinned(db, username, ids);
      && (forall d :: d in db.devices ==>
            (d !in db'.devices <==>
              exists t :: t in db.tokens && t !in db'.tokens && db.tokens[t].backend == db.devices[d].backend))
      && (forall d :: d in db'.devices ==> d in db.devices && db'.devices[d] == db.devices[d])
  {
    var db', victims := Unpinned(db, username, ids), Selected(db, username, ids);
    forall d | d in db.devices && d !in db'.devices
      ensures exists t :: t in db.tokens && t !in db'.tokens && db.tokens[t].backend == db.devices[d].backend
    {
      var t :| t in victims && db.tokens[t].backend == db.devices[d].backend;
      assert t !in db'.tokens;
    }
  }
}
