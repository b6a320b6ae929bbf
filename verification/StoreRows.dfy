// A row as a fold of its history: which values survive, and for how long.
module StoreRows {
  import opened Prelude
  import opened Store

  datatype Field = UserID | Username | DeviceID | Client | Device | Version

  function Get(m: Meta, f: Field): string {
    match f
    case UserID => m.userID
    case Username => m.username
    case DeviceID => m.deviceID
    case Client => m.client
    case Device => m.device
    case Version => m.version
  }

  // What happens to one token's row, other than deletion.  backend is non-empty.
  datatype Event =
    | Bind(now: int, backend: string, meta: Meta)
    | Touch(now: int, verb: string, path: string, status: int)
    | Lookup(now: int)

  // The row after one statement about its token.
  function Next(ttl: int, row: Option<TokenRow>, ev: Event): Option<TokenRow> {
    match ev
    case Bind(now, backend, meta) => Some(BoundRow(row, backend, meta, now))
    case Touch(now, verb, path, status) =>
      if row.None? then None else Some(TouchedRow(row.value, verb, path, status, now))
    case Lookup(now) => if row.Some? && Expired(row.value.seen, ttl, now) then None else row
  }

  // Next is what the statements do to the table, and they do nothing else to it.
  lemma NextIsStatement(ttl: TTLs, db: Db, token: string, ev: Event)
    requires token != "" && (ev.Bind? ==> ev.backend != "")
    ensures var db' := match ev {
        case Bind(now, backend, meta) => BindToken(db, token, backend, meta, now)
        case Touch(now, verb, path, status) => TouchToken(db, token, verb, path, status, now)
        case Lookup(now) => LookupToken(ttl, db, token, now).0
      };
      && Row(db'.tokens, token) == Next(ttl.token, Row(db.tokens, token), ev)
      && (forall t :: t != token ==> Row(db'.tokens, t) == Row(db.tokens, t))
      && db'.devices == db.devices && db'.anons == db.anons
  {
  }

  function After(ttl: int, evs: seq<Event>): Option<TokenRow> {
    if |evs| == 0 then None else Next(ttl, After(ttl, evs[..|evs| - 1]), evs[|evs| - 1])
  }

  /* Values */

  // The last non-empty value any bind supplied for a field.
  function LastSupplied(evs: seq<Event>, f: Field): string {
    if |evs| == 0 then ""
    else
      var ev := evs[|evs| - 1];
      if ev.Bind? && Get(ev.meta, f) != "" then Get(ev.meta, f) else LastSupplied(evs[..|evs| - 1], f)
  }

  function FirstBind(evs: seq<Event>): Option<int> {
    if |evs| == 0 then None
    else if FirstBind(evs[..|evs| - 1]).Some? then FirstBind(evs[..|evs| - 1])
    else if evs[|evs| - 1].Bind? then Some(evs[|evs| - 1].now) else None
  }

  function LastBackend(evs: seq<Event>): string {
    if |evs| == 0 then ""
    else if evs[|evs| - 1].Bind? then evs[|evs| - 1].backend else LastBackend(evs[..|evs| - 1])
  }

  // Over any run of binds and touches: a row exists once it was bound, each sticky
  // field is the last non-empty value supplied, the creation time is the first
  // bind, the backend the last one, and the row was seen at the last event.
  lemma {:induction false} RowIsHistory(ttl: int, evs: seq<Event>)
    requires forall i :: 0 <= i < |evs| ==> !evs[i].Lookup?
    ensures After(ttl, evs).Some? <==> FirstBind(evs).Some?
    ensures After(ttl, evs).Some? ==>
      var r := After(ttl, evs).value;
      && (forall f :: Get(r.meta, f) == LastSupplied(evs, f))
      && r.created == Unix(FirstBind(evs).value)
      && r.backend == LastBackend(evs)
      && r.seen == Unix(evs[|evs| - 1].now)
    ensures FirstBind(evs).None? ==> forall f :: LastSupplied(evs, f) == ""
  {
    if |evs| != 0 {
      var before, ev := evs[..|evs| - 1], evs[|evs| - 1];
      RowIsHistory(ttl, before);
      assert After(ttl, evs) == Next(ttl, After(ttl, before), ev);
      if ev.Bind? {
        MergeIsSticky(ev.meta, BoundRow(After(ttl, before), ev.backend, ev.meta, ev.now).meta, After(ttl, before));
      }
    }
  }

  lemma MergeIsSticky(m: Meta, after: Meta, row: Option<TokenRow>)
    requires after == if row.None? then m else Merge(m, row.value.meta)
    ensures forall f :: Get(after, f) == if row.None? then Get(m, f) else Sticky(Get(m, f), Get(row.value.meta, f))
  {
  }

  /* Lifetime */

  // last_seen is cut to whole seconds: a row is certainly live up to TTL - 1s
  // after its last use and certainly expired past TTL.
  lemma ExpiryBounds(t: int, now: int, ttl: int)
    requires 0 < ttl
    ensures now - t <= ttl - SECOND ==> !Expired(Unix(t), ttl, now)
    ensures now - t > ttl ==> Expired(Unix(t), ttl, now)
    ensures Expired(Unix(t), ttl, now) <==> now - t > ttl - t % SECOND
  {
    assert t == SECOND * (t / SECOND) + t % SECOND;
  }

  // When the row was last bound or touched.
  function LastUse(evs: seq<Event>): Option<int> {
    if |evs| == 0 then None
    else if evs[|evs| - 1].Lookup? then LastUse(evs[..|evs| - 1]) else Some(evs[|evs| - 1].now)
  }

  lemma {:induction false} SeenIsLastUse(ttl: int, evs: seq<Event>)
    ensures After(ttl, evs).Some? ==> LastUse(evs).Some? && After(ttl, evs).value.seen == Unix(LastUse(evs).value)
  {
    if |evs| != 0 {
      SeenIsLastUse(ttl, evs[..|evs| - 1]);
    }
  }

  // Starts with a bind, and never goes unused for more than TTL - 1s.
  ghost predicate Busy(ttl: int, evs: seq<Event>) {
    && |evs| > 0 && evs[0].Bind?
    && forall i :: 0 < i < |evs| ==> LastUse(evs[..i]).Some? && evs[i].now - LastUse(evs[..i]).value <= ttl - SECOND
  }

  // Such a row is found by every lookup on the way.
  lemma {:induction false} BusyRowSurvives(ttl: int, evs: seq<Event>)
    requires 0 < ttl && Busy(ttl, evs)
    ensures After(ttl, evs).Some?
  {
    var before, ev := evs[..|evs| - 1], evs[|evs| - 1];
    if |evs| > 1 {
      assert forall i :: 0 < i < |before| ==> before[..i] == evs[..i];
      BusyRowSurvives(ttl, before);
      SeenIsLastUse(ttl, before);
      assert ev.now - LastUse(before).value <= ttl - SECOND;
      ExpiryBounds(LastUse(before).value, ev.now, ttl);
    } else {
      assert ev == evs[0];
    }
  }

  // And one unused for more than TTL is not.
  lemma IdleRowIsGone(ttl: int, evs: seq<Event>, now: int)
    requires 0 < ttl
    requires LastUse(evs).None? || now - LastUse(evs).value > ttl
    ensures After(ttl, evs + [Lookup(now)]) == None
  {
    assert (evs + [Lookup(now)])[..|evs|] == evs;
    SeenIsLastUse(ttl, evs);
    if After(ttl, evs).Some? {
      ExpiryBounds(LastUse(evs).value, now, ttl);
    }
  }

  /* Device rows */

  datatype DeviceEvent = BindDev(now: int, backend: string, client: string) | TouchDev(now: int) | LookupDev(now: int)

  function NextDevice(ttl: int, row: Option<DeviceRow>, ev: DeviceEvent): Option<DeviceRow> {
    match ev
    case BindDev(now, backend, client) => Some(BoundDevice(row, backend, client, now))
    case TouchDev(now) => if row.None? then None else Some(row.value.(seen := Unix(now)))
    case LookupDev(now) => if row.Some? && Expired(row.value.seen, ttl, now) then None else row
  }

  lemma NextDeviceIsStatement(ttl: TTLs, db: Db, device: string, ev: DeviceEvent)
    requires device != "" && (ev.BindDev? ==> ev.backend != "")
    ensures var db' := match ev {
        case BindDev(now, backend, client) => BindDevice(db, device, backend, client, now)
        case TouchDev(now) => TouchDevice(db, device, now)
        case LookupDev(now) => LookupDevice(ttl, db, device, now).0
      };
      && Row(db'.devices, device) == NextDevice(ttl.device, Row(db.devices, device), ev)
      && (forall d :: d != device ==> Row(db'.devices, d) == Row(db.devices, d))
      && db'.tokens == db.tokens && db'.anons == db.anons
  {
  }

  function AfterDevice(ttl: int, evs: seq<DeviceEvent>): Option<DeviceRow> {
    if |evs| == 0 then None else NextDevice(ttl, AfterDevice(ttl, evs[..|evs| - 1]), evs[|evs| - 1])
  }

  function LastClient(evs: seq<DeviceEvent>): string {
    if |evs| == 0 then ""
    else
      var ev := evs[|evs| - 1];
      if ev.BindDev? && ev.client != "" then ev.client else LastClient(evs[..|evs| - 1])
  }

  function FirstBindDev(evs: seq<DeviceEvent>): Option<int> {
    if |evs| == 0 then None
    else if FirstBindDev(evs[..|evs| - 1]).Some? then FirstBindDev(evs[..|evs| - 1])
    else if evs[|evs| - 1].BindDev? then Some(evs[|evs| - 1].now) else None
  }

  function LastDevBackend(evs: seq<DeviceEvent>): string {
    if |evs| == 0 then ""
    else if evs[|evs| - 1].BindDev? then evs[|evs| - 1].backend else LastDevBackend(evs[..|evs| - 1])
  }

  // The same fold for a device: its client is the last one it named, its creation the
  // first bind, its backend the last one, and it was seen at the last event.
  lemma {:induction false} DeviceRowIsHistory(ttl: int, evs: seq<DeviceEvent>)
    requires forall i :: 0 <= i < |evs| ==> !evs[i].LookupDev?
    ensures AfterDevice(ttl, evs).Some? <==> FirstBindDev(evs).Some?
    ensures AfterDevice(ttl, evs).Some? ==>
      var r := AfterDevice(ttl, evs).value;
      && r.client == LastClient(evs) && r.backend == LastDevBackend(evs)
      && r.created == Unix(FirstBindDev(evs).value) && r.seen == Unix(evs[|evs| - 1].now)
    ensures FirstBindDev(evs).None? ==> LastClient(evs) == ""
  {
    if |evs| != 0 {
      DeviceRowIsHistory(ttl, evs[..|evs| - 1]);
    }
  }

  function LastDevUse(evs: seq<DeviceEvent>): Option<int> {
    if |evs| == 0 then None
    else if evs[|evs| - 1].LookupDev? then LastDevUse(evs[..|evs| - 1]) else Some(evs[|evs| - 1].now)
  }

  lemma {:induction false} DeviceSeenIsLastUse(ttl: int, evs: seq<DeviceEvent>)
    ensures AfterDevice(ttl, evs).Some? ==>
      LastDevUse(evs).Some? && AfterDevice(ttl, evs).value.seen == Unix(LastDevUse(evs).value)
  {
    if |evs| != 0 {
      DeviceSeenIsLastUse(ttl, evs[..|evs| - 1]);
    }
  }

  // Starts with a bind, and never goes unused for more than TTL - 1s.
  ghost predicate BusyDevice(ttl: int, evs: seq<DeviceEvent>) {
    && |evs| > 0 && evs[0].BindDev?
    && forall i :: 0 < i < |evs| ==>
         LastDevUse(evs[..i]).Some? && evs[i].now - LastDevUse(evs[..i]).value <= ttl - SECOND
  }

  lemma {:induction false} BusyDeviceSurvives(ttl: int, evs: seq<DeviceEvent>)
    requires 0 < ttl && BusyDevice(ttl, evs)
    ensures AfterDevice(ttl, evs).Some?
  {
    var before, ev := evs[..|evs| - 1], evs[|evs| - 1];
    if |evs| > 1 {
      assert forall i :: 0 < i < |before| ==> before[..i] == evs[..i];
      BusyDeviceSurvives(ttl, before);
      DeviceSeenIsLastUse(ttl, before);
      assert ev.now - LastDevUse(before).value <= ttl - SECOND;
      ExpiryBounds(LastDevUse(before).value, ev.now, ttl);
    } else {
      assert ev == evs[0];
    }
  }

  lemma IdleDeviceIsGone(ttl: int, evs: seq<DeviceEvent>, now: int)
    requires 0 < ttl
    requires LastDevUse(evs).None? || now - LastDevUse(evs).value > ttl
    ensures AfterDevice(ttl, evs + [LookupDev(now)]) == None
  {
    assert (evs + [LookupDev(now)])[..|evs|] == evs;
    DeviceSeenIsLastUse(ttl, evs);
    if AfterDevice(ttl, evs).Some? {
      ExpiryBounds(LastDevUse(evs).value, now, ttl);
    }
  }
}
