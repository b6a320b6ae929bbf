// The affinity store: what each statement does to the token, device and
// anonymous tables.  A token row is keyed by its token, the hash being injective.
module Store {
  import opened Prelude
  import opened Text

  // The sticky columns of a token row.
  datatype Meta = Meta(userID: string, username: string, deviceID: string, client: string, device: string,
                       version: string)

  datatype TokenRow = TokenRow(backend: string, meta: Meta, created: int, seen: int,
                               lastVerb: string, lastPath: string, lastStatus: int)

  datatype DeviceRow = DeviceRow(backend: string, client: string, created: int, seen: int)

  datatype AnonRow = AnonRow(backend: string, created: int, seen: int)

  // The preimage of HashAnon.
  datatype AnonKey = AnonKey(ip: string, userAgent: string)

  // HashSessionIP
  function SessionKey(ip: string): AnonKey {
    AnonKey(ip, "")
  }

  datatype Db = Db(tokens: map<string, TokenRow>, devices: map<string, DeviceRow>, anons: map<AnonKey, AnonRow>)

  datatype TTLs = TTLs(token: int, device: int, anon: int)

  /* Single rows */

  // time.Now().Unix()
  function Unix(now: int): int {
    now / SECOND
  }

  predicate Expired(seen: int, ttl: int, now: int) {
    ttl > 0 && now - seen * SECOND > ttl
  }

  // The upsert keeps the old value of a column when the new one is empty or null.
  function Sticky(new_: string, old_: string): string {
    if new_ == "" then old_ else new_
  }

  function Merge(new_: Meta, old_: Meta): Meta {
    Meta(Sticky(new_.userID, old_.userID), Sticky(new_.username, old_.username), Sticky(new_.deviceID, old_.deviceID),
         Sticky(new_.client, old_.client), Sticky(new_.device, old_.device), Sticky(new_.version, old_.version))
  }

  function BoundRow(row: Option<TokenRow>, backend: string, meta: Meta, now: int): TokenRow {
    match row
    case None => TokenRow(backend, meta, Unix(now), Unix(now), "", "", 0)
    case Some(r) => r.(backend := backend, seen := Unix(now), meta := Merge(meta, r.meta))
  }

  function TouchedRow(r: TokenRow, verb: string, path: string, status: int, now: int): TokenRow {
    r.(seen := Unix(now), lastVerb := verb, lastPath := path, lastStatus := status)
  }

  function BoundDevice(row: Option<DeviceRow>, backend: string, client: string, now: int): DeviceRow {
    match row
    case None => DeviceRow(backend, client, Unix(now), Unix(now))
    case Some(r) => r.(backend := backend, seen := Unix(now), client := Sticky(client, r.client))
  }

  function Row<K, V>(table: map<K, V>, key: K): Option<V> {
    if key in table then Some(table[key]) else None
  }

  /* Statements */

  function LookupToken(ttl: TTLs, db: Db, token: string, now: int): (Db, Option<TokenRow>) {
    if token == "" || token !in db.tokens then (db, None)
    else if Expired(db.tokens[token].seen, ttl.token, now) then (db.(tokens := db.tokens - {token}), None)
    else (db, Some(db.tokens[token]))
  }

  function LookupDevice(ttl: TTLs, db: Db, device: string, now: int): (Db, Option<DeviceRow>) {
    if device == "" || device !in db.devices then (db, None)
    else if Expired(db.devices[device].seen, ttl.device, now) then (db.(devices := db.devices - {device}), None)
    else (db, Some(db.devices[device]))
  }

  function LookupAnon(ttl: TTLs, db: Db, key: AnonKey, now: int): (Db, Option<AnonRow>) {
    if key !in db.anons then (db, None)
    else if Expired(db.anons[key].seen, ttl.anon, now) then (db.(anons := db.anons - {key}), None)
    else (db, Some(db.anons[key]))
  }

  function BindToken(db: Db, token: string, backend: string, meta: Meta, now: int): Db {
    if token == "" || backend == "" then db
    else db.(tokens := db.tokens[token := BoundRow(Row(db.tokens, token), backend, meta, now)])
  }

  function BindDevice(db: Db, device: string, backend: string, client: string, now: int): Db {
    if device == "" || backend == "" then db
    else db.(devices := db.devices[device := BoundDevice(Row(db.devices, device), backend, client, now)])
  }

  function BindAnon(db: Db, key: AnonKey, backend: string, now: int): Db {
    if backend == "" then db
    else db.(anons := db.anons[key :=
      match Row(db.anons, key)
      case None => AnonRow(backend, Unix(now), Unix(now))
      case Some(r) => r.(backend := backend, seen := Unix(now))])
  }

  function TouchToken(db: Db, token: string, verb: string, path: string, status: int, now: int): Db {
    if token == "" || token !in db.tokens then db
    else db.(tokens := db.tokens[token := TouchedRow(db.tokens[token], verb, path, status, now)])
  }

  function TouchDevice(db: Db, device: string, now: int): Db {
    if device == "" || device !in db.devices then db
    else db.(devices := db.devices[device := db.devices[device].(seen := Unix(now))])
  }

  function DeleteToken(db: Db, token: string): Db {
    if token == "" then db else db.(tokens := db.tokens - {token})
  }

  function DeleteClient(db: Db, token: string, device: string): Db {
    var db' := DeleteToken(db, token);
    if device == "" then db' else db'.(devices := db'.devices - {device})
  }

  datatype Counts = Counts(tokens: nat, devices: nat, anons: nat)

  // Rows of each table on a backend, expired or not.
  ghost function CountsOf(db: Db, name: string): Counts {
    Counts(|set k | k in db.tokens && db.tokens[k].backend == name|,
           |set k | k in db.devices && db.devices[k].backend == name|,
           |set k | k in db.anons && db.anons[k].backend == name|)
  }

  /* Unpinning a user */

  function CompactIDs(ids: seq<string>): set<string> {
    set i | 0 <= i < |ids| && TrimSpace(ids[i]) != "" :: TrimSpace(ids[i])
  }

  // The same user name, in any case, or one of the ids.
  predicate Matches(m: Meta, username: string, ids: set<string>) {
    ToLower(m.username) == ToLower(username) || (m.userID != "" && m.userID in ids)
  }

  predicate Nameless(m: Meta) {
    m.username == "" && m.userID == ""
  }

  function Selected(db: Db, username: string, ids: set<string>): set<string> {
    var named := set t | t in db.tokens && Matches(db.tokens[t].meta, username, ids);
    if named != {} then named else set t | t in db.tokens && Nameless(db.tokens[t].meta)
  }

  function Unpinned(db: Db, username: string, ids: set<string>): Db {
    var victims := Selected(db, username, ids);
    var backends := set t | t in victims :: db.tokens[t].backend;
    Db(db.tokens - victims, map d | d in db.devices && db.devices[d].backend !in backends :: db.devices[d], db.anons)
  }

  // Rows never name the empty backend.
  ghost predicate Named(db: Db) {
    && (forall t :: t in db.tokens ==> db.tokens[t].backend != "")
    && (forall d :: d in db.devices ==> db.devices[d].backend != "")
  }
}
