// What the two-tier image cache computes, on values: a byte-budgeted memory
// list over a byte-budgeted disk list and its files.
module ImgModel {
  import opened Prelude
  import opened Recency
  import opened Files

  type Header = map<string, seq<string>>

  datatype Entry = Entry(backend: string, status: int, header: Header, body: Bytes, etag: string,
                         lastModified: string, contentType: string, hits: int, storedAt: int, expiresAt: Expiry)

  datatype DiskMeta = DiskMeta(key: string, backend: string, status: int, header: Header, etag: string,
                               lastModified: string, contentType: string, storedAt: int, expiresAt: Expiry, size: int)

  // The part of a diskItem beside its key and size.
  datatype DiskRef = DiskRef(hash: string, expires: Expiry)

  // diskOn: disk.enabled with a non-empty path.
  datatype Config = Config(maxBytes: int, maxObject: int, diskOn: bool, diskMax: int)

  // The limits configuration validation guarantees.
  predicate Validated(cfg: Config) {
    && 0 < cfg.maxBytes && cfg.maxObject <= cfg.maxBytes
    && (cfg.diskOn ==> 0 < cfg.diskMax && cfg.maxObject <= cfg.diskMax)
  }

  // SHA-256 in hex, and the JSON form of a meta file.
  datatype Env = Env(hash: string -> string, encode: DiskMeta -> Bytes, decode: Bytes -> Option<DiskMeta>)

  // The hash separates keys and meta files decode to what was encoded.
  ghost predicate Ideal(env: Env) {
    && (forall k :: env.hash(k) != "")
    && (forall j, k {:trigger env.hash(j), env.hash(k)} :: env.hash(j) == env.hash(k) ==> j == k)
    && (forall m {:trigger env.encode(m)} :: env.decode(env.encode(m)) == Some(m))
  }

  datatype Disk = Disk(list: seq<Cell<DiskRef>>, fs: Fs, log: seq<FsOp>)

  datatype State = State(mem: seq<Cell<Entry>>, disk: Disk)

  function MetaOf(key: string, e: Entry): DiskMeta {
    DiskMeta(key, e.backend, e.status, e.header, e.etag, e.lastModified, e.contentType,
             e.storedAt, e.expiresAt, |e.body|)
  }

  function EntryOf(m: DiskMeta, body: Bytes): Entry {
    Entry(m.backend, if m.status == 0 then 200 else m.status, m.header, body, m.etag, m.lastModified, m.contentType,
          0, m.storedAt, m.expiresAt)
  }

  /* Memory tier */

  function MemPush(cfg: Config, mem: seq<Cell<Entry>>, key: string, e: Entry): seq<Cell<Entry>> {
    Insert(mem, Cell(key, |e.body|, e), cfg.maxBytes)
  }

  predicate Fits(e: Entry, maxObject: int, max: int) {
    0 < |e.body| <= maxObject && |e.body| <= max
  }

  // putMemoryLocked
  function PutMemory(cfg: Config, mem: seq<Cell<Entry>>, key: string, e: Entry): seq<Cell<Entry>> {
    if Fits(e, cfg.maxObject, cfg.maxBytes) then MemPush(cfg, mem, key, e) else mem
  }

  /* Disk tier */

  // File operations, in order.
  function Run(d: Disk, ops: seq<FsOp>): Disk {
    d.(fs := ApplyAll(ops, d.fs), log := d.log + ops)
  }

  // removeDiskFiles
  function RemoveOps(hash: string): seq<FsOp> {
    if hash == "" then []
    else [Remove(Meta(hash)), Remove(Bin(hash)), Remove(MetaTmp(hash)), Remove(BinTmp(hash))]
  }

  function RemoveFiles(d: Disk, hash: string): Disk {
    Run(d, RemoveOps(hash))
  }

  // Eviction from the back of the disk list, with the files.
  function Evict(d: Disk, room: int): Disk
    decreases |d.list|
  {
    var n := |d.list|;
    if n == 0 || Total(d.list) <= room then d
    else Evict(RemoveFiles(d.(list := d.list[..n - 1]), d.list[n - 1].val.hash), room)
  }

  // removeDiskIndexLocked(el, true) for the element holding key
  function Drop(d: Disk, key: string): Disk {
    match Find(d.list, key)
    case None => d
    case Some(c) => RemoveFiles(d.(list := Without(d.list, key)), c.val.hash)
  }

  // writeDiskFiles: both temporaries, then the two renames, body first.
  function WriteOps(hash: string, meta: Bytes, body: Bytes): seq<FsOp> {
    [Write(BinTmp(hash), body), Write(MetaTmp(hash), meta),
     Rename(BinTmp(hash), Bin(hash)), Rename(MetaTmp(hash), Meta(hash))]
  }

  // Which of its four file operations fails, the last one for any number beyond 2, and
  // what a failing write leaves of its data; Fails(0, None) also when the directory
  // cannot be made or the metadata not encoded.
  datatype Fault = NoFault | Fails(op: nat, left: Option<nat>)

  // The two temporaries, and what clears the first away when the second fails.
  function TmpOps(hash: string, meta: Bytes, body: Bytes, fault: Fault): seq<FsOp> {
    if fault.Fails? && fault.op == 0 then Partial(BinTmp(hash), body, fault.left)
    else if fault.Fails? && fault.op == 1 then
      [Write(BinTmp(hash), body)] + Partial(MetaTmp(hash), meta, fault.left) + [Remove(BinTmp(hash))]
    else [Write(BinTmp(hash), body), Write(MetaTmp(hash), meta)]
  }

  // The two renames, body first, and what clears up after one that fails.
  function RenameOps(hash: string, fault: Fault): seq<FsOp> {
    if fault.Fails? && fault.op <= 2 then [Remove(BinTmp(hash)), Remove(MetaTmp(hash))]
    else if fault.Fails? then [Rename(BinTmp(hash), Bin(hash)), Remove(MetaTmp(hash)), Remove(Bin(hash))]
    else [Rename(BinTmp(hash), Bin(hash)), Rename(MetaTmp(hash), Meta(hash))]
  }

  // writeDiskFiles when an operation may fail.
  function WriteOpsWith(hash: string, meta: Bytes, body: Bytes, fault: Fault): (ops: seq<FsOp>)
    ensures fault.NoFault? ==> ops == WriteOps(hash, meta, body)
  {
    if fault.Fails? && fault.op <= 1 then TmpOps(hash, meta, body, fault)
    else TmpOps(hash, meta, body, fault) + RenameOps(hash, fault)
  }

  lemma RunRun(d: Disk, a: seq<FsOp>, b: seq<FsOp>)
    ensures Run(Run(d, a), b) == Run(d, a + b)
  {
    var once, both := Run(d, a), Run(d, a + b);
    ApplyAppend(a, b, d.fs);
    assert once.log + b == both.log;
    assert Run(once, b) == Disk(both.list, both.fs, both.log);
  }

  // addDiskIndex
  function AddIndex(d: Disk, key: string, hash: string, size: nat, expires: Expiry): Disk {
    d.(list := Touch(d.list, Cell(key, size, DiskRef(hash, expires))))
  }

  // putDiskLocked up to the write: the old cell goes, and the cold ones.
  function MakeRoom(d: Disk, key: string, room: int): Disk {
    Evict(d.(list := Without(d.list, key)), room)
  }

  // putDiskLocked from the write on.
  function Stow(env: Env, d: Disk, key: string, e: Entry): Disk {
    var written := Run(d, WriteOps(env.hash(key), env.encode(MetaOf(key, e)), e.body));
    AddIndex(written, key, env.hash(key), |e.body|, e.expiresAt)
  }

  // The same when the write may fail: the entry is then not indexed.
  function StowWith(env: Env, d: Disk, key: string, e: Entry, fault: Fault): Disk {
    if fault.NoFault? then Stow(env, d, key, e)
    else Run(d, WriteOpsWith(env.hash(key), env.encode(MetaOf(key, e)), e.body, fault))
  }

  // putDiskLocked
  function PutDisk(env: Env, cfg: Config, d: Disk, key: string, e: Entry): Disk {
    if !cfg.diskOn || !Fits(e, cfg.maxObject, cfg.diskMax) then d
    else Stow(env, MakeRoom(d, key, cfg.diskMax - |e.body|), key, e)
  }

  function PutDiskWith(env: Env, cfg: Config, d: Disk, key: string, e: Entry, fault: Fault): Disk {
    if !cfg.diskOn || !Fits(e, cfg.maxObject, cfg.diskMax) then d
    else StowWith(env, MakeRoom(d, key, cfg.diskMax - |e.body|), key, e, fault)
  }

  // What the files under hash hold, if they read back as a live entry.
  function ReadFiles(env: Env, fs: Fs, hash: string, now: int): Option<(DiskMeta, Bytes)> {
    if Meta(hash) !in fs then None
    else match env.decode(fs[Meta(hash)])
      case None => None
      case Some(m) =>
        if Bin(hash) in fs && |fs[Bin(hash)]| == m.size && Live(m.expiresAt, now) then Some((m, fs[Bin(hash)]))
        else None
  }

  // getDisk
  function GetDisk(env: Env, cfg: Config, st: State, key: string, now: int): (State, Option<Entry>) {
    if !cfg.diskOn then (st, None)
    else match Find(st.disk.list, key)
      case None => (st, None)
      case Some(c) =>
        if !Live(c.val.expires, now) then (st.(disk := Drop(st.disk, key)), None)
        else match ReadFiles(env, st.disk.fs, c.val.hash, now)
          case None => (st.(disk := Drop(st.disk, key)), None)
          case Some((m, body)) =>
            var e := EntryOf(m, body);
            (State(PutMemory(cfg, st.mem, key, e), st.disk.(list := Touch(st.disk.list, c))), Some(e))
  }

  /* Whole operations */

  // Cache.Put
  function Put(env: Env, cfg: Config, st: State, key: string, e: Entry, now: int): (State, bool) {
    if !Fits(e, cfg.maxObject, cfg.maxBytes) then (st, false)
    else
      var stored := e.(storedAt := now);
      (State(MemPush(cfg, st.mem, key, stored), PutDisk(env, cfg, st.disk, key, stored)), true)
  }

  // Cache.Put when the disk write may fail; the caller is not told.
  function PutWith(env: Env, cfg: Config, st: State, key: string, e: Entry, now: int, fault: Fault): (State, bool) {
    if !Fits(e, cfg.maxObject, cfg.maxBytes) then (st, false)
    else
      var stored := e.(storedAt := now);
      (State(MemPush(cfg, st.mem, key, stored), PutDiskWith(env, cfg, st.disk, key, stored, fault)), true)
  }

  function Hit(c: Cell<Entry>): Cell<Entry> {
    c.(val := c.val.(hits := c.val.hits + 1))
  }

  // The memory tier's answer; an expired cell goes.
  function GetMemory(mem: seq<Cell<Entry>>, key: string, now: int): (seq<Cell<Entry>>, Option<Entry>) {
    match Find(mem, key)
    case None => (mem, None)
    case Some(c) =>
      if Live(c.val.expiresAt, now) then (Touch(mem, Hit(c)), Some(Hit(c).val)) else (Without(mem, key), None)
  }

  // Cache.Get
  function Get(env: Env, cfg: Config, st: State, key: string, now: int): (State, Option<Entry>) {
    var (mem, hit) := GetMemory(st.mem, key, now);
    if hit.Some? then (st.(mem := mem), hit) else GetDisk(env, cfg, st.(mem := mem), key, now)
  }

  // One directory entry <hash>.meta seen by loadDisk.
  function LoadOne(env: Env, d: Disk, hash: string, now: int): Disk {
    match ReadFiles(env, d.fs, hash, now)
    case None => RemoveFiles(d, hash)
    case Some((m, _)) =>
      if m.key == "" || m.size <= 0 then RemoveFiles(d, hash)
      else AddIndex(d, m.key, hash, m.size, m.expiresAt)
  }

  function LoadAll(env: Env, d: Disk, listing: seq<string>, now: int): Disk {
    if |listing| == 0 then d
    else LoadOne(env, LoadAll(env, d, listing[..|listing| - 1], now), listing[|listing| - 1], now)
  }

  // loadDisk over a directory whose .meta files are listed in this order.
  function Load(env: Env, cfg: Config, fs: Fs, log: seq<FsOp>, listing: seq<string>, now: int): State {
    if !cfg.diskOn then State([], Disk([], fs, log))
    else
      var d := LoadAll(env, Disk([], fs, log), listing, now);
      State([], if cfg.diskMax > 0 then Evict(d, cfg.diskMax) else d)
  }
}
