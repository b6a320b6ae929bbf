// Over every run of Put, Get and clean restart the image cache answers with
// nothing or with the latest stored entry, within its byte budgets.
module ImgProofs {
  import opened Prelude
  import opened Recency
  import opened Files
  import opened ImgModel

  /* Budgets: hold from any directory content onwards */

  ghost predicate Shape(cfg: Config, st: State) {
    && Distinct(st.mem) && Total(st.mem) <= cfg.maxBytes
    && (forall c :: c in st.mem ==> c.size == |c.val.body|)
    && Distinct(st.disk.list)
    && (if cfg.diskOn then Total(st.disk.list) <= cfg.diskMax else st.disk.list == [])
  }

  lemma MemPushShape(cfg: Config, mem: seq<Cell<Entry>>, key: string, e: Entry)
    requires Distinct(mem) && |e.body| <= cfg.maxBytes
    requires forall c :: c in mem ==> c.size == |c.val.body|
    ensures var r := MemPush(cfg, mem, key, e);
      && Distinct(r) && Total(r) <= cfg.maxBytes
      && (forall c :: c in r ==> c.size == |c.val.body|)
      && (forall c :: c in r ==> c == Cell(key, |e.body|, e) || (c in mem && c.key != key))
  {
    InsertKeeps(mem, Cell(key, |e.body|, e), cfg.maxBytes);
  }

  lemma FitKeys<V(!new)>(s: seq<Cell<V>>, room: int)
    requires 0 <= room
    ensures Keys(Fit(s, room)) <= Keys(s)
  {
    FitIsLongestPrefix(s, room);
    PrefixKeeps(s, Fit(s, room));
  }

  lemma {:induction false} EvictList(d: Disk, room: int)
    ensures Evict(d, room).list == Fit(d.list, room)
    decreases |d.list|
  {
    var n := |d.list|;
    if n != 0 && Total(d.list) > room {
      EvictList(RemoveFiles(d.(list := d.list[..n - 1]), d.list[n - 1].val.hash), room);
    }
  }

  lemma RemovedFiles(d: Disk, hash: string)
    ensures RemoveFiles(d, hash).list == d.list
    ensures RemoveFiles(d, hash).fs ==
      if hash == "" then d.fs else d.fs - {Meta(hash), Bin(hash), MetaTmp(hash), BinTmp(hash)}
  {
    ApplyFour(Remove(Meta(hash)), Remove(Bin(hash)), Remove(MetaTmp(hash)), Remove(BinTmp(hash)), d.fs);
  }

  lemma DropList(d: Disk, key: string)
    ensures Drop(d, key).list == Without(d.list, key)
  {
  }

  lemma AddIndexShape(d: Disk, key: string, hash: string, size: nat, expires: Expiry)
    requires Distinct(d.list)
    ensures Distinct(AddIndex(d, key, hash, size, expires).list)
    ensures Total(AddIndex(d, key, hash, size, expires).list) == size + Total(Without(d.list, key))
  {
    WithoutKeeps(d.list, key);
    PushKeeps(Cell(key, size, DiskRef(hash, expires)), Without(d.list, key));
  }

  lemma StowList(env: Env, d: Disk, key: string, e: Entry)
    requires Without(d.list, key) == d.list
    ensures Stow(env, d, key, e).list == [Cell(key, |e.body|, DiskRef(env.hash(key), e.expiresAt))] + d.list
  {
  }

  lemma PutDiskShape(env: Env, cfg: Config, d: Disk, key: string, e: Entry)
    requires cfg.diskOn && Distinct(d.list) && Fits(e, cfg.maxObject, cfg.diskMax)
    ensures var r := PutDisk(env, cfg, d, key, e);
      && r.list == Insert(d.list, Cell(key, |e.body|, DiskRef(env.hash(key), e.expiresAt)), cfg.diskMax)
      && Distinct(r.list) && Total(r.list) <= cfg.diskMax
  {
    var room, cell := cfg.diskMax - |e.body|, Cell(key, |e.body|, DiskRef(env.hash(key), e.expiresAt));
    var d1 := MakeRoom(d, key, room);
    RoomyShape(d, key, room);
    assert PutDisk(env, cfg, d, key, e).list == [cell] + d1.list by {
      StowList(env, d1, key, e);
    }
    PushKeeps(cell, d1.list);
  }

  // The disk list once key is gone and room bytes are left for others.
  lemma RoomyShape(d: Disk, key: string, room: int)
    requires Distinct(d.list) && 0 <= room
    ensures var r := MakeRoom(d, key, room);
      && r.list == Fit(Without(d.list, key), room)
      && r.list <= Without(d.list, key)
      && Distinct(r.list) && Total(r.list) <= room
      && key !in Keys(r.list)
      && Without(r.list, key) == r.list
  {
    var w := Without(d.list, key);
    WithoutKeeps(d.list, key);
    EvictList(d.(list := w), room);
    FitIsLongestPrefix(w, room);
    PrefixKeeps(w, Fit(w, room));
    WithoutAbsent(Fit(w, room), key);
  }

  lemma PutShape(env: Env, cfg: Config, st: State, key: string, e: Entry, now: int)
    requires Shape(cfg, st)
    ensures Shape(cfg, Put(env, cfg, st, key, e, now).0)
  {
    if Fits(e, cfg.maxObject, cfg.maxBytes) {
      var stored := e.(storedAt := now);
      MemPushShape(cfg, st.mem, key, stored);
      if cfg.diskOn && Fits(stored, cfg.maxObject, cfg.diskMax) {
        PutDiskShape(env, cfg, st.disk, key, stored);
      }
    }
  }

  // So does a Put whose disk write fails.
  lemma PutWithShape(env: Env, cfg: Config, st: State, key: string, e: Entry, now: int, fault: Fault)
    requires Shape(cfg, st)
    ensures Shape(cfg, PutWith(env, cfg, st, key, e, now, fault).0)
  {
    var st' := PutWith(env, cfg, st, key, e, now, fault).0;
    if fault.NoFault? {
      PutShape(env, cfg, st, key, e, now);
      assert st' == Put(env, cfg, st, key, e, now).0;
    } else if Fits(e, cfg.maxObject, cfg.maxBytes) {
      var stored := e.(storedAt := now);
      MemPushShape(cfg, st.mem, key, stored);
      FailedDiskShape(env, cfg, st.disk, key, stored, fault);
      assert st' == State(MemPush(cfg, st.mem, key, stored), PutDiskWith(env, cfg, st.disk, key, stored, fault));
    }
  }

  lemma FailedDiskShape(env: Env, cfg: Config, d: Disk, key: string, e: Entry, fault: Fault)
    requires fault.Fails? && Distinct(d.list)
    requires if cfg.diskOn then Total(d.list) <= cfg.diskMax else d.list == []
    ensures var r := PutDiskWith(env, cfg, d, key, e, fault);
      Distinct(r.list) && if cfg.diskOn then Total(r.list) <= cfg.diskMax else r.list == []
  {
    if cfg.diskOn && Fits(e, cfg.maxObject, cfg.diskMax) {
      var room := cfg.diskMax - |e.body|;
      RoomyShape(d, key, room);
      assert PutDiskWith(env, cfg, d, key, e, fault).list == MakeRoom(d, key, room).list;
    }
  }

  // The two ways GetMemory changes the list.
  lemma GetMemoryCases(mem: seq<Cell<Entry>>, key: string, now: int)
    ensures var f := Find(mem, key);
      GetMemory(mem, key, now) ==
        if f.None? then (mem, None)
        else if Live(f.value.val.expiresAt, now) then (Touch(mem, Hit(f.value)), Some(Hit(f.value).val))
        else (Without(mem, key), None)
  {
  }

  lemma GetMemoryShape(cfg: Config, mem: seq<Cell<Entry>>, key: string, now: int)
    requires Distinct(mem) && forall c :: c in mem ==> c.size == |c.val.body|
    ensures var (r, hit) := GetMemory(mem, key, now);
      && Distinct(r) && Total(r) <= Total(mem)
      && (forall c :: c in r ==> c.size == |c.val.body|)
      && (hit.None? ==> key !in Keys(r) && forall c :: c in r <==> c in mem && c.key != key)
  {
    var f := Find(mem, key);
    var (r, hit) := GetMemory(mem, key, now);
    GetMemoryCases(mem, key, now);
    if f.None? {
      assert r == mem;
      forall c | c in mem ensures c.key != key {
        assert c.key in Keys(mem);
      }
    } else if hit.Some? {
      TouchKeeps(mem, f.value, Hit(f.value));
      assert r == Touch(mem, Hit(f.value));
    } else {
      WithoutKeeps(mem, key);
      assert r == Without(mem, key);
    }
  }

  lemma GetShape(env: Env, cfg: Config, st: State, key: string, now: int)
    requires Shape(cfg, st)
    ensures Shape(cfg, Get(env, cfg, st, key, now).0)
  {
    GetMemoryShape(cfg, st.mem, key, now);
    GetDiskShape(env, cfg, st.(mem := GetMemory(st.mem, key, now).0), key, now);
  }

  lemma GetDiskShape(env: Env, cfg: Config, st: State, key: string, now: int)
    requires Shape(cfg, st)
    ensures Shape(cfg, GetDisk(env, cfg, st, key, now).0)
  {
    var f := Find(st.disk.list, key);
    if cfg.diskOn && f.Some? {
      var c := f.value;
      var r := ReadFiles(env, st.disk.fs, c.val.hash, now);
      if Live(c.val.expires, now) && r.Some? {
        var e := EntryOf(r.value.0, r.value.1);
        TouchKeeps(st.disk.list, c, c);
        if Fits(e, cfg.maxObject, cfg.maxBytes) {
          MemPushShape(cfg, st.mem, key, e);
        }
      } else {
        assert GetDisk(env, cfg, st, key, now).0 == st.(disk := Drop(st.disk, key));
        WithoutKeeps(st.disk.list, key);
        DropList(st.disk, key);
      }
    }
  }

  lemma {:induction false} LoadAllShape(env: Env, fs: Fs, log: seq<FsOp>, listing: seq<string>, now: int)
    ensures Distinct(LoadAll(env, Disk([], fs, log), listing, now).list)
  {
    if |listing| != 0 {
      var rest := listing[..|listing| - 1];
      LoadAllShape(env, fs, log, rest, now);
      var d, h := LoadAll(env, Disk([], fs, log), rest, now), listing[|listing| - 1];
      var r := ReadFiles(env, d.fs, h, now);
      if r.Some? && r.value.0.key != "" && r.value.0.size > 0 {
        AddIndexShape(d, r.value.0.key, h, r.value.0.size, r.value.0.expiresAt);
      }
    }
  }

  // Whatever the directory holds, loadDisk starts within the disk budget.
  lemma LoadShape(env: Env, cfg: Config, fs: Fs, log: seq<FsOp>, listing: seq<string>, now: int)
    requires Validated(cfg)
    ensures Shape(cfg, Load(env, cfg, fs, log, listing, now))
  {
    if cfg.diskOn {
      var d := LoadAll(env, Disk([], fs, log), listing, now);
      LoadAllShape(env, fs, log, listing, now);
      EvictList(d, cfg.diskMax);
      FitIsLongestPrefix(d.list, cfg.diskMax);
      PrefixKeeps(d.list, Evict(d, cfg.diskMax).list);
    }
  }

  /* Contents: both tiers hold only the latest stored entry of each key */

  type Latest = map<string, Entry>

  // The same entry, up to the hit counter and the default status 200.
  ghost predicate CopyOf(got: Entry, put: Entry) {
    && got.(hits := put.hits, status := put.status) == put
    && (got.status == put.status || (put.status == 0 && got.status == 200))
  }

  ghost predicate Holds(env: Env, fs: Fs, key: string, e: Entry) {
    && Meta(env.hash(key)) in fs && fs[Meta(env.hash(key))] == env.encode(MetaOf(key, e))
    && Bin(env.hash(key)) in fs && fs[Bin(env.hash(key))] == e.body
  }

  ghost predicate MemInv(mem: seq<Cell<Entry>>, latest: Latest) {
    forall c :: c in mem ==> c.key in latest && CopyOf(c.val, latest[c.key])
  }

  ghost predicate IndexInv(env: Env, d: Disk, latest: Latest) {
    forall c :: c in d.list ==>
      && c.key in latest
      && c.val == DiskRef(env.hash(c.key), latest[c.key].expiresAt)
      && c.size == |latest[c.key].body|
      && Holds(env, d.fs, c.key, latest[c.key])
  }

  ghost predicate FilesInv(env: Env, fs: Fs, latest: Latest) {
    forall h :: Meta(h) in fs ==>
      exists k :: k in latest && h == env.hash(k) && Holds(env, fs, k, latest[k])
  }

  ghost predicate Inv(env: Env, cfg: Config, st: State, latest: Latest) {
    && Shape(cfg, st)
    && (forall k :: k in latest ==> 0 < |latest[k].body| <= cfg.maxObject)
    && MemInv(st.mem, latest)
    && (cfg.diskOn ==> IndexInv(env, st.disk, latest) && FilesInv(env, st.disk.fs, latest) && Covered(st.disk, {}))
  }

  // Every meta file, but for the hashes in aside, belongs to an indexed cell.
  ghost predicate Covered(d: Disk, aside: set<string>) {
    forall h :: Meta(h) in d.fs && h !in aside ==> exists c :: c in d.list && c.val.hash == h
  }

  lemma ForgetCovers(d: Disk, list: seq<Cell<DiskRef>>, hash: string, aside: set<string>)
    requires Covered(d, aside) && hash != ""
    requires forall c :: c in d.list && c.val.hash != hash ==> c in list
    ensures Covered(RemoveFiles(d.(list := list), hash), aside)
  {
    RemovedFiles(d.(list := list), hash);
  }

  ghost predicate NamedFiles(env: Env, list: seq<Cell<DiskRef>>) {
    forall c :: c in list ==> c.val.hash == env.hash(c.key)
  }

  lemma {:induction false} EvictCovers(env: Env, d: Disk, room: int, aside: set<string>)
    requires Ideal(env) && NamedFiles(env, d.list) && Covered(d, aside)
    ensures Covered(Evict(d, room), aside)
    decreases |d.list|
  {
    var n := |d.list|;
    if n != 0 && Total(d.list) > room {
      var last, front := d.list[n - 1], d.list[..n - 1];
      assert last in d.list && d.list == front + [last];
      ForgetCovers(d, front, last.val.hash, aside);
      EvictCovers(env, RemoveFiles(d.(list := front), last.val.hash), room, aside);
    }
  }

  lemma DropCovers(env: Env, d: Disk, key: string)
    requires Ideal(env) && Distinct(d.list) && NamedFiles(env, d.list) && Covered(d, {})
    ensures Covered(Drop(d, key), {})
  {
    var f := Find(d.list, key);
    if f.Some? {
      WithoutKeeps(d.list, key);
      ForgetCovers(d, Without(d.list, key), f.value.val.hash, {});
    }
  }

  lemma WithoutCovers(env: Env, d: Disk, key: string)
    requires Ideal(env) && Distinct(d.list) && NamedFiles(env, d.list) && Covered(d, {})
    ensures Covered(d.(list := Without(d.list, key)), {env.hash(key)})
    ensures Distinct(Without(d.list, key)) && NamedFiles(env, Without(d.list, key))
  {
    WithoutKeeps(d.list, key);
    forall g | Meta(g) in d.fs && g != env.hash(key) ensures exists c :: c in Without(d.list, key) && c.val.hash == g {
      var c :| c in d.list && c.val.hash == g;
      assert c in Without(d.list, key);
    }
  }

  lemma PutDiskCovers(env: Env, cfg: Config, d: Disk, key: string, e: Entry)
    requires Ideal(env) && Distinct(d.list) && NamedFiles(env, d.list) && Covered(d, {})
    ensures Covered(PutDisk(env, cfg, d, key, e), {})
  {
    if cfg.diskOn && Fits(e, cfg.maxObject, cfg.diskMax) {
      var room := cfg.diskMax - |e.body|;
      WithoutCovers(env, d, key);
      EvictCovers(env, d.(list := Without(d.list, key)), room, {env.hash(key)});
      RoomyShape(d, key, room);
      StowCovers(env, MakeRoom(d, key, room), key, e);
      assert PutDisk(env, cfg, d, key, e) == Stow(env, MakeRoom(d, key, room), key, e);
    }
  }

  lemma StowCovers(env: Env, d: Disk, key: string, e: Entry)
    requires Covered(d, {env.hash(key)}) && Without(d.list, key) == d.list
    ensures Covered(Stow(env, d, key, e), {})
  {
    WrittenFiles(d.fs, env.hash(key), env.encode(MetaOf(key, e)), e.body);
    var r := Stow(env, d, key, e);
    assert r.list == [Cell(key, |e.body|, DiskRef(env.hash(key), e.expiresAt))] + d.list;
    forall g | Meta(g) in r.fs ensures exists c :: c in r.list && c.val.hash == g {
      if g == env.hash(key) {
        assert r.list[0] in r.list;
      } else {
        var c :| c in d.list && c.val.hash == g;
        assert c in r.list;
      }
    }
  }

  // A list whose cells all appear, with their sizes, in another is no larger.
  lemma {:induction false} TotalMonotone(a: seq<Cell<DiskRef>>, b: seq<Cell<DiskRef>>)
    requires Distinct(a) && Distinct(b)
    requires forall c :: c in a ==> exists d :: d in b && d.key == c.key && d.size == c.size
    ensures Total(a) <= Total(b)
  {
    if |a| != 0 {
      var c, b' := a[0], Without(b, a[0].key);
      WithoutKeeps(b, c.key);
      var d :| d in b && d.key == c.key && d.size == c.size;
      FindUnique(b, d);
      forall c' | c' in a[1..] ensures exists d' :: d' in b' && d'.key == c'.key && d'.size == c'.size {
        var d' :| d' in b && d'.key == c'.key && d'.size == c'.size;
        assert d' in b';
      }
      TotalMonotone(a[1..], b');
    }
  }

  // Forgetting key k and its files leaves every other key's files alone.
  lemma ForgetKeeps(env: Env, d: Disk, list: seq<Cell<DiskRef>>, k: string, latest: Latest)
    requires Ideal(env)
    requires IndexInv(env, d, latest) && FilesInv(env, d.fs, latest)
    requires forall c :: c in list ==> c in d.list && c.key != k
    ensures var r := RemoveFiles(d.(list := list), env.hash(k));
      IndexInv(env, r, latest) && FilesInv(env, r.fs, latest)
  {
    var r := RemoveFiles(d.(list := list), env.hash(k));
    RemovedFiles(d.(list := list), env.hash(k));
    forall h | Meta(h) in r.fs
      ensures exists k' :: k' in latest && h == env.hash(k') && Holds(env, r.fs, k', latest[k'])
    {
      var k' :| k' in latest && h == env.hash(k') && Holds(env, d.fs, k', latest[k']);
      assert Holds(env, r.fs, k', latest[k']);
    }
  }

  lemma {:induction false} EvictKeeps(env: Env, d: Disk, room: int, latest: Latest)
    requires Ideal(env) && Distinct(d.list)
    requires IndexInv(env, d, latest) && FilesInv(env, d.fs, latest)
    ensures var r := Evict(d, room); IndexInv(env, r, latest) && FilesInv(env, r.fs, latest)
    decreases |d.list|
  {
    var n := |d.list|;
    if n != 0 && Total(d.list) > room {
      var last, front := d.list[n - 1], d.list[..n - 1];
      assert last in d.list;
      forall c | c in front ensures c in d.list && c.key != last.key {
        var i :| 0 <= i < n - 1 && front[i] == c;
        assert d.list[i] == c;
      }
      ForgetKeeps(env, d, front, last.key, latest);
      EvictKeeps(env, RemoveFiles(d.(list := front), last.val.hash), room, latest);
    }
  }

  lemma DropKeeps(env: Env, d: Disk, key: string, latest: Latest)
    requires Ideal(env) && Distinct(d.list)
    requires IndexInv(env, d, latest) && FilesInv(env, d.fs, latest)
    ensures var r := Drop(d, key); IndexInv(env, r, latest) && FilesInv(env, r.fs, latest)
  {
    var f := Find(d.list, key);
    if f.Some? {
      WithoutKeeps(d.list, key);
      ForgetKeeps(env, d, Without(d.list, key), key, latest);
    }
  }

  lemma WrittenFiles(fs: Fs, hash: string, meta: Bytes, body: Bytes)
    ensures ApplyAll(WriteOps(hash, meta, body), fs) ==
      (fs - {MetaTmp(hash), BinTmp(hash)})[Bin(hash) := body][Meta(hash) := meta]
  {
    var ops := WriteOps(hash, meta, body);
    ApplyFour(ops[0], ops[1], ops[2], ops[3], fs);
  }

  lemma RoomyKeeps(env: Env, d: Disk, key: string, room: int, latest: Latest)
    requires Ideal(env) && Distinct(d.list)
    requires IndexInv(env, d, latest) && FilesInv(env, d.fs, latest)
    ensures var r := MakeRoom(d, key, room); IndexInv(env, r, latest) && FilesInv(env, r.fs, latest)
  {
    WithoutKeeps(d.list, key);
    EvictKeeps(env, d.(list := Without(d.list, key)), room, latest);
  }

  lemma WriteKeeps(env: Env, d: Disk, key: string, e: Entry, latest: Latest)
    requires Ideal(env) && key !in Keys(d.list)
    requires IndexInv(env, d, latest) && FilesInv(env, d.fs, latest)
    ensures var r := Run(d, WriteOps(env.hash(key), env.encode(MetaOf(key, e)), e.body));
      && IndexInv(env, r, latest[key := e]) && FilesInv(env, r.fs, latest[key := e])
      && Holds(env, r.fs, key, e)
  {
    var h, latest' := env.hash(key), latest[key := e];
    var r := Run(d, WriteOps(h, env.encode(MetaOf(key, e)), e.body));
    WrittenFiles(d.fs, h, env.encode(MetaOf(key, e)), e.body);
    forall k | k in latest && k != key && Holds(env, d.fs, k, latest[k]) ensures Holds(env, r.fs, k, latest'[k]) {
      assert env.hash(k) != h;
    }
    forall h' | Meta(h') in r.fs
      ensures exists k :: k in latest' && h' == env.hash(k) && Holds(env, r.fs, k, latest'[k])
    {
      if h' == h {
        assert key in latest' && Holds(env, r.fs, key, latest'[key]);
      } else {
        var k :| k in latest && h' == env.hash(k) && Holds(env, d.fs, k, latest[k]);
        assert Holds(env, r.fs, k, latest'[k]);
      }
    }
    forall c | c in r.list ensures c.key != key {
      assert c.key in Keys(d.list);
    }
  }

  lemma StowKeeps(env: Env, d: Disk, key: string, e: Entry, latest: Latest)
    requires Ideal(env) && key !in Keys(d.list) && Without(d.list, key) == d.list
    requires IndexInv(env, d, latest) && FilesInv(env, d.fs, latest)
    ensures var r := Stow(env, d, key, e);
      IndexInv(env, r, latest[key := e]) && FilesInv(env, r.fs, latest[key := e])
  {
    WriteKeeps(env, d, key, e, latest);
  }

  lemma PutDiskKeeps(env: Env, cfg: Config, d: Disk, key: string, e: Entry, latest: Latest)
    requires Ideal(env) && cfg.diskOn && Distinct(d.list) && Fits(e, cfg.maxObject, cfg.diskMax)
    requires IndexInv(env, d, latest) && FilesInv(env, d.fs, latest)
    ensures var r := PutDisk(env, cfg, d, key, e);
      IndexInv(env, r, latest[key := e]) && FilesInv(env, r.fs, latest[key := e])
  {
    var room := cfg.diskMax - |e.body|;
    var d1 := MakeRoom(d, key, room);
    assert PutDisk(env, cfg, d, key, e) == Stow(env, d1, key, e);
    assert key !in Keys(d1.list) && Without(d1.list, key) == d1.list by {
      RoomyShape(d, key, room);
    }
    assert IndexInv(env, d1, latest) && FilesInv(env, d1.fs, latest) by {
      RoomyKeeps(env, d, key, room, latest);
    }
    StowKeeps(env, d1, key, e, latest);
  }

  lemma PutMemKeeps(cfg: Config, mem: seq<Cell<Entry>>, key: string, e: Entry, latest: Latest)
    requires Distinct(mem) && |e.body| <= cfg.maxBytes && MemInv(mem, latest)
    ensures MemInv(MemPush(cfg, mem, key, e), latest[key := e])
  {
    InsertKeeps(mem, Cell(key, |e.body|, e), cfg.maxBytes);
  }

  lemma PutKeeps(env: Env, cfg: Config, st: State, key: string, e: Entry, now: int, latest: Latest)
    requires Ideal(env) && Validated(cfg) && Inv(env, cfg, st, latest)
    ensures var (st', ok) := Put(env, cfg, st, key, e, now);
      Inv(env, cfg, st', if ok then latest[key := e.(storedAt := now)] else latest)
  {
    var st' := Put(env, cfg, st, key, e, now).0;
    assert Shape(cfg, st') by {
      PutShape(env, cfg, st, key, e, now);
    }
    if Fits(e, cfg.maxObject, cfg.maxBytes) {
      var stored := e.(storedAt := now);
      assert MemInv(st'.mem, latest[key := stored]) by {
        PutMemKeeps(cfg, st.mem, key, stored, latest);
      }
      if cfg.diskOn {
        PutDiskKeeps(env, cfg, st.disk, key, stored, latest);
        PutDiskCovers(env, cfg, st.disk, key, stored);
      }
    }
  }

  // A promoted or directly served entry is the latest one, and still live.
  ghost predicate GoodAnswer(r: Option<Entry>, key: string, now: int, latest: Latest) {
    r.Some? ==> key in latest && CopyOf(r.value, latest[key]) && Live(latest[key].expiresAt, now)
  }

  // The tiers still hold a live entry for key.
  ghost predicate Available(cfg: Config, st: State, key: string, now: int, latest: Latest) {
    && key in latest && Live(latest[key].expiresAt, now)
    && (key in Keys(st.mem) || (cfg.diskOn && key in Keys(st.disk.list)))
  }

  lemma ReadBack(env: Env, fs: Fs, key: string, e: Entry, now: int)
    requires Ideal(env) && Holds(env, fs, key, e)
    ensures ReadFiles(env, fs, env.hash(key), now) ==
      if Live(e.expiresAt, now) then Some((MetaOf(key, e), e.body)) else None
    ensures CopyOf(EntryOf(MetaOf(key, e), e.body), e)
  {
    assert env.decode(env.encode(MetaOf(key, e))) == Some(MetaOf(key, e));
  }

  lemma GetDiskKeeps(env: Env, cfg: Config, st: State, key: string, now: int, latest: Latest)
    requires Ideal(env) && Validated(cfg) && Inv(env, cfg, st, latest) && key !in Keys(st.mem)
    ensures var (st', r) := GetDisk(env, cfg, st, key, now);
      && Inv(env, cfg, st', latest)
      && GoodAnswer(r, key, now, latest)
      && (r.Some? <==> Available(cfg, st, key, now, latest))
  {
    GetDiskShape(env, cfg, st, key, now);
    if cfg.diskOn && Find(st.disk.list, key).Some? {
      var c := Find(st.disk.list, key).value;
      assert key in Keys(st.disk.list);
      ReadBack(env, st.disk.fs, key, latest[key], now);
      DropKeeps(env, st.disk, key, latest);
      DropCovers(env, st.disk, key);
      TouchKeeps(st.disk.list, c, c);
      if Live(c.val.expires, now) {
        var e := EntryOf(MetaOf(key, latest[key]), latest[key].body);
        MemPushShape(cfg, st.mem, key, e);
      }
    }
  }

  lemma GetMemoryKeeps(mem: seq<Cell<Entry>>, key: string, now: int, latest: Latest)
    requires Distinct(mem) && MemInv(mem, latest)
    ensures var (r, hit) := GetMemory(mem, key, now);
      && MemInv(r, latest) && GoodAnswer(hit, key, now, latest)
      && (hit.Some? <==> key in Keys(mem) && Live(latest[key].expiresAt, now))
  {
    var f := Find(mem, key);
    GetMemoryCases(mem, key, now);
    if f.Some? {
      TouchKeeps(mem, f.value, Hit(f.value));
      WithoutKeeps(mem, key);
    }
  }

  lemma GetKeeps(env: Env, cfg: Config, st: State, key: string, now: int, latest: Latest)
    requires Ideal(env) && Validated(cfg) && Inv(env, cfg, st, latest)
    ensures var (st', r) := Get(env, cfg, st, key, now);
      && Inv(env, cfg, st', latest)
      && GoodAnswer(r, key, now, latest)
      && (r.Some? <==> Available(cfg, st, key, now, latest))
  {
    var (mem, hit) := GetMemory(st.mem, key, now);
    GetMemoryShape(cfg, st.mem, key, now);
    GetMemoryKeeps(st.mem, key, now, latest);
    if hit.None? {
      GetDiskKeeps(env, cfg, st.(mem := mem), key, now, latest);
    }
  }

  // The directory's .meta files in listing order.
  ghost predicate IsListing(fs: Fs, listing: seq<string>) {
    && (forall h :: Meta(h) in fs <==> h in listing)
    && (forall i, j :: 0 <= i < j < |listing| ==> listing[i] != listing[j])
  }

  lemma LoadOneKeeps(env: Env, d: Disk, k: string, now: int, latest: Latest)
    requires Ideal(env) && IndexInv(env, d, latest) && FilesInv(env, d.fs, latest) && Distinct(d.list)
    requires k in latest && Holds(env, d.fs, k, latest[k]) && 0 < |latest[k].body|
    requires k !in Keys(d.list)
    ensures var r := LoadOne(env, d, env.hash(k), now);
      && IndexInv(env, r, latest) && FilesInv(env, r.fs, latest)
      && (forall h :: h != env.hash(k) && Meta(h) in d.fs ==> Meta(h) in r.fs)
      && Keys(r.list) == (if Live(latest[k].expiresAt, now) && k != "" then Keys(d.list) + {k} else Keys(d.list))
      && (forall c :: c in d.list ==> c in r.list)
      && (Meta(env.hash(k)) in r.fs ==> exists c :: c in r.list && c.val.hash == env.hash(k))
  {
    var h := env.hash(k);
    ReadBack(env, d.fs, k, latest[k], now);
    if Live(latest[k].expiresAt, now) && k != "" {
      var c := Cell(k, |latest[k].body|, DiskRef(h, latest[k].expiresAt));
      WithoutAbsent(d.list, k);
      PushKeeps(c, d.list);
      assert c in LoadOne(env, d, h, now).list;
    } else {
      RemovedFiles(d, h);
      forall c | c in d.list ensures c.key != k {
        assert c.key in Keys(d.list);
      }
      ForgetKeeps(env, d, d.list, k, latest);
    }
  }

  // What is known once the files of listing have been read into d.
  ghost predicate Loaded(env: Env, fs: Fs, listing: seq<string>, d: Disk, now: int, latest: Latest) {
    && IndexInv(env, d, latest) && FilesInv(env, d.fs, latest)
    && (forall h :: h !in listing && Meta(h) in fs ==> Meta(h) in d.fs)
    && (forall k :: k in latest && k != "" && env.hash(k) in listing && Live(latest[k].expiresAt, now) ==>
          k in Keys(d.list))
    && (forall h :: h in listing && Meta(h) in d.fs ==> exists c :: c in d.list && c.val.hash == h)
  }

  lemma LoadStep(env: Env, fs: Fs, listing: seq<string>, d: Disk, k: string, now: int, latest: Latest)
    requires Ideal(env) && Loaded(env, fs, listing, d, now, latest) && Distinct(d.list)
    requires k in latest && Holds(env, d.fs, k, latest[k]) && 0 < |latest[k].body| && k !in Keys(d.list)
    ensures Loaded(env, fs, listing + [env.hash(k)], LoadOne(env, d, env.hash(k), now), now, latest)
  {
    var h := env.hash(k);
    assert forall g :: g in listing + [h] <==> g == h || g in listing;
    LoadOneKeeps(env, d, k, now, latest);
    LoadedStay(env, d, h, now, listing);
  }

  lemma NextKey(env: Env, fs: Fs, rest: seq<string>, h: string, d: Disk, now: int, latest: Latest) returns (k: string)
    requires Loaded(env, fs, rest, d, now, latest) && h !in rest && Meta(h) in fs
    ensures k in latest && h == env.hash(k) && Holds(env, d.fs, k, latest[k])
  {
    assert Meta(h) in d.fs;
    k :| k in latest && h == env.hash(k) && Holds(env, d.fs, k, latest[k]);
  }

  lemma LoadLast(env: Env, fs: Fs, log: seq<FsOp>, rest: seq<string>, h: string, now: int, latest: Latest)
    requires Ideal(env) && h !in rest && Meta(h) in fs && forall k :: k in latest ==> 0 < |latest[k].body|
    requires Loaded(env, fs, rest, LoadAll(env, Disk([], fs, log), rest, now), now, latest)
    ensures Loaded(env, fs, rest + [h], LoadAll(env, Disk([], fs, log), rest + [h], now), now, latest)
  {
    var d := LoadAll(env, Disk([], fs, log), rest, now);
    var k := NextKey(env, fs, rest, h, d, now, latest);
    LoadAllShape(env, fs, log, rest, now);
    NotYetLoaded(env, fs, log, rest, now, latest, k);
    LoadStep(env, fs, rest, d, k, now, latest);
    LoadAllPush(env, Disk([], fs, log), rest, h, now);
  }

  lemma LoadAllPush(env: Env, d: Disk, listing: seq<string>, h: string, now: int)
    ensures LoadAll(env, d, listing + [h], now) == LoadOne(env, LoadAll(env, d, listing, now), h, now)
  {
    assert (listing + [h])[..|listing|] == listing;
  }

  // The listing names meta files that are there, each at most once.
  ghost predicate Listed(fs: Fs, listing: seq<string>) {
    && (forall i :: 0 <= i < |listing| ==> Meta(listing[i]) in fs)
    && (forall i, j :: 0 <= i < j < |listing| ==> listing[i] != listing[j])
  }

  lemma ListedTail(fs: Fs, rest: seq<string>, h: string)
    requires Listed(fs, rest + [h])
    ensures Listed(fs, rest) && h !in rest && Meta(h) in fs
  {
    var listing := rest + [h];
    assert listing[|rest|] == h && forall i :: 0 <= i < |rest| ==> listing[i] == rest[i];
  }

  lemma LoadedNothing(env: Env, fs: Fs, log: seq<FsOp>, now: int, latest: Latest)
    requires FilesInv(env, fs, latest)
    ensures Loaded(env, fs, [], LoadAll(env, Disk([], fs, log), [], now), now, latest)
  {
  }

  lemma {:induction false} LoadAllKeeps(env: Env, fs: Fs, log: seq<FsOp>, listing: seq<string>, now: int,
                                        latest: Latest)
    requires Ideal(env) && FilesInv(env, fs, latest) && Listed(fs, listing)
    requires forall k :: k in latest ==> 0 < |latest[k].body|
    ensures Loaded(env, fs, listing, LoadAll(env, Disk([], fs, log), listing, now), now, latest)
  {
    if |listing| == 0 {
      LoadedNothing(env, fs, log, now, latest);
    } else {
      var rest, h := listing[..|listing| - 1], listing[|listing| - 1];
      assert listing == rest + [h];
      ListedTail(fs, rest, h);
      LoadAllKeeps(env, fs, log, rest, now, latest);
      LoadLast(env, fs, log, rest, h, now, latest);
    }
  }

  lemma NotYetLoaded(env: Env, fs: Fs, log: seq<FsOp>, listing: seq<string>, now: int, latest: Latest, key: string)
    requires IndexInv(env, LoadAll(env, Disk([], fs, log), listing, now), latest) && env.hash(key) !in listing
    ensures key !in Keys(LoadAll(env, Disk([], fs, log), listing, now).list)
  {
    forall c | c in LoadAll(env, Disk([], fs, log), listing, now).list ensures c.key != key {
      LoadedBefore(env, fs, log, listing, now, c);
    }
  }

  // The files read before keep their cells.
  lemma LoadedStay(env: Env, d: Disk, h: string, now: int, before: seq<string>)
    requires forall g :: g in before && Meta(g) in d.fs ==> exists c :: c in d.list && c.val.hash == g
    requires forall c :: c in d.list ==> c in LoadOne(env, d, h, now).list
    ensures var r := LoadOne(env, d, h, now);
      forall g :: g in before && Meta(g) in r.fs ==> exists c :: c in r.list && c.val.hash == g
  {
    var r := LoadOne(env, d, h, now);
    LoadOnlyRemoves(env, d, h, now);
    forall g | g in before && Meta(g) in r.fs ensures exists c :: c in r.list && c.val.hash == g {
      var c :| c in d.list && c.val.hash == g;
      assert c in r.list;
    }
  }

  lemma LoadOnlyRemoves(env: Env, d: Disk, h: string, now: int)
    ensures forall name :: name in LoadOne(env, d, h, now).fs ==> name in d.fs
  {
    RemovedFiles(d, h);
  }

  // A key indexed so far comes from one of the files read so far.
  lemma {:induction false} LoadedBefore(env: Env, fs: Fs, log: seq<FsOp>, listing: seq<string>, now: int,
                                        c: Cell<DiskRef>)
    requires c in LoadAll(env, Disk([], fs, log), listing, now).list
    ensures c.val.hash in listing
  {
    var rest, h := listing[..|listing| - 1], listing[|listing| - 1];
    var d := LoadAll(env, Disk([], fs, log), rest, now);
    RemovedFiles(d, h);
    if c in d.list {
      LoadedBefore(env, fs, log, rest, now, c);
    } else {
      assert c.val.hash == h;
    }
  }

  lemma {:induction false} LoadAllOnlyRemoves(env: Env, d: Disk, listing: seq<string>, now: int)
    ensures forall name :: name in LoadAll(env, d, listing, now).fs ==> name in d.fs
  {
    if |listing| != 0 {
      var rest := listing[..|listing| - 1];
      LoadAllOnlyRemoves(env, d, rest, now);
      LoadOnlyRemoves(env, LoadAll(env, d, rest, now), listing[|listing| - 1], now);
    }
  }

  // A clean restart keeps every live key of the disk tier.
  lemma RestartKeepsDisk(env: Env, cfg: Config, st: State, listing: seq<string>, now: int, latest: Latest)
    requires Ideal(env) && Validated(cfg) && cfg.diskOn && Inv(env, cfg, st, latest)
    requires IsListing(st.disk.fs, listing)
    ensures var r := Load(env, cfg, st.disk.fs, st.disk.log, listing, now);
      forall k :: k in Keys(st.disk.list) && k != "" && Live(latest[k].expiresAt, now) ==> k in Keys(r.disk.list)
  {
    var d := LoadAll(env, Disk([], st.disk.fs, st.disk.log), listing, now);
    LoadAllKeeps(env, st.disk.fs, st.disk.log, listing, now, latest);
    assert Total(d.list) <= Total(st.disk.list) by {
      LoadedIsSmaller(env, cfg, st, listing, now, latest);
    }
  }

  // No more is read back than was indexed.
  lemma LoadedIsSmaller(env: Env, cfg: Config, st: State, listing: seq<string>, now: int, latest: Latest)
    requires Ideal(env) && Validated(cfg) && cfg.diskOn && Inv(env, cfg, st, latest)
    requires IsListing(st.disk.fs, listing)
    ensures Total(LoadAll(env, Disk([], st.disk.fs, st.disk.log), listing, now).list) <= Total(st.disk.list)
  {
    var d := LoadAll(env, Disk([], st.disk.fs, st.disk.log), listing, now);
    LoadAllKeeps(env, st.disk.fs, st.disk.log, listing, now, latest);
    LoadAllShape(env, st.disk.fs, st.disk.log, listing, now);
    LoadAllOnlyRemoves(env, Disk([], st.disk.fs, st.disk.log), listing, now);
    forall c | c in d.list ensures exists b :: b in st.disk.list && b.key == c.key && b.size == c.size {
      var b :| b in st.disk.list && b.val.hash == c.val.hash;
      assert b.key == c.key;
    }
    TotalMonotone(d.list, st.disk.list);
  }

  lemma LoadKeeps(env: Env, cfg: Config, fs: Fs, log: seq<FsOp>, listing: seq<string>, now: int, latest: Latest)
    requires Ideal(env) && Validated(cfg) && IsListing(fs, listing)
    requires cfg.diskOn ==> FilesInv(env, fs, latest)
    requires forall k :: k in latest ==> 0 < |latest[k].body| <= cfg.maxObject
    ensures Inv(env, cfg, Load(env, cfg, fs, log, listing, now), latest)
  {
    LoadShape(env, cfg, fs, log, listing, now);
    if cfg.diskOn {
      LoadAllKeeps(env, fs, log, listing, now, latest);
      LoadAllShape(env, fs, log, listing, now);
      var d := LoadAll(env, Disk([], fs, log), listing, now);
      LoadAllOnlyRemoves(env, Disk([], fs, log), listing, now);
      EvictKeeps(env, d, cfg.diskMax, latest);
      EvictCovers(env, d, cfg.diskMax, {});
    }
  }
}
