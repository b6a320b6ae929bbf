// What a crash does not cost: the entries of other keys, at every moment of every run
// with crashes.
module ImgSurvival {
  import opened Prelude
  import opened Recency
  import opened Files
  import opened ImgModel
  import opened ImgProofs
  import opened ImgRuns
  import opened ImgCrash

  /* What a restart makes of a directory */

  // Every meta file was written for the key its name stands for.
  ghost predicate OwnMetas(env: Env, fs: Fs) {
    forall h :: Meta(h) in fs ==> exists k, e :: MetaFor(env, fs, h, k, e)
  }

  ghost predicate MetaFor(env: Env, fs: Fs, h: string, k: string, e: Entry) {
    h == env.hash(k) && ImgCrash.At(fs, Meta(h)) == Some(env.encode(MetaOf(k, e)))
  }

  // loadDisk indexes the entry under h.
  predicate Indexes(env: Env, fs: Fs, h: string, now: int) {
    var r := ReadFiles(env, fs, h, now);
    r.Some? && r.value.0.key != "" && r.value.0.size > 0
  }

  function CellOf(env: Env, fs: Fs, h: string, now: int): Cell<DiskRef>
    requires Indexes(env, fs, h, now)
  {
    var m := ReadFiles(env, fs, h, now).value.0;
    Cell(m.key, m.size, DiskRef(h, m.expiresAt))
  }

  lemma OwnKey(env: Env, fs: Fs, h: string, now: int)
    requires Ideal(env) && OwnMetas(env, fs) && Indexes(env, fs, h, now)
    ensures env.hash(CellOf(env, fs, h, now).key) == h
    ensures Bin(h) in fs && |fs[Bin(h)]| == CellOf(env, fs, h, now).size
  {
    var k, e :| MetaFor(env, fs, h, k, e);
    assert env.decode(env.encode(MetaOf(k, e))) == Some(MetaOf(k, e));
  }

  // The files of done have been read: d indexes exactly the good ones and has lost
  // exactly the others.
  ghost predicate ReadSoFar(env: Env, fs: Fs, done: seq<string>, d: Disk, now: int) {
    && Distinct(d.list)
    && (forall c :: c in d.list ==>
          c.val.hash in done && Indexes(env, fs, c.val.hash, now) && c == CellOf(env, fs, c.val.hash, now))
    && (forall h :: h in done && Indexes(env, fs, h, now) ==> CellOf(env, fs, h, now) in d.list)
    && (forall name: Name :: ImgCrash.At(d.fs, name) ==
          if name.hash in done && name.hash != "" && !Indexes(env, fs, name.hash, now) then None
          else ImgCrash.At(fs, name))
  }

  lemma ReadGood(env: Env, fs: Fs, done: seq<string>, d: Disk, h: string, now: int)
    requires Ideal(env) && OwnMetas(env, fs) && ReadSoFar(env, fs, done, d, now) && h !in done
    requires Indexes(env, fs, h, now)
    ensures ReadSoFar(env, fs, done + [h], AddIndex(d, CellOf(env, fs, h, now).key, h, CellOf(env, fs, h, now).size,
                                                    CellOf(env, fs, h, now).val.expires), now)
  {
    var c := CellOf(env, fs, h, now);
    assert forall g :: g in done + [h] <==> g in done || g == h;
    OwnKey(env, fs, h, now);
    forall b | b in d.list ensures b.key != c.key {
      OwnKey(env, fs, b.val.hash, now);
    }
    WithoutAbsent(d.list, c.key);
    PushKeeps(c, d.list);
  }

  lemma ReadBad(env: Env, fs: Fs, done: seq<string>, d: Disk, h: string, now: int)
    requires ReadSoFar(env, fs, done, d, now) && h !in done && !Indexes(env, fs, h, now)
    ensures ReadSoFar(env, fs, done + [h], RemoveFiles(d, h), now)
  {
    assert forall g :: g in done + [h] <==> g in done || g == h;
    RemovedFiles(d, h);
  }

  lemma ReadOne(env: Env, fs: Fs, done: seq<string>, d: Disk, h: string, now: int)
    requires Ideal(env) && OwnMetas(env, fs) && ReadSoFar(env, fs, done, d, now) && h !in done
    ensures ReadSoFar(env, fs, done + [h], LoadOne(env, d, h, now), now)
  {
    assert ReadFiles(env, d.fs, h, now) == ReadFiles(env, fs, h, now) by {
      ReadsTwoFiles(env, fs, d.fs, h, now);
    }
    if Indexes(env, fs, h, now) {
      ReadGood(env, fs, done, d, h, now);
    } else {
      ReadBad(env, fs, done, d, h, now);
    }
  }

  lemma {:induction false} ReadAll(env: Env, fs: Fs, log: seq<FsOp>, listing: seq<string>, now: int)
    requires Ideal(env) && OwnMetas(env, fs)
    requires forall i, j :: 0 <= i < j < |listing| ==> listing[i] != listing[j]
    ensures ReadSoFar(env, fs, listing, LoadAll(env, Disk([], fs, log), listing, now), now)
  {
    if |listing| != 0 {
      var rest, h := listing[..|listing| - 1], listing[|listing| - 1];
      assert listing == rest + [h] && h !in rest;
      ReadAll(env, fs, log, rest, now);
      ReadOne(env, fs, rest, LoadAll(env, Disk([], fs, log), rest, now), h, now);
    }
  }

  // The good entries take no more room than list does.
  ghost predicate Sized(env: Env, fs: Fs, list: seq<Cell<DiskRef>>, now: int) {
    forall h :: Indexes(env, fs, h, now) ==>
      exists b :: b in list && b.key == CellOf(env, fs, h, now).key && b.size == CellOf(env, fs, h, now).size
  }

  // A restart on such a directory evicts nothing.
  lemma LoadIsRead(env: Env, cfg: Config, fs: Fs, listing: seq<string>, now: int, list: seq<Cell<DiskRef>>)
    requires Ideal(env) && cfg.diskOn && OwnMetas(env, fs) && IsListing(fs, listing)
    requires Sized(env, fs, list, now) && Distinct(list) && Total(list) <= cfg.diskMax
    ensures var d := Load(env, cfg, fs, [], listing, now).disk;
      ReadSoFar(env, fs, listing, d, now)
  {
    var d := LoadAll(env, Disk([], fs, []), listing, now);
    ReadAll(env, fs, [], listing, now);
    TotalMonotone(d.list, list);
  }

  lemma ReadHolds(env: Env, fs: Fs, listing: seq<string>, d: Disk, now: int, key: string, e: Entry)
    requires Ideal(env) && OwnMetas(env, fs) && ReadSoFar(env, fs, listing, d, now) && env.hash(key) in listing
    requires key != "" && 0 < |e.body| && Holds(env, fs, key, e)
    ensures Find(d.list, key) ==
      if Live(e.expiresAt, now) then Some(Cell(key, |e.body|, DiskRef(env.hash(key), e.expiresAt))) else None
    ensures Live(e.expiresAt, now) ==> Holds(env, d.fs, key, e)
  {
    var h := env.hash(key);
    ReadBack(env, fs, key, e, now);
    if Live(e.expiresAt, now) {
      FindUnique(d.list, CellOf(env, fs, h, now));
      assert ImgCrash.At(d.fs, Meta(h)) == ImgCrash.At(fs, Meta(h));
      assert ImgCrash.At(d.fs, Bin(h)) == ImgCrash.At(fs, Bin(h));
    } else {
      forall c | c in d.list ensures c.key != key {
        OwnKey(env, fs, c.val.hash, now);
      }
    }
  }

  lemma GetFromDisk(env: Env, cfg: Config, d: Disk, key: string, e: Entry, now: int)
    requires Ideal(env) && cfg.diskOn && Holds(env, d.fs, key, e)
    requires Find(d.list, key) == Some(Cell(key, |e.body|, DiskRef(env.hash(key), e.expiresAt)))
    ensures Get(env, cfg, State([], d), key, now).1 ==
      if Live(e.expiresAt, now) then Some(EntryOf(MetaOf(key, e), e.body)) else None
  {
    ReadBack(env, d.fs, key, e, now);
  }

  // What the restarted cache answers for a key whose files are whole.
  lemma LoadAnswers(env: Env, cfg: Config, fs: Fs, listing: seq<string>, now: int, list: seq<Cell<DiskRef>>,
                    key: string, e: Entry, later: int)
    requires Ideal(env) && cfg.diskOn && OwnMetas(env, fs) && IsListing(fs, listing)
    requires Sized(env, fs, list, now) && Distinct(list) && Total(list) <= cfg.diskMax
    requires key != "" && 0 < |e.body| && Holds(env, fs, key, e)
    ensures Get(env, cfg, Load(env, cfg, fs, [], listing, now), key, later).1 ==
      if Live(e.expiresAt, now) && Live(e.expiresAt, later) then Some(EntryOf(MetaOf(key, e), e.body)) else None
  {
    var d := Load(env, cfg, fs, [], listing, now).disk;
    LoadIsRead(env, cfg, fs, listing, now, list);
    ReadHolds(env, fs, listing, d, now, key, e);
    if Live(e.expiresAt, now) {
      GetFromDisk(env, cfg, d, key, e, later);
    }
  }

  /* What a crash leaves of a sound state */

  // Its meta files are among those that were there.
  ghost predicate OldMetas(fs: Fs, after: Fs) {
    forall h :: Meta(h) in after ==> ImgCrash.At(after, Meta(h)) == ImgCrash.At(fs, Meta(h))
  }

  lemma OldMetasFit(env: Env, cfg: Config, st: State, latest: Latest, after: Fs, now: int)
    requires Ideal(env) && cfg.diskOn && Inv(env, cfg, st, latest) && OldMetas(st.disk.fs, after)
    ensures OwnMetas(env, after) && Sized(env, after, st.disk.list, now)
  {
    forall h | Meta(h) in after
      ensures exists k, e :: MetaFor(env, after, h, k, e)
      ensures Indexes(env, after, h, now) ==>
        var c := CellOf(env, after, h, now);
        exists b :: b in st.disk.list && b.key == c.key && b.size == c.size
    {
      assert Meta(h) in st.disk.fs;
      var k :| k in latest && h == env.hash(k) && Holds(env, st.disk.fs, k, latest[k]);
      assert MetaFor(env, after, h, k, latest[k]);
      assert env.decode(env.encode(MetaOf(k, latest[k]))) == Some(MetaOf(k, latest[k]));
      var b :| b in st.disk.list && b.val.hash == h;
      assert b.key == k;
    }
  }

  lemma {:induction false} RemovedEarlier(ops: seq<FsOp>, n: nat, fs: Fs, name: Name)
    requires OnlyRemoves(ops) && n <= |ops| && name in ApplyAll(ops, fs)
    ensures name in ApplyAll(ops[..n], fs) && ApplyAll(ops[..n], fs)[name] == ApplyAll(ops, fs)[name]
    decreases |ops|
  {
    if n == |ops| {
      assert ops[..n] == ops;
    } else {
      var before := ops[..|ops| - 1];
      assert before[..n] == ops[..n];
      RemovedEarlier(before, n, fs, name);
    }
  }

  lemma CrashInRemovalsKeeps(ops: seq<FsOp>, n: nat, fs: Fs, after: Fs, name: Name)
    requires OnlyRemoves(ops) && CrashedAt(ops, n, fs, after)
    ensures OldMetas(fs, after)
    ensures name in ApplyAll(ops, fs) ==> ImgCrash.At(after, name) == ImgCrash.At(ApplyAll(ops, fs), name)
  {
    RemovalsLeave(ops[..n], fs);
    if name in ApplyAll(ops, fs) {
      RemovedEarlier(ops, n, fs, name);
    }
  }

  // Either the operation is complete, or no meta file is new; and a file the completed
  // operation has under another hash than its own is there.
  ghost predicate CutShort(fs: Fs, done: Fs, after: Fs, own: string, name: Name) {
    && (after == done || OldMetas(fs, after))
    && (name.hash != own && name in done ==> ImgCrash.At(after, name) == ImgCrash.At(done, name))
  }

  lemma CrashInWriteKeeps(fs: Fs, hash: string, meta: Bytes, body: Bytes, n: nat, after: Fs, name: Name)
    requires CrashedAt(WriteOps(hash, meta, body), n, fs, after)
    ensures CutShort(fs, ApplyAll(WriteOps(hash, meta, body), fs), after, hash, name)
  {
    var ops := WriteOps(hash, meta, body);
    CrashLeaves(fs, hash, meta, body, n, after);
    WrittenFiles(fs, hash, meta, body);
    if n == 4 {
      assert ops[..n] == ops;
    } else {
      forall h | Meta(h) in after ensures ImgCrash.At(after, Meta(h)) == ImgCrash.At(fs, Meta(h)) {
        assert h != hash ==> Meta(h).hash != hash;
      }
    }
  }

  lemma CrashInPutKeeps(env: Env, cfg: Config, d: Disk, key: string, e: Entry, ops: seq<FsOp>, n: nat, after: Fs,
                        name: Name)
    requires Logs(d, PutDisk(env, cfg, d, key, e), ops) && CrashedAt(ops, n, d.fs, after)
    ensures CutShort(d.fs, PutDisk(env, cfg, d, key, e).fs, after, env.hash(key), name)
  {
    var evicted := PutLog(env, cfg, d, key, e);
    if PutDisk(env, cfg, d, key, e) == d {
      NothingLogged(d);
      LogsUnique(d, d, ops, []);
      assert after == d.fs;
    } else {
      var hash, meta := env.hash(key), env.encode(MetaOf(key, e));
      var write := WriteOps(hash, meta, e.body);
      LogsUnique(d, PutDisk(env, cfg, d, key, e), ops, evicted + write);
      WriteAfterRemovals(evicted, hash, meta, e.body, n, d.fs, after, name);
    }
  }

  lemma WriteAfterRemovals(evicted: seq<FsOp>, hash: string, meta: Bytes, body: Bytes, n: nat, fs: Fs, after: Fs,
                           name: Name)
    requires OnlyRemoves(evicted) && CrashedAt(evicted + WriteOps(hash, meta, body), n, fs, after)
    ensures CutShort(fs, ApplyAll(evicted + WriteOps(hash, meta, body), fs), after, hash, name)
  {
    var write, mid := WriteOps(hash, meta, body), ApplyAll(evicted, fs);
    CrashedInAppend(evicted, write, n, fs, after);
    ApplyAppend(evicted, write, fs);
    WrittenFiles(mid, hash, meta, body);
    RemovalsLeave(evicted, fs);
    if n < |evicted| {
      CrashInRemovalsKeeps(evicted, n, fs, after, name);
    } else {
      CrashInWriteKeeps(mid, hash, meta, body, n - |evicted|, after, name);
    }
  }

  // The hash whose files the operation writes, if any.
  function OwnHash(env: Env, op: Op): string {
    if op.PutOp? then env.hash(op.key) else ""
  }

  lemma CrashCutsShort(env: Env, cfg: Config, st: State, op: Op, ops: seq<FsOp>, n: nat, after: Fs, name: Name)
    requires Logs(st.disk, Step(env, cfg, st, op).disk, ops) && CrashedAt(ops, n, st.disk.fs, after)
    ensures CutShort(st.disk.fs, Step(env, cfg, st, op).disk.fs, after, OwnHash(env, op), name)
  {
    match op
    case PutOp(key, ent, now) =>
      if Fits(ent, cfg.maxObject, cfg.maxBytes) {
        CrashInPutKeeps(env, cfg, st.disk, key, ent.(storedAt := now), ops, n, after, name);
      } else {
        NothingLogged(st.disk);
        LogsUnique(st.disk, st.disk, ops, []);
      }
    case GetOp(key, now) =>
      var removed := GetLog(env, cfg, st, key, now);
      LogsUnique(st.disk, Step(env, cfg, st, op).disk, ops, removed);
      CrashInRemovalsKeeps(ops, n, st.disk.fs, after, name);
    case RestartOp(listing, now) =>
      var removed := LoadLog(env, cfg, st.disk.fs, st.disk.log, listing, now);
      assert Logs(st.disk, Step(env, cfg, st, op).disk, removed);
      LogsUnique(st.disk, Step(env, cfg, st, op).disk, ops, removed);
      CrashInRemovalsKeeps(ops, n, st.disk.fs, after, name);
  }

  /* Every moment of a run with crashes is sound */

  // The entry the two files of a key hold.
  ghost function Held(env: Env, fs: Fs, key: string): Entry
    requires exists e :: Holds(env, fs, key, e)
    ensures Holds(env, fs, key, Held(env, fs, key))
  {
    var e :| Holds(env, fs, key, e); e
  }

  lemma IndexedHolds(env: Env, fs: Fs, h: string, now: int)
    requires Ideal(env) && OwnMetas(env, fs) && Indexes(env, fs, h, now)
    ensures var c := CellOf(env, fs, h, now);
      exists e :: Holds(env, fs, c.key, e) && |e.body| == c.size && e.expiresAt == c.val.expires
  {
    var k, e :| MetaFor(env, fs, h, k, e);
    assert env.decode(env.encode(MetaOf(k, e))) == Some(MetaOf(k, e));
    var e' := e.(body := fs[Bin(h)]);
    assert MetaOf(k, e') == MetaOf(k, e) && Holds(env, fs, k, e');
  }

  lemma HeldAlike(env: Env, fs: Fs, key: string, e: Entry, e': Entry)
    requires Ideal(env) && Holds(env, fs, key, e) && Holds(env, fs, key, e')
    ensures e.body == e'.body && e.expiresAt == e'.expiresAt
  {
    assert env.decode(env.encode(MetaOf(key, e))) == Some(MetaOf(key, e));
    assert env.decode(env.encode(MetaOf(key, e'))) == Some(MetaOf(key, e'));
  }

  ghost predicate SmallCells(cfg: Config, list: seq<Cell<DiskRef>>) {
    forall c :: c in list ==> c.size <= cfg.maxObject
  }

  // What each cell read back stands for.
  lemma ReadCell(env: Env, fs: Fs, listing: seq<string>, d: Disk, now: int, c: Cell<DiskRef>)
    requires Ideal(env) && OwnMetas(env, fs) && ReadSoFar(env, fs, listing, d, now) && c in d.list
    ensures c.val.hash == env.hash(c.key) && c.size > 0
    ensures exists e :: Holds(env, d.fs, c.key, e)
    ensures var e := Held(env, d.fs, c.key); c.size == |e.body| && c.val.expires == e.expiresAt
  {
    var h := c.val.hash;
    OwnKey(env, fs, h, now);
    IndexedHolds(env, fs, h, now);
    var e :| Holds(env, fs, c.key, e) && |e.body| == c.size && e.expiresAt == c.val.expires;
    assert ImgCrash.At(d.fs, Meta(h)) == ImgCrash.At(fs, Meta(h));
    assert ImgCrash.At(d.fs, Bin(h)) == ImgCrash.At(fs, Bin(h));
    assert Holds(env, d.fs, c.key, e);
    HeldAlike(env, d.fs, c.key, e, Held(env, d.fs, c.key));
  }

  lemma ReadMeta(env: Env, fs: Fs, listing: seq<string>, d: Disk, now: int, h: string)
    requires Ideal(env) && OwnMetas(env, fs) && ReadSoFar(env, fs, listing, d, now) && IsListing(fs, listing)
    requires Meta(h) in d.fs
    ensures exists c :: c in d.list && c.val.hash == h
  {
    assert ImgCrash.At(d.fs, Meta(h)).Some? && Meta(h).hash == h;
    assert Meta(h) in fs && h in listing;
    var k, e :| MetaFor(env, fs, h, k, e);
    assert CellOf(env, fs, h, now) in d.list;
  }

  // Every cell has its two files, with what the cell says of them.
  ghost predicate Standing(env: Env, d: Disk) {
    forall c :: c in d.list ==> Stands(env, d.fs, c)
  }

  ghost predicate Stands(env: Env, fs: Fs, c: Cell<DiskRef>) {
    && c.val.hash == env.hash(c.key) && c.size > 0 && (exists e :: Holds(env, fs, c.key, e))
    && var e := Held(env, fs, c.key); c.size == |e.body| && c.val.expires == e.expiresAt
  }

  ghost function Entries(env: Env, d: Disk): Latest
    requires Standing(env, d)
  {
    map k | k in Keys(d.list) && (exists e :: Holds(env, d.fs, k, e)) :: Held(env, d.fs, k)
  }

  lemma EntriesOf(env: Env, d: Disk, c: Cell<DiskRef>)
    requires Standing(env, d) && c in d.list
    ensures c.key in Entries(env, d) && Entries(env, d)[c.key] == Held(env, d.fs, c.key)
  {
    assert Stands(env, d.fs, c) && c.key in Keys(d.list);
  }

  lemma EntriesIndexed(env: Env, cfg: Config, d: Disk)
    requires Standing(env, d) && SmallCells(cfg, d.list)
    ensures IndexInv(env, d, Entries(env, d))
    ensures forall k :: k in Entries(env, d) ==> 0 < |Entries(env, d)[k].body| <= cfg.maxObject
  {
    forall c | c in d.list ensures c.key in Entries(env, d) && Entries(env, d)[c.key] == Held(env, d.fs, c.key) {
      EntriesOf(env, d, c);
    }
    forall k | k in Entries(env, d) ensures 0 < |Entries(env, d)[k].body| <= cfg.maxObject {
      var c :| c in d.list && c.key == k;
      assert Stands(env, d.fs, c);
    }
  }

  lemma ReadIsSound(env: Env, cfg: Config, fs: Fs, listing: seq<string>, d: Disk, now: int) returns (latest: Latest)
    requires Ideal(env) && OwnMetas(env, fs) && ReadSoFar(env, fs, listing, d, now) && IsListing(fs, listing)
    requires SmallCells(cfg, d.list)
    ensures IndexInv(env, d, latest) && FilesInv(env, d.fs, latest) && Covered(d, {})
    ensures forall k :: k in latest ==> 0 < |latest[k].body| <= cfg.maxObject
  {
    forall c | c in d.list ensures Stands(env, d.fs, c) {
      ReadCell(env, fs, listing, d, now, c);
    }
    latest := Entries(env, d);
    EntriesIndexed(env, cfg, d);
    forall h | Meta(h) in d.fs
      ensures exists c :: c in d.list && c.val.hash == h
      ensures exists k :: k in latest && h == env.hash(k) && Holds(env, d.fs, k, latest[k])
    {
      ReadMeta(env, fs, listing, d, now, h);
      var c :| c in d.list && c.val.hash == h;
      assert c.key in latest && Holds(env, d.fs, c.key, latest[c.key]);
    }
  }

  lemma SoundAfterLoad(env: Env, cfg: Config, fs: Fs, listing: seq<string>, now: int, list: seq<Cell<DiskRef>>)
      returns (latest: Latest)
    requires Ideal(env) && Validated(cfg) && cfg.diskOn && OwnMetas(env, fs) && IsListing(fs, listing)
    requires Sized(env, fs, list, now) && Distinct(list) && Total(list) <= cfg.diskMax && SmallCells(cfg, list)
    ensures Inv(env, cfg, Load(env, cfg, fs, [], listing, now), latest)
  {
    var st := Load(env, cfg, fs, [], listing, now);
    LoadShape(env, cfg, fs, [], listing, now);
    LoadIsRead(env, cfg, fs, listing, now, list);
    forall c | c in st.disk.list ensures c.size <= cfg.maxObject {
      var b :| b in list && b.key == c.key && b.size == c.size;
    }
    latest := ReadIsSound(env, cfg, fs, listing, st.disk, now);
  }

  // The directory a crash leaves, seen from a sound state: a restart finds room for it.
  lemma CrashFits(env: Env, cfg: Config, st: State, op: Op, latest: Latest, done: Latest, after: Fs, now: int)
      returns (list: seq<Cell<DiskRef>>)
    requires Ideal(env) && cfg.diskOn && Inv(env, cfg, st, latest) && Inv(env, cfg, Step(env, cfg, st, op), done)
    requires after == Step(env, cfg, st, op).disk.fs || OldMetas(st.disk.fs, after)
    ensures OwnMetas(env, after) && Sized(env, after, list, now)
    ensures Distinct(list) && Total(list) <= cfg.diskMax && SmallCells(cfg, list)
  {
    var st' := Step(env, cfg, st, op);
    if OldMetas(st.disk.fs, after) {
      list := st.disk.list;
      OldMetasFit(env, cfg, st, latest, after, now);
    } else {
      list := st'.disk.list;
      OldMetasFit(env, cfg, st', done, after, now);
    }
  }

  // Restarts list the meta files that are there.
  ghost predicate Lists(env: Env, st: State, ev: Event) {
    && (ev.op.RestartOp? ==> IsListing(st.disk.fs, ev.op.listing))
    && (ev.Crash? ==> IsListing(ev.after, ev.listing))
  }

  ghost predicate ListedRun(env: Env, cfg: Config, evs: seq<Event>) {
    forall i :: 0 <= i < |evs| ==> Lists(env, Reach(env, cfg, evs[..i]), evs[i])
  }

  lemma StepSound(env: Env, cfg: Config, st: State, op: Op, latest: Latest) returns (latest': Latest)
    requires Ideal(env) && Validated(cfg) && Inv(env, cfg, st, latest)
    requires op.RestartOp? ==> IsListing(st.disk.fs, op.listing)
    ensures Inv(env, cfg, Step(env, cfg, st, op), latest')
    ensures forall k :: !(op.PutOp? && op.key == k) && k in latest' ==> k in latest && latest'[k] == latest[k]
  {
    latest' := latest;
    match op
    case PutOp(key, ent, now) =>
      PutKeeps(env, cfg, st, key, ent, now, latest);
      if Fits(ent, cfg.maxObject, cfg.maxBytes) {
        latest' := latest[key := ent.(storedAt := now)];
      }
    case GetOp(key, now) => GetKeeps(env, cfg, st, key, now, latest);
    case RestartOp(listing, now) => LoadKeeps(env, cfg, st.disk.fs, st.disk.log, listing, now, latest);
  }

  lemma ResumeSound(env: Env, cfg: Config, st: State, ev: Event, latest: Latest) returns (latest': Latest)
    requires Ideal(env) && Validated(cfg) && Inv(env, cfg, st, latest) && Possible(env, cfg, st, ev)
    requires Lists(env, st, ev)
    ensures Inv(env, cfg, Resume(env, cfg, st, ev), latest')
  {
    var done := StepSound(env, cfg, st, ev.op, latest);
    match ev
    case Done(op) => latest' := done;
    case Crash(op, n, after, listing, now) =>
      latest' := map[];
      if cfg.diskOn {
        var ops :| Logs(st.disk, Step(env, cfg, st, op).disk, ops) && CrashedAt(ops, n, st.disk.fs, after);
        CrashCutsShort(env, cfg, st, op, ops, n, after, Meta(""));
        var list := CrashFits(env, cfg, st, op, latest, done, after, now);
        latest' := SoundAfterLoad(env, cfg, after, listing, now, list);
      }
  }

  // At every moment of every run with crashes both tiers agree with the files: every
  // indexed entry has its two files, and every meta file is indexed.
  lemma {:induction false} CrashRunSound(env: Env, cfg: Config, evs: seq<Event>) returns (latest: Latest)
    requires Ideal(env) && Validated(cfg) && PossibleRun(env, cfg, evs) && ListedRun(env, cfg, evs)
    ensures Inv(env, cfg, Reach(env, cfg, evs), latest)
  {
    if |evs| == 0 {
      latest := map[];
    } else {
      var before, ev := evs[..|evs| - 1], evs[|evs| - 1];
      assert forall i :: 0 <= i < |before| ==> before[..i] == evs[..i];
      latest := CrashRunSound(env, cfg, before);
      assert Possible(env, cfg, Reach(env, cfg, before), ev) && Lists(env, Reach(env, cfg, before), ev);
      latest := ResumeSound(env, cfg, Reach(env, cfg, before), ev, latest);
    }
  }

  /* The entries of other keys */

  // The completed operation would have left this entry on disk.
  ghost predicate WouldKeep(env: Env, cfg: Config, st: State, op: Op, key: string) {
    cfg.diskOn && key in Keys(Step(env, cfg, st, op).disk.list)
  }

  function ExpiryOn(d: Disk, key: string): Expiry {
    var f := Find(d.list, key);
    if f.Some? then f.value.val.expires else Never
  }

  // What the cache answers for key after a restart at now.
  function AnswerFrom(env: Env, cfg: Config, fs: Fs, listing: seq<string>, now: int, key: string, later: int)
    : Option<Entry>
  {
    Get(env, cfg, Load(env, cfg, fs, [], listing, now), key, later).1
  }

  lemma KeptFiles(env: Env, cfg: Config, st: State, op: Op, done: Latest, n: nat, after: Fs, key: string)
    requires Ideal(env) && WouldKeep(env, cfg, st, op, key) && Inv(env, cfg, Step(env, cfg, st, op), done)
    requires !(op.PutOp? && op.key == key)
    requires exists ops :: Logs(st.disk, Step(env, cfg, st, op).disk, ops) && CrashedAt(ops, n, st.disk.fs, after)
    ensures var d := Step(env, cfg, st, op).disk;
      && key in done && Holds(env, d.fs, key, done[key]) && Holds(env, after, key, done[key])
      && ExpiryOn(d, key) == done[key].expiresAt
      && (after == d.fs || OldMetas(st.disk.fs, after))
  {
    var d, h := Step(env, cfg, st, op).disk, env.hash(key);
    var ops :| Logs(st.disk, d, ops) && CrashedAt(ops, n, st.disk.fs, after);
    var c := Find(d.list, key).value;
    CrashCutsShort(env, cfg, st, op, ops, n, after, Meta(h));
    CrashCutsShort(env, cfg, st, op, ops, n, after, Bin(h));
    assert h != OwnHash(env, op);
  }

  // At every moment of every run with crashes, a crash inside an operation costs no
  // entry of another key that the completed operation would have kept on disk: it is
  // answered after the restart exactly while it is not expired, and just as it would
  // be after a restart of the completed operation's directory.
  lemma OthersSurviveCrash(env: Env, cfg: Config, evs: seq<Event>, crash: Event, key: string, later: int)
    requires Ideal(env) && Validated(cfg) && crash.Crash?
    requires PossibleRun(env, cfg, evs + [crash]) && ListedRun(env, cfg, evs + [crash])
    requires WouldKeep(env, cfg, Reach(env, cfg, evs), crash.op, key)
    requires key != "" && !(crash.op.PutOp? && crash.op.key == key)
    ensures var d := Step(env, cfg, Reach(env, cfg, evs), crash.op).disk;
      var answer := Get(env, cfg, Reach(env, cfg, evs + [crash]), key, later).1;
      && (answer.Some? <==> Live(ExpiryOn(d, key), crash.now) && Live(ExpiryOn(d, key), later))
      && forall listing :: IsListing(d.fs, listing) ==>
           answer == AnswerFrom(env, cfg, d.fs, listing, crash.now, key, later)
  {
    var st, run := Reach(env, cfg, evs), evs + [crash];
    assert run[..|evs|] == evs && forall i :: 0 <= i < |evs| ==> run[..i] == evs[..i];
    assert Possible(env, cfg, Reach(env, cfg, run[..|evs|]), run[|evs|]);
    assert Lists(env, Reach(env, cfg, run[..|evs|]), run[|evs|]);
    var latest := CrashRunSound(env, cfg, evs);
    var done := StepSound(env, cfg, st, crash.op, latest);
    KeptFiles(env, cfg, st, crash.op, done, crash.n, crash.after, key);
    assert Reach(env, cfg, run) == Load(env, cfg, crash.after, [], crash.listing, crash.now);
    var fs, e := Step(env, cfg, st, crash.op).disk.fs, done[key];
    var list := CrashFits(env, cfg, st, crash.op, latest, done, crash.after, crash.now);
    LoadAnswers(env, cfg, crash.after, crash.listing, crash.now, list, key, e, later);
    var list' := CrashFits(env, cfg, st, crash.op, latest, done, fs, crash.now);
    forall listing | IsListing(fs, listing)
      ensures AnswerFrom(env, cfg, fs, listing, crash.now, key, later) ==
        AnswerFrom(env, cfg, crash.after, crash.listing, crash.now, key, later)
    {
      LoadAnswers(env, cfg, fs, listing, crash.now, list', key, e, later);
    }
  }

  // With what an answer can be: the last completed Put of a key, while it is not
  // expired, survives the crash of any operation that does not store the key, unless
  // that operation evicts it.
  lemma LastPutSurvives(env: Env, cfg: Config, evs: seq<Event>, crash: Event, i: nat, later: int)
    requires Ideal(env) && Validated(cfg) && crash.Crash? && i < |evs| && evs[i].Done? && evs[i].op.PutOp?
    requires PossibleRun(env, cfg, evs + [crash]) && ListedRun(env, cfg, evs + [crash])
    requires Fits(evs[i].op.ent, cfg.maxObject, cfg.maxBytes) && evs[i].op.key != ""
    requires forall j :: i < j <= |evs| ==>
      !((evs + [crash])[j].op.PutOp? && (evs + [crash])[j].op.key == evs[i].op.key)
    requires WouldKeep(env, cfg, Reach(env, cfg, evs), crash.op, evs[i].op.key)
    requires var d := Step(env, cfg, Reach(env, cfg, evs), crash.op).disk;
      Live(ExpiryOn(d, evs[i].op.key), crash.now) && Live(ExpiryOn(d, evs[i].op.key), later)
    ensures var answer := Get(env, cfg, Reach(env, cfg, evs + [crash]), evs[i].op.key, later).1;
      answer.Some? && CopyOf(answer.value, evs[i].op.ent.(storedAt := evs[i].op.now))
  {
    var key, run := evs[i].op.key, evs + [crash];
    assert run[i] == evs[i] && run[|evs|] == crash;
    OthersSurviveCrash(env, cfg, evs, crash, key, later);
    AnswersSurviveCrashes(env, cfg, run, key, later);
    LastPutAlone(cfg, run, key, i);
    var p := evs[i].op.ent.(storedAt := evs[i].op.now);
    assert p.(body := p.body) == p;
  }
}
