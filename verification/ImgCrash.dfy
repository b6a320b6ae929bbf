// Crashes: between any two file operations, or inside a write, and then
// loadDisk on whatever is there.
module ImgCrash {
  import opened Prelude
  import opened Recency
  import opened Files
  import opened ImgModel
  import opened ImgProofs
  import opened ImgRuns

  /* One write of one key */

  // The files a crash after n operations of writeDiskFiles leaves.
  lemma CrashLeaves(fs: Fs, hash: string, meta: Bytes, body: Bytes, n: nat, after: Fs)
    requires CrashedAt(WriteOps(hash, meta, body), n, fs, after)
    ensures n <= 4
    ensures At(after, Meta(hash)) == if n == 4 then Some(meta) else At(fs, Meta(hash))
    ensures At(after, Bin(hash)) == if n >= 3 then Some(body) else At(fs, Bin(hash))
    ensures SameOutside(fs, after, hash)
  {
    var ops := WriteOps(hash, meta, body);
    ApplyFour(ops[0], ops[1], ops[2], ops[3], fs);
    if n == 0 {
      assert ops[..n] == [];
    } else if n == 1 {
      assert ops[..n] == [ops[0]];
    } else if n == 2 {
      assert ops[..n] == [ops[0], ops[1]];
    } else if n == 3 {
      assert ops[..n] == [ops[0], ops[1], ops[2]];
    } else {
      assert ops[..n] == ops;
    }
  }

  // What a crash during writeDiskFiles leaves under the key's hash.  Up to the
  // first rename: what was there.  Between the renames: the old meta file with
  // the new body, readable only if the length it records fits.  After: the new
  // entry.  Files under other hashes are never affected.
  lemma CrashInWrite(env: Env, fs: Fs, hash: string, m: DiskMeta, body: Bytes, n: nat, after: Fs, now: int)
    requires Ideal(env) && m.size == |body|
    requires CrashedAt(WriteOps(hash, env.encode(m), body), n, fs, after)
    ensures n <= 2 ==> ReadFiles(env, after, hash, now) == ReadFiles(env, fs, hash, now)
    ensures n == 3 ==> ReadFiles(env, after, hash, now) == ReadFiles(env, fs[Bin(hash) := body], hash, now)
    ensures n == 4 ==> ReadFiles(env, after, hash, now) == if Live(m.expiresAt, now) then Some((m, body)) else None
    ensures forall h :: h != hash ==> ReadFiles(env, after, h, now) == ReadFiles(env, fs, h, now)
  {
    var meta := env.encode(m);
    CrashLeaves(fs, hash, meta, body, n, after);
    assert env.decode(meta) == Some(m);
    if n <= 2 {
      ReadsTwoFiles(env, fs, after, hash, now);
    } else if n == 3 {
      ReadsTwoFiles(env, fs[Bin(hash) := body], after, hash, now);
    } else {
      ReadsTwoFiles(env, fs[Bin(hash) := body][Meta(hash) := meta], after, hash, now);
    }
    forall h | h != hash ensures ReadFiles(env, after, h, now) == ReadFiles(env, fs, h, now) {
      assert At(after, Meta(h)) == At(fs, Meta(h)) && At(after, Bin(h)) == At(fs, Bin(h));
      ReadsTwoFiles(env, fs, after, h, now);
    }
  }

  lemma ReadsTwoFiles(env: Env, fs: Fs, after: Fs, h: string, now: int)
    requires At(after, Meta(h)) == At(fs, Meta(h)) && At(after, Bin(h)) == At(fs, Bin(h))
    ensures ReadFiles(env, after, h, now) == ReadFiles(env, fs, h, now)
  {
  }

  function At(fs: Fs, name: Name): Option<Bytes> {
    if name in fs then Some(fs[name]) else None
  }

  ghost predicate SameOutside(fs: Fs, after: Fs, hash: string) {
    forall name: Name :: name.hash != hash ==> At(after, name) == At(fs, name)
  }

  // With no earlier meta file: nothing, or exactly the written entry, and the
  // entry exactly when both renames happened.
  lemma CrashOnFreshKey(env: Env, fs: Fs, hash: string, m: DiskMeta, body: Bytes, n: nat, after: Fs, now: int)
    requires Ideal(env) && m.size == |body| && Meta(hash) !in fs && Live(m.expiresAt, now)
    requires CrashedAt(WriteOps(hash, env.encode(m), body), n, fs, after)
    ensures ReadFiles(env, after, hash, now) == if n == 4 then Some((m, body)) else None
  {
    CrashInWrite(env, fs, hash, m, body, n, after, now);
  }

  // Overwriting a live entry: the old meta file comes back with the new body
  // exactly when the crash falls between the two renames and the lengths are
  // equal; every other crash gives back one of the two entries, or nothing.
  lemma CrashOnOverwrite(env: Env, fs: Fs, key: string, old0: Entry, new0: Entry, n: nat, after: Fs, now: int)
    requires Ideal(env) && Holds(env, fs, key, old0) && Live(old0.expiresAt, now) && Live(new0.expiresAt, now)
    requires CrashedAt(WriteOps(env.hash(key), env.encode(MetaOf(key, new0)), new0.body), n, fs, after)
    ensures var r := ReadFiles(env, after, env.hash(key), now);
      && (n <= 2 ==> r == Some((MetaOf(key, old0), old0.body)))
      && (n == 3 ==> r == if |old0.body| == |new0.body| then Some((MetaOf(key, old0), new0.body)) else None)
      && (n == 4 ==> r == Some((MetaOf(key, new0), new0.body)))
      && (r.Some? ==> |r.value.1| == r.value.0.size)
      && (old0.body != new0.body && MetaOf(key, old0) != MetaOf(key, new0) ==>
            (r == Some((MetaOf(key, old0), new0.body)) <==> n == 3 && |old0.body| == |new0.body|))
  {
    var h := env.hash(key);
    CrashInWrite(env, fs, h, MetaOf(key, new0), new0.body, n, after, now);
    ReadBack(env, fs, key, old0, now);
    assert env.decode(env.encode(MetaOf(key, old0))) == Some(MetaOf(key, old0));
  }

  /* Whole runs with crashes */

  // What may be on disk: the puts of each key that a file may stem from, and the keys
  // whose two files may stem from different puts.
  datatype Lore = Lore(cands: set<(string, Entry)>, torn: set<string>)

  // e is the metadata of one of the key's puts with a body of the same length of
  // another; of the same one unless the key is torn.
  ghost predicate Answers(e: Entry, key: string, lore: Lore) {
    Blend(e, key, lore) && (key !in lore.torn ==> exists p :: (key, p) in lore.cands && CopyOf(e, p))
  }

  ghost predicate Blend(e: Entry, key: string, lore: Lore) {
    exists p: Entry, q: Entry ::
      (key, p) in lore.cands && (key, q) in lore.cands && |p.body| == |q.body| && CopyOf(e, p.(body := q.body))
  }

  // The meta file under h is that of p, and the body file too unless the key is torn.
  ghost predicate FilesOf(env: Env, fs: Fs, h: string, k: string, p: Entry, lore: Lore) {
    && (k, p) in lore.cands && h == env.hash(k) && At(fs, Meta(h)) == Some(env.encode(MetaOf(k, p)))
    && (Bin(h) in fs && k !in lore.torn ==> fs[Bin(h)] == p.body)
  }

  ghost predicate MetaKnown(env: Env, fs: Fs, h: string, lore: Lore) {
    Meta(h) in fs ==> exists k, p :: FilesOf(env, fs, h, k, p, lore)
  }

  ghost predicate BinKnown(env: Env, fs: Fs, h: string, lore: Lore) {
    Bin(h) in fs ==> exists k, p :: (k, p) in lore.cands && h == env.hash(k) && fs[Bin(h)] == p.body
  }

  ghost predicate Known(env: Env, fs: Fs, lore: Lore) {
    forall h :: MetaKnown(env, fs, h, lore) && BinKnown(env, fs, h, lore)
  }

  ghost predicate CrashInv(env: Env, cfg: Config, st: State, lore: Lore) {
    && Shape(cfg, st)
    && (forall c :: c in st.mem ==> Answers(c.val, c.key, lore))
    && (cfg.diskOn ==> NamedFiles(env, st.disk.list) && Known(env, st.disk.fs, lore))
  }

  lemma ReadsBlend(env: Env, fs: Fs, h: string, now: int, lore: Lore) returns (key: string)
    requires Ideal(env) && Known(env, fs, lore) && ReadFiles(env, fs, h, now).Some?
    ensures var (m, body) := ReadFiles(env, fs, h, now).value;
      h == env.hash(key) && m.key == key && Answers(EntryOf(m, body), key, lore)
  {
    assert MetaKnown(env, fs, h, lore) && BinKnown(env, fs, h, lore);
    var k, p :| FilesOf(env, fs, h, k, p, lore);
    var j, q :| (j, q) in lore.cands && h == env.hash(j) && fs[Bin(h)] == q.body;
    assert env.decode(env.encode(MetaOf(k, p))) == Some(MetaOf(k, p));
    key := k;
    assert CopyOf(EntryOf(MetaOf(k, p), q.body), p.(body := q.body));
    if k !in lore.torn {
      assert p.(body := q.body) == p;
    }
  }

  ghost predicate OnlyRemoves(ops: seq<FsOp>) {
    forall i :: 0 <= i < |ops| ==> ops[i].Remove?
  }

  // A crash while files are being removed leaves only known files.
  lemma {:induction false} RemovalsLeave(ops: seq<FsOp>, fs: Fs)
    requires OnlyRemoves(ops)
    ensures forall name :: name in ApplyAll(ops, fs) ==> name in fs && ApplyAll(ops, fs)[name] == fs[name]
  {
    if |ops| != 0 {
      RemovalsLeave(ops[..|ops| - 1], fs);
    }
  }

  lemma SubsetKnown(env: Env, fs: Fs, after: Fs, lore: Lore)
    requires Known(env, fs, lore)
    requires forall name :: name in after ==> name in fs && after[name] == fs[name]
    ensures Known(env, after, lore)
  {
    forall h ensures MetaKnown(env, after, h, lore) && BinKnown(env, after, h, lore) {
      assert MetaKnown(env, fs, h, lore) && BinKnown(env, fs, h, lore);
      if Meta(h) in after {
        var k, p :| FilesOf(env, fs, h, k, p, lore);
        assert FilesOf(env, after, h, k, p, lore);
      }
    }
  }

  lemma CrashInRemovals(env: Env, ops: seq<FsOp>, n: nat, fs: Fs, after: Fs, lore: Lore)
    requires OnlyRemoves(ops) && Known(env, fs, lore) && CrashedAt(ops, n, fs, after)
    ensures Known(env, after, lore)
  {
    RemovalsLeave(ops[..n], fs);
    SubsetKnown(env, fs, after, lore);
  }

  // The files under one hash are as they were.
  lemma SameFilesKnown(env: Env, fs: Fs, after: Fs, h: string, lore: Lore)
    requires MetaKnown(env, fs, h, lore) && BinKnown(env, fs, h, lore)
    requires At(after, Meta(h)) == At(fs, Meta(h)) && At(after, Bin(h)) == At(fs, Bin(h))
    ensures MetaKnown(env, after, h, lore) && BinKnown(env, after, h, lore)
  {
    if Meta(h) in after {
      var k, p :| FilesOf(env, fs, h, k, p, lore);
      assert FilesOf(env, after, h, k, p, lore);
    }
  }

  // Between the renames the key must be torn; anywhere else it need not be.
  lemma CrashInWriteKnown(env: Env, fs: Fs, key: string, e: Entry, n: nat, after: Fs, lore: Lore)
    requires Ideal(env) && Known(env, fs, lore) && (key, e) in lore.cands && (n == 3 ==> key in lore.torn)
    requires CrashedAt(WriteOps(env.hash(key), env.encode(MetaOf(key, e)), e.body), n, fs, after)
    ensures Known(env, after, lore)
  {
    var h0 := env.hash(key);
    CrashLeaves(fs, h0, env.encode(MetaOf(key, e)), e.body, n, after);
    forall h ensures MetaKnown(env, after, h, lore) && BinKnown(env, after, h, lore) {
      assert MetaKnown(env, fs, h, lore) && BinKnown(env, fs, h, lore);
      if h != h0 || n <= 2 {
        SameFilesKnown(env, fs, after, h, lore);
      } else if n == 4 {
        assert FilesOf(env, after, h, key, e, lore);
      } else if Meta(h) in after {
        var k, p :| FilesOf(env, fs, h, k, p, lore);
        assert k == key && FilesOf(env, after, h, k, p, lore);
      }
    }
  }

  /* The file operations of each step, in order */

  ghost predicate Logs(d: Disk, d': Disk, ops: seq<FsOp>) {
    d'.log == d.log + ops && d'.fs == ApplyAll(ops, d.fs)
  }

  lemma NothingLogged(d: Disk)
    ensures Logs(d, d, [])
  {
    assert d.log + [] == d.log;
  }

  lemma LogsAppend(d: Disk, d': Disk, d'': Disk, a: seq<FsOp>, b: seq<FsOp>)
    requires Logs(d, d', a) && Logs(d', d'', b)
    ensures Logs(d, d'', a + b)
  {
    ApplyAppend(a, b, d.fs);
    assert d.log + a + b == d.log + (a + b);
  }

  lemma {:induction false} EvictLog(d: Disk, room: int) returns (ops: seq<FsOp>)
    ensures OnlyRemoves(ops) && Logs(d, Evict(d, room), ops)
    decreases |d.list|
  {
    var n := |d.list|;
    ops := [];
    NothingLogged(d);
    if n != 0 && Total(d.list) > room {
      var hash := d.list[n - 1].val.hash;
      var d' := RemoveFiles(d.(list := d.list[..n - 1]), hash);
      var rest := EvictLog(d', room);
      LogsAppend(d, d', Evict(d', room), RemoveOps(hash), rest);
      ops := RemoveOps(hash) + rest;
    }
  }

  lemma {:induction false} LoadAllLog(env: Env, d: Disk, listing: seq<string>, now: int) returns (ops: seq<FsOp>)
    ensures OnlyRemoves(ops) && Logs(d, LoadAll(env, d, listing, now), ops)
  {
    ops := [];
    NothingLogged(d);
    if |listing| != 0 {
      var rest, h := listing[..|listing| - 1], listing[|listing| - 1];
      var d' := LoadAll(env, d, rest, now);
      var before := LoadAllLog(env, d, rest, now);
      NothingLogged(d');
      var last := if LoadOne(env, d', h, now) == RemoveFiles(d', h) then RemoveOps(h) else [];
      LogsAppend(d, d', LoadOne(env, d', h, now), before, last);
      ops := before + last;
    }
  }

  lemma LoadLog(env: Env, cfg: Config, fs: Fs, log: seq<FsOp>, listing: seq<string>, now: int) returns (ops: seq<FsOp>)
    ensures OnlyRemoves(ops) && Logs(Disk([], fs, log), Load(env, cfg, fs, log, listing, now).disk, ops)
  {
    var d0 := Disk([], fs, log);
    ops := [];
    NothingLogged(d0);
    if cfg.diskOn {
      ops := LoadAllLog(env, d0, listing, now);
      var d := LoadAll(env, d0, listing, now);
      if cfg.diskMax > 0 {
        var evicted := EvictLog(d, cfg.diskMax);
        LogsAppend(d0, d, Evict(d, cfg.diskMax), ops, evicted);
        ops := ops + evicted;
      }
    }
  }

  lemma GetDiskLog(env: Env, cfg: Config, st: State, key: string, now: int) returns (ops: seq<FsOp>)
    ensures OnlyRemoves(ops) && Logs(st.disk, GetDisk(env, cfg, st, key, now).0.disk, ops)
  {
    ops := [];
    NothingLogged(st.disk);
    var f := Find(st.disk.list, key);
    if f.Some? && GetDisk(env, cfg, st, key, now).0.disk == Drop(st.disk, key) {
      ops := RemoveOps(f.value.val.hash);
    }
  }

  lemma GetLog(env: Env, cfg: Config, st: State, key: string, now: int) returns (ops: seq<FsOp>)
    ensures OnlyRemoves(ops) && Logs(st.disk, Get(env, cfg, st, key, now).0.disk, ops)
  {
    var (mem, hit) := GetMemory(st.mem, key, now);
    if hit.Some? {
      ops := [];
      NothingLogged(st.disk);
    } else {
      ops := GetDiskLog(env, cfg, st.(mem := mem), key, now);
    }
  }

  // Removals of the evicted, then the write of the new entry.
  lemma PutLog(env: Env, cfg: Config, d: Disk, key: string, e: Entry) returns (evicted: seq<FsOp>)
    ensures OnlyRemoves(evicted)
    ensures PutDisk(env, cfg, d, key, e) == d ||
      Logs(d, PutDisk(env, cfg, d, key, e), evicted + WriteOps(env.hash(key), env.encode(MetaOf(key, e)), e.body))
  {
    var room, ops := cfg.diskMax - |e.body|, WriteOps(env.hash(key), env.encode(MetaOf(key, e)), e.body);
    evicted := EvictLog(d.(list := Without(d.list, key)), room);
    var d' := MakeRoom(d, key, room);
    LogsAppend(d, d', Stow(env, d', key, e), evicted, ops);
  }

  /* Runs */

  // A finished operation, or one cut short by a crash and followed by New.
  datatype Event =
    | Done(op: Op)
    | Crash(op: Op, n: nat, after: Fs, listing: seq<string>, now: int)

  function Accepted(cfg: Config, op: Op): set<(string, Entry)> {
    if op.PutOp? && Fits(op.ent, cfg.maxObject, cfg.maxBytes) then {(op.key, op.ent.(storedAt := op.now))} else {}
  }

  function Resume(env: Env, cfg: Config, st: State, ev: Event): State {
    match ev
    case Done(op) => Step(env, cfg, st, op)
    case Crash(op, _, after, listing, now) => Load(env, cfg, after, [], listing, now)
  }

  // The directory a crash leaves really is one the operation can leave.
  ghost predicate Possible(env: Env, cfg: Config, st: State, ev: Event) {
    ev.Crash? ==>
      exists ops :: Logs(st.disk, Step(env, cfg, st, ev.op).disk, ops) && CrashedAt(ops, ev.n, st.disk.fs, ev.after)
  }

  function Reach(env: Env, cfg: Config, evs: seq<Event>): State {
    if |evs| == 0 then State([], Disk([], map[], []))
    else Resume(env, cfg, Reach(env, cfg, evs[..|evs| - 1]), evs[|evs| - 1])
  }

  ghost predicate PossibleRun(env: Env, cfg: Config, evs: seq<Event>) {
    forall i :: 0 <= i < |evs| ==> Possible(env, cfg, Reach(env, cfg, evs[..i]), evs[i])
  }

  ghost predicate Weaker(lore: Lore, more: Lore) {
    lore.cands <= more.cands && lore.torn <= more.torn
  }

  lemma MoreLore(env: Env, fs: Fs, lore: Lore, more: Lore)
    requires Known(env, fs, lore) && Weaker(lore, more)
    ensures Known(env, fs, more)
  {
    forall h ensures MetaKnown(env, fs, h, more) && BinKnown(env, fs, h, more) {
      assert MetaKnown(env, fs, h, lore) && BinKnown(env, fs, h, lore);
      if Meta(h) in fs {
        var k, p :| FilesOf(env, fs, h, k, p, lore);
        assert FilesOf(env, fs, h, k, p, more);
      }
    }
  }

  lemma LogsUnique(d: Disk, d': Disk, a: seq<FsOp>, b: seq<FsOp>)
    requires Logs(d, d', a) && Logs(d, d', b)
    ensures a == b
  {
    assert (d.log + a)[|d.log|..] == a && (d.log + b)[|d.log|..] == b;
  }

  lemma CrashedInAppend(a: seq<FsOp>, b: seq<FsOp>, n: nat, fs: Fs, after: Fs)
    requires CrashedAt(a + b, n, fs, after)
    ensures if n < |a| then CrashedAt(a, n, fs, after) else CrashedAt(b, n - |a|, ApplyAll(a, fs), after)
  {
    var ops := a + b;
    if n < |a| {
      assert ops[..n] == a[..n] && ops[n] == a[n];
    } else {
      assert ops[..n] == a + b[..n - |a|];
      ApplyAppend(a, b[..n - |a|], fs);
      if n < |ops| {
        assert ops[n] == b[n - |a|];
      }
    }
  }

  // The next operation is the second rename of a write under hash.
  predicate BetweenRenames(ops: seq<FsOp>, n: nat, hash: string) {
    n < |ops| && ops[n] == Rename(MetaTmp(hash), Meta(hash))
  }

  lemma CrashInPutKnown(env: Env, cfg: Config, d: Disk, key: string, e: Entry, ops: seq<FsOp>, n: nat, after: Fs,
                        lore: Lore)
    requires Ideal(env) && Known(env, d.fs, lore) && (key, e) in lore.cands
    requires BetweenRenames(ops, n, env.hash(key)) ==> key in lore.torn
    requires Logs(d, PutDisk(env, cfg, d, key, e), ops) && CrashedAt(ops, n, d.fs, after)
    ensures Known(env, after, lore)
  {
    var evicted := PutLog(env, cfg, d, key, e);
    if PutDisk(env, cfg, d, key, e) == d {
      NothingLogged(d);
      LogsUnique(d, d, ops, []);
      CrashInRemovals(env, [], n, d.fs, after, lore);
    } else {
      var write := WriteOps(env.hash(key), env.encode(MetaOf(key, e)), e.body);
      LogsUnique(d, PutDisk(env, cfg, d, key, e), ops, evicted + write);
      CrashedInAppend(evicted, write, n, d.fs, after);
      if n < |evicted| {
        CrashInRemovals(env, evicted, n, d.fs, after, lore);
      } else {
        RemovalsLeave(evicted, d.fs);
        SubsetKnown(env, d.fs, ApplyAll(evicted, d.fs), lore);
        assert n - |evicted| == 3 ==> ops[n] == write[3];
        CrashInWriteKnown(env, ApplyAll(evicted, d.fs), key, e, n - |evicted|, after, lore);
      }
    }
  }

  // Wherever the crash falls, every meta and body file is a whole file of some
  // accepted Put of the key its name stands for.
  lemma CrashKnown(env: Env, cfg: Config, st: State, op: Op, ops: seq<FsOp>, n: nat, after: Fs, lore: Lore)
    requires Ideal(env) && Known(env, st.disk.fs, lore) && Accepted(cfg, op) <= lore.cands
    requires Logs(st.disk, Step(env, cfg, st, op).disk, ops) && CrashedAt(ops, n, st.disk.fs, after)
    requires op.PutOp? && BetweenRenames(ops, n, env.hash(op.key)) ==> op.key in lore.torn
    ensures Known(env, after, lore)
  {
    match op
    case PutOp(key, ent, now) =>
      if Fits(ent, cfg.maxObject, cfg.maxBytes) {
        CrashInPutKnown(env, cfg, st.disk, key, ent.(storedAt := now), ops, n, after, lore);
      } else {
        NothingLogged(st.disk);
        LogsUnique(st.disk, st.disk, ops, []);
        CrashInRemovals(env, [], n, st.disk.fs, after, lore);
      }
    case GetOp(key, now) =>
      var removed := GetLog(env, cfg, st, key, now);
      LogsUnique(st.disk, Step(env, cfg, st, op).disk, ops, removed);
      CrashInRemovals(env, removed, n, st.disk.fs, after, lore);
    case RestartOp(listing, now) =>
      var removed := LoadLog(env, cfg, st.disk.fs, st.disk.log, listing, now);
      assert Logs(st.disk, Step(env, cfg, st, op).disk, removed);
      LogsUnique(st.disk, Step(env, cfg, st, op).disk, ops, removed);
      CrashInRemovals(env, removed, n, st.disk.fs, after, lore);
  }

  // Without a crash the step's files are known too.
  lemma StepKnown(env: Env, cfg: Config, st: State, op: Op, lore: Lore)
    requires Ideal(env) && Known(env, st.disk.fs, lore) && Accepted(cfg, op) <= lore.cands
    ensures Known(env, Step(env, cfg, st, op).disk.fs, lore)
  {
    var d := Step(env, cfg, st, op).disk;
    var ops := StepLog(env, cfg, st, op);
    assert ops[..|ops|] == ops;
    CrashKnown(env, cfg, st, op, ops, |ops|, d.fs, lore);
  }

  lemma StepLog(env: Env, cfg: Config, st: State, op: Op) returns (ops: seq<FsOp>)
    ensures Logs(st.disk, Step(env, cfg, st, op).disk, ops)
  {
    match op
    case PutOp(key, ent, now) =>
      ops := [];
      NothingLogged(st.disk);
      if Fits(ent, cfg.maxObject, cfg.maxBytes) {
        var e := ent.(storedAt := now);
        var evicted := PutLog(env, cfg, st.disk, key, e);
        if PutDisk(env, cfg, st.disk, key, e) != st.disk {
          ops := evicted + WriteOps(env.hash(key), env.encode(MetaOf(key, e)), e.body);
        }
      }
    case GetOp(key, now) => ops := GetLog(env, cfg, st, key, now);
    case RestartOp(listing, now) => ops := LoadLog(env, cfg, st.disk.fs, st.disk.log, listing, now);
  }

  lemma {:induction false} LoadAllNamed(env: Env, d: Disk, listing: seq<string>, now: int, lore: Lore)
    requires Ideal(env) && Known(env, d.fs, lore) && NamedFiles(env, d.list)
    ensures var r := LoadAll(env, d, listing, now); NamedFiles(env, r.list) && Known(env, r.fs, lore)
  {
    if |listing| != 0 {
      var rest, h := listing[..|listing| - 1], listing[|listing| - 1];
      LoadAllNamed(env, d, rest, now, lore);
      var d' := LoadAll(env, d, rest, now);
      LoadOneNamed(env, d', h, now, lore);
    }
  }

  lemma LoadOneNamed(env: Env, d: Disk, h: string, now: int, lore: Lore)
    requires Ideal(env) && Known(env, d.fs, lore) && NamedFiles(env, d.list)
    ensures var r := LoadOne(env, d, h, now); NamedFiles(env, r.list) && Known(env, r.fs, lore)
  {
    var read := ReadFiles(env, d.fs, h, now);
    RemovedFiles(d, h);
    if read.Some? {
      var key := ReadsBlend(env, d.fs, h, now, lore);
      WithoutSubset(d.list, read.value.0.key);
    }
    SubsetKnown(env, d.fs, LoadOne(env, d, h, now).fs, lore);
  }

  lemma WithoutSubset<V(!new)>(s: seq<Cell<V>>, key: string)
    ensures forall c :: c in Without(s, key) ==> c in s
  {
    WithoutAt(s, key);
  }

  lemma LoadInv(env: Env, cfg: Config, fs: Fs, log: seq<FsOp>, listing: seq<string>, now: int, lore: Lore)
    requires Ideal(env) && Validated(cfg) && (cfg.diskOn ==> Known(env, fs, lore))
    ensures CrashInv(env, cfg, Load(env, cfg, fs, log, listing, now), lore)
  {
    LoadShape(env, cfg, fs, log, listing, now);
    if cfg.diskOn {
      LoadAllNamed(env, Disk([], fs, log), listing, now, lore);
      var d := LoadAll(env, Disk([], fs, log), listing, now);
      EvictList(d, cfg.diskMax);
      FitIsLongestPrefix(d.list, cfg.diskMax);
      PrefixKeeps(d.list, Evict(d, cfg.diskMax).list);
      var ops := EvictLog(d, cfg.diskMax);
      RemovalsLeave(ops, d.fs);
      SubsetKnown(env, d.fs, Evict(d, cfg.diskMax).fs, lore);
    }
  }

  // A completed Put settles its key: only its own files are left.
  ghost function Settled(lore: Lore, key: string, e: Entry): Lore {
    Lore((set p | p in lore.cands && p.0 != key) + {(key, e)}, lore.torn - {key})
  }

  // A crashed one leaves one more possibility, and possibly a torn key.
  ghost function Unsettled(lore: Lore, accepted: set<(string, Entry)>, torn: set<string>): Lore {
    Lore(lore.cands + accepted, lore.torn + torn)
  }

  lemma AnswersSettled(e: Entry, k: string, lore: Lore, key: string, new0: Entry)
    requires Answers(e, k, lore) && k != key
    ensures Answers(e, k, Settled(lore, key, new0))
  {
    AnswersMore(e, k, lore, Settled(lore, key, new0));
  }

  lemma AnswersMore(e: Entry, key: string, lore: Lore, more: Lore)
    requires Answers(e, key, lore) && (key in lore.torn ==> key in more.torn)
    requires forall p :: (key, p) in lore.cands ==> (key, p) in more.cands
    ensures Answers(e, key, more)
  {
    var p: Entry, q: Entry :|
      (key, p) in lore.cands && (key, q) in lore.cands && |p.body| == |q.body| && CopyOf(e, p.(body := q.body));
    assert (key, p) in more.cands && (key, q) in more.cands;
  }

  lemma FilesSettled(env: Env, fs: Fs, lore: Lore, key: string, e: Entry)
    requires Ideal(env) && Known(env, fs, Unsettled(lore, {(key, e)}, {}))
    requires At(fs, Meta(env.hash(key))) == Some(env.encode(MetaOf(key, e)))
    requires At(fs, Bin(env.hash(key))) == Some(e.body)
    ensures Known(env, fs, Settled(lore, key, e))
  {
    var more, settled := Unsettled(lore, {(key, e)}, {}), Settled(lore, key, e);
    forall h ensures MetaKnown(env, fs, h, settled) && BinKnown(env, fs, h, settled) {
      assert MetaKnown(env, fs, h, more) && BinKnown(env, fs, h, more);
      if h == env.hash(key) {
        assert FilesOf(env, fs, h, key, e, settled);
      } else {
        if Meta(h) in fs {
          var k, p :| FilesOf(env, fs, h, k, p, more);
          assert FilesOf(env, fs, h, k, p, settled);
        }
        if Bin(h) in fs {
          var k, p :| (k, p) in more.cands && h == env.hash(k) && fs[Bin(h)] == p.body;
          assert (k, p) in settled.cands;
        }
      }
    }
  }

  lemma StowedFiles(env: Env, cfg: Config, d: Disk, key: string, e: Entry)
    requires cfg.diskOn && Fits(e, cfg.maxObject, cfg.diskMax)
    ensures var fs := PutDisk(env, cfg, d, key, e).fs;
      At(fs, Meta(env.hash(key))) == Some(env.encode(MetaOf(key, e))) && At(fs, Bin(env.hash(key))) == Some(e.body)
  {
    var d' := MakeRoom(d, key, cfg.diskMax - |e.body|);
    WrittenFiles(d'.fs, env.hash(key), env.encode(MetaOf(key, e)), e.body);
  }

  lemma PutInv(env: Env, cfg: Config, st: State, key: string, ent: Entry, now: int, lore: Lore)
    requires Ideal(env) && Validated(cfg) && CrashInv(env, cfg, st, lore) && Fits(ent, cfg.maxObject, cfg.maxBytes)
    ensures CrashInv(env, cfg, Put(env, cfg, st, key, ent, now).0, Settled(lore, key, ent.(storedAt := now)))
  {
    var e := ent.(storedAt := now);
    PutShape(env, cfg, st, key, ent, now);
    PutMemInv(cfg, st.mem, key, e, lore);
    if cfg.diskOn {
      var more := Unsettled(lore, {(key, e)}, {});
      MoreLore(env, st.disk.fs, lore, more);
      StepKnown(env, cfg, st, PutOp(key, ent, now), more);
      StowedFiles(env, cfg, st.disk, key, e);
      FilesSettled(env, PutDisk(env, cfg, st.disk, key, e).fs, lore, key, e);
      PutDiskShape(env, cfg, st.disk, key, e);
      InsertKeeps(st.disk.list, Cell(key, |e.body|, DiskRef(env.hash(key), e.expiresAt)), cfg.diskMax);
    }
  }

  lemma PutMemInv(cfg: Config, mem: seq<Cell<Entry>>, key: string, e: Entry, lore: Lore)
    requires Distinct(mem) && |e.body| <= cfg.maxBytes && forall c :: c in mem ==> Answers(c.val, c.key, lore)
    ensures forall c :: c in MemPush(cfg, mem, key, e) ==> Answers(c.val, c.key, Settled(lore, key, e))
  {
    var cell := Cell(key, |e.body|, e);
    InsertKeeps(mem, cell, cfg.maxBytes);
    assert e.(body := e.body) == e && CopyOf(e, e) && (key, e) in Settled(lore, key, e).cands;
    forall c | c in MemPush(cfg, mem, key, e) && c != cell ensures Answers(c.val, c.key, Settled(lore, key, e)) {
      AnswersSettled(c.val, c.key, lore, key, e);
    }
  }

  // With crashes anywhere, an answer is still a whole entry of its own key, live,
  // with a body of the length its metadata records.
  lemma GetInv(env: Env, cfg: Config, st: State, key: string, now: int, lore: Lore)
    requires Ideal(env) && Validated(cfg) && CrashInv(env, cfg, st, lore)
    ensures var (st', r) := Get(env, cfg, st, key, now);
      && CrashInv(env, cfg, st', lore)
      && (r.Some? ==> Answers(r.value, key, lore) && Live(r.value.expiresAt, now))
  {
    var (mem, hit) := GetMemory(st.mem, key, now);
    GetMemoryShape(cfg, st.mem, key, now);
    MemoryHitInv(st.mem, key, now, lore);
    if hit.None? {
      GetDiskInv(env, cfg, st.(mem := mem), key, now, lore);
    }
  }

  lemma MemoryHitInv(mem: seq<Cell<Entry>>, key: string, now: int, lore: Lore)
    requires Distinct(mem) && forall d :: d in mem ==> Answers(d.val, d.key, lore)
    ensures var (r, hit) := GetMemory(mem, key, now);
      && (hit.Some? ==> Answers(hit.value, key, lore) && Live(hit.value.expiresAt, now))
      && forall d :: d in r ==> Answers(d.val, d.key, lore)
  {
    var f := Find(mem, key);
    var (r, hit) := GetMemory(mem, key, now);
    GetMemoryCases(mem, key, now);
    if hit.Some? {
      SameBlend(f.value.val, hit.value, key, lore);
      TouchKeeps(mem, f.value, Hit(f.value));
    } else if f.Some? {
      WithoutKeeps(mem, key);
    }
  }

  lemma SameBlend(e: Entry, e': Entry, key: string, lore: Lore)
    requires Answers(e, key, lore) && e' == e.(hits := e'.hits)
    ensures Answers(e', key, lore)
  {
    var p: Entry, q: Entry :|
      (key, p) in lore.cands && (key, q) in lore.cands && |p.body| == |q.body| && CopyOf(e, p.(body := q.body));
    assert CopyOf(e', p.(body := q.body));
    if key !in lore.torn {
      var r :| (key, r) in lore.cands && CopyOf(e, r);
      assert CopyOf(e', r);
    }
  }

  lemma GetDiskInv(env: Env, cfg: Config, st: State, key: string, now: int, lore: Lore)
    requires Ideal(env) && Validated(cfg) && CrashInv(env, cfg, st, lore)
    ensures var (st', r) := GetDisk(env, cfg, st, key, now);
      && CrashInv(env, cfg, st', lore)
      && (r.Some? ==> Answers(r.value, key, lore) && Live(r.value.expiresAt, now))
  {
    GetDiskShape(env, cfg, st, key, now);
    var ops := GetDiskLog(env, cfg, st, key, now);
    var f := Find(st.disk.list, key);
    if cfg.diskOn && f.Some? {
      RemovalsLeave(ops, st.disk.fs);
      SubsetKnown(env, st.disk.fs, GetDisk(env, cfg, st, key, now).0.disk.fs, lore);
      WithoutSubset(st.disk.list, key);
      DropList(st.disk, key);
      var read := ReadFiles(env, st.disk.fs, f.value.val.hash, now);
      if read.Some? {
        var k := ReadsBlend(env, st.disk.fs, f.value.val.hash, now, lore);
        assert k == key;
        var e := EntryOf(read.value.0, read.value.1);
        if Fits(e, cfg.maxObject, cfg.maxBytes) {
          MemPushShape(cfg, st.mem, key, e);
        }
      }
    }
  }

  /* What a run leaves possible */

  // The crash cut the write of its key between the two renames.
  ghost predicate Tears(env: Env, cfg: Config, st: State, ev: Event) {
    && ev.Crash? && ev.op.PutOp?
    && exists ops ::
         Logs(st.disk, Step(env, cfg, st, ev.op).disk, ops) && BetweenRenames(ops, ev.n, env.hash(ev.op.key))
  }

  ghost function LoreAfter(env: Env, cfg: Config, st: State, ev: Event, lore: Lore): Lore {
    match ev
    case Done(op) =>
      if op.PutOp? && Fits(op.ent, cfg.maxObject, cfg.maxBytes)
      then Settled(lore, op.key, op.ent.(storedAt := op.now)) else lore
    case Crash(op, _, _, _, _) =>
      Unsettled(lore, Accepted(cfg, op), if Tears(env, cfg, st, ev) then {op.key} else {})
  }

  ghost function LoreOf(env: Env, cfg: Config, evs: seq<Event>): Lore {
    if |evs| == 0 then Lore({}, {})
    else LoreAfter(env, cfg, Reach(env, cfg, evs[..|evs| - 1]), evs[|evs| - 1], LoreOf(env, cfg, evs[..|evs| - 1]))
  }

  lemma {:induction false} CrashRunKeeps(env: Env, cfg: Config, evs: seq<Event>)
    requires Ideal(env) && Validated(cfg) && PossibleRun(env, cfg, evs)
    ensures CrashInv(env, cfg, Reach(env, cfg, evs), LoreOf(env, cfg, evs))
  {
    if |evs| != 0 {
      var before, ev := evs[..|evs| - 1], evs[|evs| - 1];
      assert forall i :: 0 <= i < |before| ==> before[..i] == evs[..i];
      CrashRunKeeps(env, cfg, before);
      assert Possible(env, cfg, Reach(env, cfg, before), ev);
      ResumeKeeps(env, cfg, Reach(env, cfg, before), ev, LoreOf(env, cfg, before));
    }
  }

  lemma ResumeKeeps(env: Env, cfg: Config, st: State, ev: Event, lore: Lore)
    requires Ideal(env) && Validated(cfg) && CrashInv(env, cfg, st, lore) && Possible(env, cfg, st, ev)
    ensures CrashInv(env, cfg, Resume(env, cfg, st, ev), LoreAfter(env, cfg, st, ev, lore))
  {
    match ev
    case Done(op) =>
      match op {
        case PutOp(key, ent, now) =>
          if Fits(ent, cfg.maxObject, cfg.maxBytes) {
            PutInv(env, cfg, st, key, ent, now, lore);
          }
        case GetOp(key, now) => GetInv(env, cfg, st, key, now, lore);
        case RestartOp(listing, now) => LoadInv(env, cfg, st.disk.fs, st.disk.log, listing, now, lore);
      }
    case Crash(op, n, after, listing, now) =>
      var more := LoreAfter(env, cfg, st, ev, lore);
      if cfg.diskOn {
        var ops :| Logs(st.disk, Step(env, cfg, st, op).disk, ops) && CrashedAt(ops, n, st.disk.fs, after);
        MoreLore(env, st.disk.fs, lore, more);
        CrashKnown(env, cfg, st, op, ops, n, after, more);
      }
      LoadInv(env, cfg, after, [], listing, now, more);
  }

  // Read off the run: the last completed Put of the key and the crashed ones since.
  function Candidates(cfg: Config, evs: seq<Event>, key: string): set<Entry> {
    if |evs| == 0 then {}
    else
      var ev, rest := evs[|evs| - 1], Candidates(cfg, evs[..|evs| - 1], key);
      var op := ev.op;
      if !op.PutOp? || op.key != key || !Fits(op.ent, cfg.maxObject, cfg.maxBytes) then rest
      else if ev.Done? then {op.ent.(storedAt := op.now)}
      else rest + {op.ent.(storedAt := op.now)}
  }

  // A crash fell between the key's two renames, and no Put of it has completed since.
  ghost predicate TornIn(env: Env, cfg: Config, evs: seq<Event>, key: string) {
    |evs| > 0 &&
      var before, ev := evs[..|evs| - 1], evs[|evs| - 1];
      && !(ev.Done? && ev.op.PutOp? && ev.op.key == key && Fits(ev.op.ent, cfg.maxObject, cfg.maxBytes))
      && (|| TornIn(env, cfg, before, key)
          || (ev.op.PutOp? && ev.op.key == key && Tears(env, cfg, Reach(env, cfg, before), ev)))
  }

  lemma {:induction false} LoreIs(env: Env, cfg: Config, evs: seq<Event>, key: string)
    ensures forall p :: (key, p) in LoreOf(env, cfg, evs).cands <==> p in Candidates(cfg, evs, key)
    ensures key in LoreOf(env, cfg, evs).torn <==> TornIn(env, cfg, evs, key)
  {
    if |evs| != 0 {
      LoreIs(env, cfg, evs[..|evs| - 1], key);
    }
  }

  // Over every run with crashes at any file operation: an answer is never torn in
  // itself, never another key's and never older than the last completed Put of its
  // key.  It has the metadata of one of the key's candidates and a body of the same
  // length of another; it is an exact copy of one candidate unless a crash fell
  // between the renames of this key since its last completed Put.
  lemma AnswersSurviveCrashes(env: Env, cfg: Config, evs: seq<Event>, key: string, now: int)
    requires Ideal(env) && Validated(cfg) && PossibleRun(env, cfg, evs)
    ensures var answer, cands := Get(env, cfg, Reach(env, cfg, evs), key, now).1, Candidates(cfg, evs, key);
      answer.Some? ==>
        && Live(answer.value.expiresAt, now)
        && (exists p, q :: p in cands && q in cands && |p.body| == |q.body| && CopyOf(answer.value, p.(body := q.body)))
        && (!TornIn(env, cfg, evs, key) ==> exists p :: p in cands && CopyOf(answer.value, p))
  {
    var lore := LoreOf(env, cfg, evs);
    var answer := Get(env, cfg, Reach(env, cfg, evs), key, now).1;
    assert answer.Some? ==> Answers(answer.value, key, lore) && Live(answer.value.expiresAt, now) by {
      CrashRunKeeps(env, cfg, evs);
      GetInv(env, cfg, Reach(env, cfg, evs), key, now, lore);
    }
    if answer.Some? {
      LoreIs(env, cfg, evs, key);
      FromCandidates(answer.value, key, lore, Candidates(cfg, evs, key));
    }
  }

  lemma FromCandidates(e: Entry, key: string, lore: Lore, cands: set<Entry>)
    requires Answers(e, key, lore) && forall p :: (key, p) in lore.cands <==> p in cands
    ensures exists p, q :: p in cands && q in cands && |p.body| == |q.body| && CopyOf(e, p.(body := q.body))
    ensures key !in lore.torn ==> exists p :: p in cands && CopyOf(e, p)
  {
    var p: Entry, q: Entry :|
      (key, p) in lore.cands && (key, q) in lore.cands && |p.body| == |q.body| && CopyOf(e, p.(body := q.body));
    assert p in cands && q in cands;
  }

  // With no crash of a Put of the key since its last completed one, that one alone is
  // a candidate, so the answer is a copy of it.
  lemma {:induction false} LastPutAlone(cfg: Config, evs: seq<Event>, key: string, i: nat)
    requires i < |evs| && evs[i].Done? && evs[i].op.PutOp? && evs[i].op.key == key
    requires Fits(evs[i].op.ent, cfg.maxObject, cfg.maxBytes)
    requires forall j :: i < j < |evs| ==> !(evs[j].op.PutOp? && evs[j].op.key == key)
    ensures Candidates(cfg, evs, key) == {evs[i].op.ent.(storedAt := evs[i].op.now)}
    decreases |evs|
  {
    if i < |evs| - 1 {
      LastPutAlone(cfg, evs[..|evs| - 1], key, i);
    }
  }
}
