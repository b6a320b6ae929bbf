// The files of the cache directory that no entry accounts for: none in runs without
// crashes, any number of them with crashes.
module ImgOrphans {
  import opened Prelude
  import opened Recency
  import opened Files
  import opened ImgModel
  import opened ImgProofs
  import opened ImgRuns
  import opened ImgCrash
  import opened ImgSurvival

  /* Without crashes */

  // Every file, but for those of the hashes in aside, is one of the two of an indexed
  // entry.
  ghost predicate NoStray(d: Disk, aside: set<string>) {
    forall name :: name in d.fs && name.hash !in aside ==> Indexed(d, name)
  }

  ghost predicate Indexed(d: Disk, name: Name) {
    (name.Meta? || name.Bin?) && exists c :: c in d.list && c.val.hash == name.hash
  }

  lemma ForgetStray(d: Disk, list: seq<Cell<DiskRef>>, hash: string, aside: set<string>)
    requires NoStray(d, aside) && hash != ""
    requires forall c :: c in d.list && c.val.hash != hash ==> c in list
    ensures NoStray(RemoveFiles(d.(list := list), hash), aside)
  {
    var r := RemoveFiles(d.(list := list), hash);
    RemovedFiles(d.(list := list), hash);
    forall name | name in r.fs && name.hash !in aside ensures Indexed(r, name) {
      assert name in d.fs && name.hash != hash;
      var c :| c in d.list && c.val.hash == name.hash;
      assert c in r.list;
    }
  }

  lemma {:induction false} EvictStray(env: Env, d: Disk, room: int, aside: set<string>)
    requires Ideal(env) && NamedFiles(env, d.list) && NoStray(d, aside)
    ensures NoStray(Evict(d, room), aside)
    decreases |d.list|
  {
    var n := |d.list|;
    if n != 0 && Total(d.list) > room {
      var last, front := d.list[n - 1], d.list[..n - 1];
      assert last in d.list && d.list == front + [last];
      ForgetStray(d, front, last.val.hash, aside);
      EvictStray(env, RemoveFiles(d.(list := front), last.val.hash), room, aside);
    }
  }

  lemma DropStray(env: Env, d: Disk, key: string)
    requires Ideal(env) && Distinct(d.list) && NamedFiles(env, d.list) && NoStray(d, {})
    ensures NoStray(Drop(d, key), {})
  {
    var f := Find(d.list, key);
    if f.Some? {
      WithoutKeeps(d.list, key);
      ForgetStray(d, Without(d.list, key), f.value.val.hash, {});
    }
  }

  lemma WithoutStray(env: Env, d: Disk, key: string)
    requires Ideal(env) && Distinct(d.list) && NamedFiles(env, d.list) && NoStray(d, {})
    ensures NoStray(d.(list := Without(d.list, key)), {env.hash(key)})
    ensures NamedFiles(env, Without(d.list, key))
  {
    var r := d.(list := Without(d.list, key));
    WithoutKeeps(d.list, key);
    forall name | name in d.fs && name.hash != env.hash(key) ensures Indexed(r, name) {
      var c :| c in d.list && c.val.hash == name.hash;
      assert c in r.list;
    }
  }

  lemma StowStray(env: Env, d: Disk, key: string, e: Entry)
    requires NoStray(d, {env.hash(key)}) && Without(d.list, key) == d.list
    ensures NoStray(Stow(env, d, key, e), {})
  {
    var r := Stow(env, d, key, e);
    WrittenFiles(d.fs, env.hash(key), env.encode(MetaOf(key, e)), e.body);
    assert r.list == [Cell(key, |e.body|, DiskRef(env.hash(key), e.expiresAt))] + d.list;
    forall name | name in r.fs ensures Indexed(r, name) {
      if name.hash == env.hash(key) {
        assert r.list[0] in r.list;
      } else {
        var c :| c in d.list && c.val.hash == name.hash;
        assert c in r.list;
      }
    }
  }

  lemma PutDiskStray(env: Env, cfg: Config, d: Disk, key: string, e: Entry)
    requires Ideal(env) && Distinct(d.list) && NamedFiles(env, d.list) && NoStray(d, {})
    ensures NoStray(PutDisk(env, cfg, d, key, e), {})
  {
    if cfg.diskOn && Fits(e, cfg.maxObject, cfg.diskMax) {
      var room := cfg.diskMax - |e.body|;
      WithoutStray(env, d, key);
      EvictStray(env, d.(list := Without(d.list, key)), room, {env.hash(key)});
      RoomyShape(d, key, room);
      StowStray(env, MakeRoom(d, key, room), key, e);
      assert PutDisk(env, cfg, d, key, e) == Stow(env, MakeRoom(d, key, room), key, e);
    }
  }

  lemma TouchStray(d: Disk, c: Cell<DiskRef>)
    requires Distinct(d.list) && c in d.list && NoStray(d, {})
    ensures NoStray(d.(list := Touch(d.list, c)), {})
  {
    var moved := d.(list := Touch(d.list, c));
    TouchKeeps(d.list, c, c);
    forall name | name in moved.fs ensures Indexed(moved, name) {
      assert Indexed(d, name);
      var b :| b in d.list && b.val.hash == name.hash;
      FindUnique(d.list, b);
      FindUnique(d.list, c);
      assert b in moved.list;
    }
  }

  lemma GetDiskStray(env: Env, cfg: Config, st: State, key: string, now: int)
    requires Ideal(env) && cfg.diskOn && Distinct(st.disk.list) && NamedFiles(env, st.disk.list) && NoStray(st.disk, {})
    ensures NoStray(GetDisk(env, cfg, st, key, now).0.disk, {})
  {
    var f, d' := Find(st.disk.list, key), GetDisk(env, cfg, st, key, now).0.disk;
    if f.Some? {
      DropStray(env, st.disk, key);
      TouchStray(st.disk, f.value);
      assert d' == Drop(st.disk, key) || d' == st.disk.(list := Touch(st.disk.list, f.value));
    }
  }

  lemma GetStray(env: Env, cfg: Config, st: State, key: string, now: int, latest: Latest)
    requires Ideal(env) && Validated(cfg) && cfg.diskOn && Inv(env, cfg, st, latest) && NoStray(st.disk, {})
    ensures NoStray(Get(env, cfg, st, key, now).0.disk, {})
  {
    var (mem, hit) := GetMemory(st.mem, key, now);
    if hit.None? {
      GetDiskStray(env, cfg, st.(mem := mem), key, now);
    }
  }

  lemma LoadedName(env: Env, fs: Fs, listing: seq<string>, d: Disk, now: int, name: Name)
    requires Ideal(env) && ReadSoFar(env, fs, listing, d, now) && name in d.fs && (name.Meta? || name.Bin?)
    requires name.hash in listing && name.hash != ""
    ensures Indexed(d, name)
  {
    assert ImgCrash.At(d.fs, name).Some?;
    assert CellOf(env, fs, name.hash, now) in d.list;
  }

  // Only files that belong to some meta file.
  ghost predicate Listable(fs: Fs) {
    forall name :: name in fs ==> (name.Meta? || name.Bin?) && Meta(name.hash) in fs && name.hash != ""
  }

  lemma ReadStray(env: Env, fs: Fs, listing: seq<string>, d: Disk, now: int)
    requires Ideal(env) && ReadSoFar(env, fs, listing, d, now) && Listable(fs) && IsListing(fs, listing)
    ensures NoStray(d, {})
  {
    forall name | name in d.fs ensures Indexed(d, name) {
      assert ImgCrash.At(d.fs, name).Some?;
      LoadedName(env, fs, listing, d, now, name);
    }
  }

  lemma LoadStray(env: Env, cfg: Config, st: State, listing: seq<string>, now: int, latest: Latest)
    requires Ideal(env) && Validated(cfg) && cfg.diskOn && Inv(env, cfg, st, latest) && NoStray(st.disk, {})
    requires IsListing(st.disk.fs, listing)
    ensures NoStray(Load(env, cfg, st.disk.fs, [], listing, now).disk, {})
  {
    forall name | name in st.disk.fs
      ensures (name.Meta? || name.Bin?) && Meta(name.hash) in st.disk.fs && name.hash != ""
    {
      ListedName(env, cfg, st, latest, name);
    }
    OldMetasFit(env, cfg, st, latest, st.disk.fs, now);
    LoadIsRead(env, cfg, st.disk.fs, listing, now, st.disk.list);
    ReadStray(env, st.disk.fs, listing, Load(env, cfg, st.disk.fs, [], listing, now).disk, now);
  }

  lemma ListedName(env: Env, cfg: Config, st: State, latest: Latest, name: Name)
    requires Ideal(env) && cfg.diskOn && Inv(env, cfg, st, latest) && NoStray(st.disk, {}) && name in st.disk.fs
    ensures (name.Meta? || name.Bin?) && Meta(name.hash) in st.disk.fs && name.hash != ""
  {
    assert Indexed(st.disk, name);
    var c :| c in st.disk.list && c.val.hash == name.hash;
    assert Holds(env, st.disk.fs, c.key, latest[c.key]);
  }

  lemma LogIsIrrelevant(env: Env, cfg: Config, fs: Fs, log: seq<FsOp>, listing: seq<string>, now: int)
    ensures var a, b := Load(env, cfg, fs, log, listing, now).disk, Load(env, cfg, fs, [], listing, now).disk;
      a.list == b.list && a.fs == b.fs
  {
    LoadAllLogless(env, fs, log, listing, now);
    if cfg.diskOn && cfg.diskMax > 0 {
      var a, b := LoadAll(env, Disk([], fs, log), listing, now), LoadAll(env, Disk([], fs, []), listing, now);
      EvictLogless(a, b, cfg.diskMax);
    }
  }

  lemma {:induction false} LoadAllLogless(env: Env, fs: Fs, log: seq<FsOp>, listing: seq<string>, now: int)
    ensures var a, b := LoadAll(env, Disk([], fs, log), listing, now), LoadAll(env, Disk([], fs, []), listing, now);
      a.list == b.list && a.fs == b.fs
  {
    if |listing| != 0 {
      LoadAllLogless(env, fs, log, listing[..|listing| - 1], now);
    }
  }

  lemma {:induction false} EvictLogless(a: Disk, b: Disk, room: int)
    requires a.list == b.list && a.fs == b.fs
    ensures Evict(a, room).list == Evict(b, room).list && Evict(a, room).fs == Evict(b, room).fs
    decreases |a.list|
  {
    var n := |a.list|;
    if n != 0 && Total(a.list) > room {
      var hash := a.list[n - 1].val.hash;
      var a', b' := a.(list := a.list[..n - 1]), b.(list := b.list[..n - 1]);
      EvictLogless(RemoveFiles(a', hash), RemoveFiles(b', hash), room);
    }
  }

  // In every run without crashes the directory holds nothing but the two files of
  // each indexed entry, so its bodies take no more than the budget.
  lemma {:induction false} CleanRunsLeaveNoStray(env: Env, cfg: Config, ops: seq<Op>)
    requires Ideal(env) && Validated(cfg) && cfg.diskOn && RealListings(env, cfg, ops)
    ensures var d := After(env, cfg, ops).disk;
      NoStray(d, {}) && Total(d.list) <= cfg.diskMax
  {
    var latest := ImgRuns.RunKeeps(env, cfg, ops);
    if |ops| != 0 {
      var before, op := ops[..|ops| - 1], ops[|ops| - 1];
      assert forall i :: 0 <= i < |before| ==> before[..i] == ops[..i];
      CleanRunsLeaveNoStray(env, cfg, before);
      var st := After(env, cfg, before);
      var earlier := ImgRuns.RunKeeps(env, cfg, before);
      StepStray(env, cfg, st, op, earlier);
    }
  }

  lemma StepStray(env: Env, cfg: Config, st: State, op: Op, latest: Latest)
    requires Ideal(env) && Validated(cfg) && cfg.diskOn && Inv(env, cfg, st, latest) && NoStray(st.disk, {})
    requires op.RestartOp? ==> IsListing(st.disk.fs, op.listing)
    ensures NoStray(Step(env, cfg, st, op).disk, {})
  {
    match op
    case PutOp(key, ent, now) => PutDiskStray(env, cfg, st.disk, key, ent.(storedAt := now));
    case GetOp(key, now) => GetStray(env, cfg, st, key, now, latest);
    case RestartOp(listing, now) =>
      LoadStray(env, cfg, st, listing, now, latest);
      LogIsIrrelevant(env, cfg, st.disk.fs, st.disk.log, listing, now);
  }

  /* With crashes */

  // The directory after a write into fs that was cut between its two renames.
  function Torn(env: Env, fs: Fs, key: string, e: Entry): Fs {
    ApplyAll(WriteOps(env.hash(key), env.encode(MetaOf(key, e)), e.body)[..3], fs)
  }

  function TornAll(env: Env, keys: seq<string>, e: Entry): Fs {
    if |keys| == 0 then map[] else Torn(env, TornAll(env, keys[..|keys| - 1], e), keys[|keys| - 1], e)
  }

  // One such crash per key; no meta file is ever completed, so no restart lists any.
  function TornRun(env: Env, keys: seq<string>, ent: Entry, now: int): seq<Event> {
    if |keys| == 0 then []
    else
      var fs := TornAll(env, keys, ent.(storedAt := now));
      TornRun(env, keys[..|keys| - 1], ent, now) + [Crash(PutOp(keys[|keys| - 1], ent, now), 3, fs, [], now)]
  }

  ghost predicate Orphans(env: Env, fs: Fs, keys: seq<string>, body: Bytes) {
    && (forall h :: Meta(h) !in fs)
    && forall i :: 0 <= i < |keys| ==> ImgCrash.At(fs, Bin(env.hash(keys[i]))) == Some(body)
  }

  lemma TornIs(env: Env, fs: Fs, key: string, e: Entry)
    ensures CrashedAt(WriteOps(env.hash(key), env.encode(MetaOf(key, e)), e.body), 3, fs, Torn(env, fs, key, e))
    ensures ImgCrash.At(Torn(env, fs, key, e), Bin(env.hash(key))) == Some(e.body)
    ensures forall h :: ImgCrash.At(Torn(env, fs, key, e), Meta(h)) == ImgCrash.At(fs, Meta(h))
    ensures forall h :: h != env.hash(key) ==> ImgCrash.At(Torn(env, fs, key, e), Bin(h)) == ImgCrash.At(fs, Bin(h))
  {
    var hash, after := env.hash(key), Torn(env, fs, key, e);
    CrashLeaves(fs, hash, env.encode(MetaOf(key, e)), e.body, 3, after);
    forall h | h != hash
      ensures ImgCrash.At(after, Bin(h)) == ImgCrash.At(fs, Bin(h))
      ensures ImgCrash.At(after, Meta(h)) == ImgCrash.At(fs, Meta(h))
    {
      assert Bin(h).hash != hash && Meta(h).hash != hash;
    }
  }

  lemma {:induction false} TornAllIs(env: Env, keys: seq<string>, e: Entry)
    ensures Orphans(env, TornAll(env, keys, e), keys, e.body)
  {
    if |keys| != 0 {
      var rest, key := keys[..|keys| - 1], keys[|keys| - 1];
      TornAllIs(env, rest, e);
      TornIs(env, TornAll(env, rest, e), key, e);
      forall i | 0 <= i < |keys| ensures ImgCrash.At(TornAll(env, keys, e), Bin(env.hash(keys[i]))) == Some(e.body) {
        assert i < |rest| ==> keys[i] == rest[i];
      }
    }
  }

  // The first Put of an empty cache writes and does nothing else.
  lemma FirstPutLogs(env: Env, cfg: Config, fs: Fs, key: string, ent: Entry, now: int)
    requires Validated(cfg) && cfg.diskOn && Fits(ent, cfg.maxObject, cfg.maxBytes)
    ensures var e, d := ent.(storedAt := now), Disk([], fs, []);
      Logs(d, Step(env, cfg, State([], d), PutOp(key, ent, now)).disk,
           WriteOps(env.hash(key), env.encode(MetaOf(key, e)), e.body))
  {
    var d := Disk([], fs, []);
    assert Without(d.list, key) == d.list;
    assert Evict(d, cfg.diskMax - |ent.body|) == d;
  }

  // Crashes can leave any number of bodies that no entry accounts for and no restart
  // removes, whatever the budget: for every list of keys this run ends with an empty
  // index and a body file for each of them.
  lemma {:induction false} OrphansPileUp(env: Env, cfg: Config, keys: seq<string>, ent: Entry, now: int)
    requires Validated(cfg) && cfg.diskOn && Fits(ent, cfg.maxObject, cfg.maxBytes)
    ensures var evs := TornRun(env, keys, ent, now);
      var st := Reach(env, cfg, evs);
      && PossibleRun(env, cfg, evs) && ListedRun(env, cfg, evs)
      && st == State([], Disk([], TornAll(env, keys, ent.(storedAt := now)), []))
      && Orphans(env, st.disk.fs, keys, ent.body)
  {
    var e := ent.(storedAt := now);
    TornAllIs(env, keys, e);
    if |keys| != 0 {
      var rest, key := keys[..|keys| - 1], keys[|keys| - 1];
      OrphansPileUp(env, cfg, rest, ent, now);
      TornOnce(env, cfg, TornRun(env, rest, ent, now), TornAll(env, rest, e), key, ent, now);
    }
  }

  lemma TornOnce(env: Env, cfg: Config, evs: seq<Event>, fs: Fs, key: string, ent: Entry, now: int)
    requires Validated(cfg) && cfg.diskOn && Fits(ent, cfg.maxObject, cfg.maxBytes) && forall h :: Meta(h) !in fs
    requires PossibleRun(env, cfg, evs) && ListedRun(env, cfg, evs)
    requires Reach(env, cfg, evs) == State([], Disk([], fs, []))
    ensures var after := Torn(env, fs, key, ent.(storedAt := now));
      var run := evs + [Crash(PutOp(key, ent, now), 3, after, [], now)];
      && PossibleRun(env, cfg, run) && ListedRun(env, cfg, run)
      && Reach(env, cfg, run) == State([], Disk([], after, []))
  {
    var e := ent.(storedAt := now);
    var after := Torn(env, fs, key, e);
    var crash := Crash(PutOp(key, ent, now), 3, after, [], now);
    var run := evs + [crash];
    TornIs(env, fs, key, e);
    FirstPutLogs(env, cfg, fs, key, ent, now);
    assert run[..|evs|] == evs && forall i :: 0 <= i < |evs| ==> run[..i] == evs[..i];
    assert Possible(env, cfg, Reach(env, cfg, evs), crash);
    assert forall h :: ImgCrash.At(after, Meta(h)) == None;
    assert Lists(env, Reach(env, cfg, evs), crash);
    assert Load(env, cfg, after, [], [], now) == State([], Disk([], after, []));
  }

  /* An entry beside an orphan */

  // key is stored, then a Put of other is cut between its renames.
  function StoredThenTorn(env: Env, key: string, other: string, ent: Entry, now: int): seq<Event> {
    var after := Torn(env, Stored(env, key, ent.(storedAt := now)), other, ent.(storedAt := now));
    [Done(PutOp(key, ent, now)), Crash(PutOp(other, ent, now), 3, after, [env.hash(key)], now)]
  }

  function Stored(env: Env, key: string, e: Entry): Fs {
    map[Bin(env.hash(key)) := e.body, Meta(env.hash(key)) := env.encode(MetaOf(key, e))]
  }

  function StoredCell(env: Env, key: string, e: Entry): Cell<DiskRef> {
    Cell(key, |e.body|, DiskRef(env.hash(key), e.expiresAt))
  }

  lemma FirstPut(env: Env, cfg: Config, key: string, ent: Entry, now: int)
    requires Validated(cfg) && cfg.diskOn && Fits(ent, cfg.maxObject, cfg.maxBytes)
    ensures var e := ent.(storedAt := now);
      var d := Put(env, cfg, State([], Disk([], map[], [])), key, ent, now).0.disk;
      d.list == [StoredCell(env, key, e)] && d.fs == Stored(env, key, e)
  {
    var e, d0 := ent.(storedAt := now), Disk([], map[], []);
    WrittenFiles(d0.fs, env.hash(key), env.encode(MetaOf(key, e)), e.body);
    assert Without(d0.list, key) == d0.list && Evict(d0, cfg.diskMax - |e.body|) == d0;
  }

  // The second Put keeps the first entry and would write its own files next.
  lemma SecondPut(env: Env, cfg: Config, st: State, key: string, other: string, ent: Entry, now: int)
    requires Validated(cfg) && cfg.diskOn && Fits(ent, cfg.maxObject, cfg.maxBytes) && 2 * |ent.body| <= cfg.diskMax
    requires key != other && st.disk.list == [StoredCell(env, key, ent.(storedAt := now))]
    ensures var e, d := ent.(storedAt := now), Step(env, cfg, st, PutOp(other, ent, now)).disk;
      && d.list == [StoredCell(env, other, e), StoredCell(env, key, e)]
      && Logs(st.disk, d, WriteOps(env.hash(other), env.encode(MetaOf(other, e)), e.body))
  {
    var e, list := ent.(storedAt := now), st.disk.list;
    assert list[1..] == [] && Total(list) == |ent.body|;
    assert Without(list, other) == list;
    assert st.disk.(list := list) == st.disk && Evict(st.disk, cfg.diskMax - |e.body|) == st.disk;
  }

  lemma StoredFirst(env: Env, cfg: Config, key: string, other: string, ent: Entry, now: int)
    requires Validated(cfg) && cfg.diskOn && Fits(ent, cfg.maxObject, cfg.maxBytes)
    ensures var evs, e := StoredThenTorn(env, key, other, ent, now), ent.(storedAt := now);
      var d := Reach(env, cfg, [evs[0]]).disk;
      d.list == [StoredCell(env, key, e)] && d.fs == Stored(env, key, e)
  {
    var evs := StoredThenTorn(env, key, other, ent, now);
    FirstPut(env, cfg, key, ent, now);
    assert [evs[0]][..0] == [];
    assert Reach(env, cfg, [evs[0]]) == Put(env, cfg, State([], Disk([], map[], [])), key, ent, now).0;
  }

  lemma TornSecond(env: Env, cfg: Config, st: State, key: string, other: string, ent: Entry, now: int)
    requires Validated(cfg) && cfg.diskOn && Fits(ent, cfg.maxObject, cfg.maxBytes) && 2 * |ent.body| <= cfg.diskMax
    requires key != other && st.disk.list == [StoredCell(env, key, ent.(storedAt := now))]
    requires st.disk.fs == Stored(env, key, ent.(storedAt := now))
    ensures var crash := StoredThenTorn(env, key, other, ent, now)[1];
      && Possible(env, cfg, st, crash) && Lists(env, st, crash)
      && WouldKeep(env, cfg, st, crash.op, key)
      && ExpiryOn(Step(env, cfg, st, crash.op).disk, key) == ent.expiresAt
  {
    var crash, e := StoredThenTorn(env, key, other, ent, now)[1], ent.(storedAt := now);
    SecondPut(env, cfg, st, key, other, ent, now);
    TornIs(env, st.disk.fs, other, e);
    TornListing(env, key, other, e);
    var d := Step(env, cfg, st, crash.op).disk;
    var c := StoredCell(env, key, e);
    assert d.list[1] == c && d.list[0].key != key;
    assert c in d.list && Find(d.list, key) == Some(c);
  }

  lemma TwoEvents(env: Env, cfg: Config, evs: seq<Event>)
    requires |evs| == 2 && evs[0].Done? && evs[0].op.PutOp?
    requires Possible(env, cfg, Reach(env, cfg, evs[..1]), evs[1]) && Lists(env, Reach(env, cfg, evs[..1]), evs[1])
    ensures PossibleRun(env, cfg, evs) && ListedRun(env, cfg, evs)
  {
  }

  lemma StoredThenTornRuns(env: Env, cfg: Config, key: string, other: string, ent: Entry, now: int)
    requires Validated(cfg) && cfg.diskOn && key != other
    requires Fits(ent, cfg.maxObject, cfg.maxBytes) && 2 * |ent.body| <= cfg.diskMax
    ensures var evs := StoredThenTorn(env, key, other, ent, now);
      var st := Reach(env, cfg, evs[..1]);
      && PossibleRun(env, cfg, evs) && ListedRun(env, cfg, evs)
      && WouldKeep(env, cfg, st, evs[1].op, key)
      && ExpiryOn(Step(env, cfg, st, evs[1].op).disk, key) == ent.expiresAt
  {
    var evs := StoredThenTorn(env, key, other, ent, now);
    assert evs[..1] == [evs[0]];
    StoredFirst(env, cfg, key, other, ent, now);
    TornSecond(env, cfg, Reach(env, cfg, evs[..1]), key, other, ent, now);
    TwoEvents(env, cfg, evs);
  }

  // The entry is answered after the crash.
  lemma EntrySurvivesBesideOrphan(env: Env, cfg: Config, key: string, other: string, ent: Entry, now: int)
    requires Ideal(env) && Validated(cfg) && cfg.diskOn && key != "" && key != other
    requires Fits(ent, cfg.maxObject, cfg.maxBytes) && 2 * |ent.body| <= cfg.diskMax && Live(ent.expiresAt, now)
    ensures var evs := StoredThenTorn(env, key, other, ent, now);
      var answer := Get(env, cfg, Reach(env, cfg, evs), key, now).1;
      && PossibleRun(env, cfg, evs) && ListedRun(env, cfg, evs)
      && answer.Some? && CopyOf(answer.value, ent.(storedAt := now))
  {
    var evs := StoredThenTorn(env, key, other, ent, now);
    StoredThenTornRuns(env, cfg, key, other, ent, now);
    assert evs == evs[..1] + [evs[1]];
    LastPutSurvives(env, cfg, evs[..1], evs[1], 0, now);
  }

  lemma TornListing(env: Env, key: string, other: string, e: Entry)
    ensures IsListing(Torn(env, Stored(env, key, e), other, e), [env.hash(key)])
  {
    var fs := Stored(env, key, e);
    TornIs(env, fs, other, e);
    forall h ensures Meta(h) in Torn(env, fs, other, e) <==> h == env.hash(key) {
      assert ImgCrash.At(Torn(env, fs, other, e), Meta(h)) == ImgCrash.At(fs, Meta(h));
    }
  }
}
