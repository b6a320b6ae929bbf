// A Put whose disk write fails: what it leaves, and when a restart brings the entry
// before it back.
module ImgFaults {
  import opened Prelude
  import opened Recency
  import opened Files
  import opened ImgModel
  import opened ImgProofs
  import opened ImgRuns
  import opened ImgCrash
  import opened ImgSurvival

  lemma PartialLeaves(name: Name, data: Bytes, left: Option<nat>, fs: Fs)
    ensures forall other: Name :: other != name ==>
      ImgCrash.At(ApplyAll(Partial(name, data, left), fs), other) == ImgCrash.At(fs, other)
  {
    if left.Some? {
      var some := if left.value <= |data| then data[..left.value] else data;
      ApplyOne(Write(name, some), fs);
      assert ApplyAll(Partial(name, data, left), fs) == fs[name := some];
    }
  }

  // What a failed write leaves under the key's hash: the old pair, or after a failed
  // last rename the old meta file alone.  Other hashes are never affected.
  lemma FailedWriteLeaves(hash: string, meta: Bytes, body: Bytes, fault: Fault, fs: Fs)
    requires fault.Fails?
    ensures var after := ApplyAll(WriteOpsWith(hash, meta, body, fault), fs);
      && ImgCrash.At(after, Meta(hash)) == ImgCrash.At(fs, Meta(hash))
      && ImgCrash.At(after, Bin(hash)) == (if fault.op <= 2 then ImgCrash.At(fs, Bin(hash)) else None)
      && SameOutside(fs, after, hash)
  {
    var first, second := Write(BinTmp(hash), body), Write(MetaTmp(hash), meta);
    if fault.op == 0 {
      PartialLeaves(BinTmp(hash), body, fault.left, fs);
    } else if fault.op == 1 {
      PartialLeaves(MetaTmp(hash), meta, fault.left, Apply(first, fs));
      FailedSecond(fs, first, Partial(MetaTmp(hash), meta, fault.left), Remove(BinTmp(hash)));
    } else {
      ApplyAppend([first, second], RenameOps(hash, fault), fs);
      ApplyTwo(first, second, fs);
      FailedRenameLeaves(hash, body, fault, Apply(second, Apply(first, fs)));
    }
  }

  lemma FailedRenameLeaves(hash: string, body: Bytes, fault: Fault, fs: Fs)
    requires fault.Fails? && fault.op >= 2 && ImgCrash.At(fs, BinTmp(hash)) == Some(body)
    ensures var after := ApplyAll(RenameOps(hash, fault), fs);
      && ImgCrash.At(after, Meta(hash)) == ImgCrash.At(fs, Meta(hash))
      && ImgCrash.At(after, Bin(hash)) == (if fault.op <= 2 then ImgCrash.At(fs, Bin(hash)) else None)
      && SameOutside(fs, after, hash)
  {
    if fault.op == 2 {
      ApplyTwo(Remove(BinTmp(hash)), Remove(MetaTmp(hash)), fs);
    } else {
      ApplyThree(Rename(BinTmp(hash), Bin(hash)), Remove(MetaTmp(hash)), Remove(Bin(hash)), fs);
    }
  }

  // Eviction touches the files of the evicted only.
  lemma {:induction false} EvictElsewhere(d: Disk, room: int, hash: string)
    requires forall c :: c in d.list ==> c.val.hash != hash
    ensures forall name: Name :: name.hash == hash ==>
      ImgCrash.At(Evict(d, room).fs, name) == ImgCrash.At(d.fs, name)
    decreases |d.list|
  {
    var n := |d.list|;
    if n != 0 && Total(d.list) > room {
      var last, front := d.list[n - 1], d.list[..n - 1];
      assert last in d.list && forall c :: c in front ==> c in d.list;
      RemovedFiles(d.(list := front), last.val.hash);
      EvictElsewhere(RemoveFiles(d.(list := front), last.val.hash), room, hash);
    }
  }

  lemma RoomLeaves(env: Env, d: Disk, key: string, room: int)
    requires Ideal(env) && Distinct(d.list) && NamedFiles(env, d.list)
    ensures OldMetas(d.fs, MakeRoom(d, key, room).fs)
    ensures forall name: Name :: name.hash == env.hash(key) ==>
      ImgCrash.At(MakeRoom(d, key, room).fs, name) == ImgCrash.At(d.fs, name)
  {
    var d0 := d.(list := Without(d.list, key));
    WithoutKeeps(d.list, key);
    forall c | c in d0.list ensures c.val.hash != env.hash(key) {
      assert c in d.list && c.key != key;
    }
    EvictElsewhere(d0, room, env.hash(key));
    var ops := EvictLog(d0, room);
    RemovalsLeave(ops, d.fs);
  }

  // The directory after a Put whose write failed.
  lemma FailedPutLeaves(env: Env, cfg: Config, d: Disk, key: string, e: Entry, fault: Fault)
    requires Ideal(env) && cfg.diskOn && fault.Fails? && Fits(e, cfg.maxObject, cfg.diskMax)
    requires Distinct(d.list) && NamedFiles(env, d.list)
    ensures var fs, h := PutDiskWith(env, cfg, d, key, e, fault).fs, env.hash(key);
      && OldMetas(d.fs, fs)
      && ImgCrash.At(fs, Meta(h)) == ImgCrash.At(d.fs, Meta(h))
      && ImgCrash.At(fs, Bin(h)) == if fault.op <= 2 then ImgCrash.At(d.fs, Bin(h)) else None
  {
    var h, room := env.hash(key), cfg.diskMax - |e.body|;
    var mid := MakeRoom(d, key, room).fs;
    RoomLeaves(env, d, key, room);
    FailedWriteLeaves(h, env.encode(MetaOf(key, e)), e.body, fault, mid);
    var fs := PutDiskWith(env, cfg, d, key, e, fault).fs;
    assert fs == ApplyAll(WriteOpsWith(h, env.encode(MetaOf(key, e)), e.body, fault), mid);
    assert Meta(h).hash == h && Bin(h).hash == h;
    forall g | Meta(g) in fs ensures ImgCrash.At(fs, Meta(g)) == ImgCrash.At(d.fs, Meta(g)) {
      assert Meta(g).hash == g;
    }
  }

  // Nothing is answered for a key whose files do not read back.
  lemma LoadAnswersNothing(env: Env, cfg: Config, fs: Fs, listing: seq<string>, now: int, list: seq<Cell<DiskRef>>,
                           key: string, later: int)
    requires Ideal(env) && cfg.diskOn && OwnMetas(env, fs) && IsListing(fs, listing)
    requires Sized(env, fs, list, now) && Distinct(list) && Total(list) <= cfg.diskMax
    requires !Indexes(env, fs, env.hash(key), now)
    ensures AnswerFrom(env, cfg, fs, listing, now, key, later) == None
  {
    var d := Load(env, cfg, fs, [], listing, now).disk;
    LoadIsRead(env, cfg, fs, listing, now, list);
    forall c | c in d.list ensures c.key != key {
      OwnKey(env, fs, c.val.hash, now);
    }
    assert Find(d.list, key) == None;
  }

  // The answer after a restart, from any sound state: the entry the key had on disk
  // before the Put, exactly when the last rename was not reached.
  lemma AnswerAfterFailedPut(env: Env, cfg: Config, st: State, latest: Latest, key: string, ent: Entry, now: int,
                             fault: Fault, listing: seq<string>, restart: int, later: int)
    requires Ideal(env) && Validated(cfg) && cfg.diskOn && Inv(env, cfg, st, latest) && key != ""
    requires fault.Fails? && Fits(ent, cfg.maxObject, cfg.maxBytes)
    requires IsListing(PutWith(env, cfg, st, key, ent, now, fault).0.disk.fs, listing)
    ensures AnswerFrom(env, cfg, PutWith(env, cfg, st, key, ent, now, fault).0.disk.fs, listing, restart, key, later) ==
      if fault.op <= 2 && key in Keys(st.disk.list)
         && Live(latest[key].expiresAt, restart) && Live(latest[key].expiresAt, later)
      then Some(EntryOf(MetaOf(key, latest[key]), latest[key].body)) else None
  {
    var fs, h := PutWith(env, cfg, st, key, ent, now, fault).0.disk.fs, env.hash(key);
    FailedPutLeaves(env, cfg, st.disk, key, ent.(storedAt := now), fault);
    OldMetasFit(env, cfg, st, latest, fs, restart);
    if key in Keys(st.disk.list) {
      var c :| c in st.disk.list && c.key == key;
      assert Holds(env, st.disk.fs, key, latest[key]);
      if fault.op <= 2 {
        LoadAnswers(env, cfg, fs, listing, restart, st.disk.list, key, latest[key], later);
      } else {
        LoadAnswersNothing(env, cfg, fs, listing, restart, st.disk.list, key, later);
      }
    } else {
      if Meta(h) in st.disk.fs {
        MetaIsIndexed(env, cfg, st, latest, key);
        assert false;
      }
      LoadAnswersNothing(env, cfg, fs, listing, restart, st.disk.list, key, later);
    }
  }

  lemma MetaIsIndexed(env: Env, cfg: Config, st: State, latest: Latest, key: string)
    requires Ideal(env) && cfg.diskOn && Inv(env, cfg, st, latest) && Meta(env.hash(key)) in st.disk.fs
    ensures key in Keys(st.disk.list)
  {
    var c :| c in st.disk.list && c.val.hash == env.hash(key);
    assert c.key == key;
  }

  // The exact harm of a failed disk write.  The Put is accepted and answered, from
  // memory; but a restart then answers the Put before it, exactly when that one was
  // still on disk, is not expired, and the failure came before the last rename.
  lemma StaleAfterFailedWriteExactlyWhen(env: Env, cfg: Config, ops: seq<Op>, key: string, ent: Entry, now: int,
                                         fault: Fault, listing: seq<string>, restart: int, later: int)
    requires Ideal(env) && Validated(cfg) && cfg.diskOn && RealListings(env, cfg, ops) && key != ""
    requires fault.Fails? && Fits(ent, cfg.maxObject, cfg.maxBytes) && Live(ent.expiresAt, now)
    requires IsListing(PutWith(env, cfg, After(env, cfg, ops), key, ent, now, fault).0.disk.fs, listing)
    ensures var st, before := After(env, cfg, ops), LatestPut(cfg, ops, key);
      var (st', ok) := PutWith(env, cfg, st, key, ent, now, fault);
      var stale := AnswerFrom(env, cfg, st'.disk.fs, listing, restart, key, later);
      && ok && (exists hit :: Get(env, cfg, st', key, now).1 == Some(hit) && CopyOf(hit, ent.(storedAt := now)))
      && (stale.Some? <==>
            && fault.op <= 2 && key in Keys(st.disk.list)
            && before.Some? && Live(before.value.expiresAt, restart) && Live(before.value.expiresAt, later))
      && (stale.Some? ==> CopyOf(stale.value, before.value))
  {
    var st := After(env, cfg, ops);
    var latest := ImgRuns.RunKeeps(env, cfg, ops);
    AnswerAfterFailedPut(env, cfg, st, latest, key, ent, now, fault, listing, restart, later);
    if key in Keys(st.disk.list) {
      var c :| c in st.disk.list && c.key == key;
      ReadBack(env, st.disk.fs, key, latest[key], restart);
    }
    MemoryAnswers(env, cfg, PutWith(env, cfg, st, key, ent, now, fault).0, key, ent.(storedAt := now), now);
  }

  lemma MemoryAnswers(env: Env, cfg: Config, st: State, key: string, e: Entry, now: int)
    requires |st.mem| > 0 && st.mem[0] == Cell(key, |e.body|, e) && Live(e.expiresAt, now)
    ensures var r := Get(env, cfg, st, key, now).1; r.Some? && CopyOf(r.value, e)
  {
    assert Find(st.mem, key) == Some(st.mem[0]);
  }
}
