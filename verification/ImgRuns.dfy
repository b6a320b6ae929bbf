// Whole runs of the image cache: what Get may answer, which entries a Put
// evicts, and what the recency order means.
module ImgRuns {
  import opened Prelude
  import opened Recency
  import opened ImgModel
  import opened ImgProofs

  datatype Op =
    | PutOp(key: string, ent: Entry, now: int)
    | GetOp(key: string, now: int)
    | RestartOp(listing: seq<string>, now: int)  // clean stop, then New

  function Step(env: Env, cfg: Config, st: State, op: Op): State {
    match op
    case PutOp(key, ent, now) => Put(env, cfg, st, key, ent, now).0
    case GetOp(key, now) => Get(env, cfg, st, key, now).0
    case RestartOp(listing, now) => Load(env, cfg, st.disk.fs, st.disk.log, listing, now)
  }

  // The cache after a run that starts on an empty directory.
  function After(env: Env, cfg: Config, ops: seq<Op>): State {
    if |ops| == 0 then State([], Disk([], map[], []))
    else Step(env, cfg, After(env, cfg, ops[..|ops| - 1]), ops[|ops| - 1])
  }

  // Every restart lists the .meta files that are there.
  ghost predicate RealListings(env: Env, cfg: Config, ops: seq<Op>) {
    forall i :: 0 <= i < |ops| && ops[i].RestartOp? ==>
      IsListing(After(env, cfg, ops[..i]).disk.fs, ops[i].listing)
  }

  // The last Put of key the cache accepts, read off the run alone.
  function LatestPut(cfg: Config, ops: seq<Op>, key: string): Option<Entry> {
    if |ops| == 0 then None
    else
      var op := ops[|ops| - 1];
      if op.PutOp? && op.key == key && Fits(op.ent, cfg.maxObject, cfg.maxBytes)
      then Some(op.ent.(storedAt := op.now))
      else LatestPut(cfg, ops[..|ops| - 1], key)
  }

  lemma {:induction false} RunKeeps(env: Env, cfg: Config, ops: seq<Op>) returns (latest: Latest)
    requires Ideal(env) && Validated(cfg) && RealListings(env, cfg, ops)
    ensures Inv(env, cfg, After(env, cfg, ops), latest)
    ensures forall k :: LatestPut(cfg, ops, k) == if k in latest then Some(latest[k]) else None
  {
    if |ops| == 0 {
      latest := map[];
    } else {
      var before, op := ops[..|ops| - 1], ops[|ops| - 1];
      assert forall i :: 0 <= i < |before| ==> before[..i] == ops[..i];
      latest := RunKeeps(env, cfg, before);
      var st := After(env, cfg, before);
      match op
      case PutOp(key, ent, now) =>
        PutKeeps(env, cfg, st, key, ent, now, latest);
        if Fits(ent, cfg.maxObject, cfg.maxBytes) {
          latest := latest[key := ent.(storedAt := now)];
        }
      case GetOp(key, now) =>
        GetKeeps(env, cfg, st, key, now, latest);
      case RestartOp(listing, now) =>
        LoadKeeps(env, cfg, st.disk.fs, st.disk.log, listing, now, latest);
    }
  }

  // Refinement: whatever evictions, promotions and restarts happened, Get
  // answers nothing or a copy of the latest accepted Put that is not past its
  // expiry; and it answers exactly while one of the tiers still holds the key.
  lemma GetAnswersLatestPut(env: Env, cfg: Config, ops: seq<Op>, key: string, now: int)
    requires Ideal(env) && Validated(cfg) && RealListings(env, cfg, ops)
    ensures var st, put := After(env, cfg, ops), LatestPut(cfg, ops, key);
      var answer := Get(env, cfg, st, key, now).1;
      && (answer.Some? ==> put.Some? && CopyOf(answer.value, put.value) && Live(put.value.expiresAt, now))
      && (answer.Some? <==>
            && put.Some? && Live(put.value.expiresAt, now)
            && (key in Keys(st.mem) || (cfg.diskOn && key in Keys(st.disk.list))))
  {
    var latest := RunKeeps(env, cfg, ops);
    GetKeeps(env, cfg, After(env, cfg, ops), key, now, latest);
  }

  // An accepted Put is answered right after it, and with a disk tier also
  // after a restart.
  lemma PutIsAnswered(env: Env, cfg: Config, ops: seq<Op>, key: string, ent: Entry, now: int,
                      listing: seq<string>, restart: int, later: int)
    requires Ideal(env) && Validated(cfg) && RealListings(env, cfg, ops)
    requires Fits(ent, cfg.maxObject, cfg.maxBytes) && Live(ent.expiresAt, later)
    ensures var st := After(env, cfg, ops + [PutOp(key, ent, now)]);
      && Get(env, cfg, st, key, later).1.Some?
      && (cfg.diskOn && key != "" && restart <= later && IsListing(st.disk.fs, listing) ==>
            Get(env, cfg, Load(env, cfg, st.disk.fs, st.disk.log, listing, restart), key, later).1.Some?)
  {
    var ops' := ops + [PutOp(key, ent, now)];
    assert ops'[..|ops|] == ops;
    assert forall i :: 0 <= i < |ops| ==> ops'[..i] == ops[..i];
    var latest := RunKeeps(env, cfg, ops');
    var st := After(env, cfg, ops');
    assert LatestPut(cfg, ops', key) == Some(ent.(storedAt := now));
    assert st.mem[0] in st.mem && key in Keys(st.mem);
    GetKeeps(env, cfg, st, key, later, latest);
    if cfg.diskOn && key != "" && restart <= later && IsListing(st.disk.fs, listing) {
      var earlier := RunKeeps(env, cfg, ops);
      PutDiskShape(env, cfg, After(env, cfg, ops).disk, key, ent.(storedAt := now));
      assert st.disk.list[0] in st.disk.list;
      AnsweredAfterRestart(env, cfg, st, key, listing, restart, later, latest);
    }
  }

  lemma AnsweredAfterRestart(env: Env, cfg: Config, st: State, key: string, listing: seq<string>, restart: int,
                             later: int, latest: Latest)
    requires Ideal(env) && Validated(cfg) && Inv(env, cfg, st, latest) && cfg.diskOn && IsListing(st.disk.fs, listing)
    requires key != "" && key in Keys(st.disk.list) && key in latest && Live(latest[key].expiresAt, later)
    requires restart <= later
    ensures Get(env, cfg, Load(env, cfg, st.disk.fs, st.disk.log, listing, restart), key, later).1.Some?
  {
    LoadKeeps(env, cfg, st.disk.fs, st.disk.log, listing, restart, latest);
    RestartKeepsDisk(env, cfg, st, listing, restart, latest);
    GetKeeps(env, cfg, Load(env, cfg, st.disk.fs, st.disk.log, listing, restart), key, later, latest);
  }

  // The validated limits matter.  Were an object allowed to be larger than the disk
  // tier, overwriting an entry with such an object would leave the old one on disk,
  // and a restart would bring it back.
  lemma StaleBeyondDiskLimit(env: Env, cfg: Config, key: string, v1: Entry, v2: Entry, listing: seq<string>, now: int)
    requires Ideal(env) && cfg.diskOn && key != "" && Live(v1.expiresAt, now)
    requires 0 < |v1.body| <= cfg.diskMax < |v2.body| <= cfg.maxObject <= cfg.maxBytes
    requires IsListing(After(env, cfg, [PutOp(key, v1, now), PutOp(key, v2, now)]).disk.fs, listing)
    ensures var ops := [PutOp(key, v1, now), PutOp(key, v2, now), RestartOp(listing, now)];
      var answer := Get(env, cfg, After(env, cfg, ops), key, now).1;
      && LatestPut(cfg, ops, key) == Some(v2.(storedAt := now))
      && answer.Some? && CopyOf(answer.value, v1.(storedAt := now))
  {
    var put1, put2, restart := PutOp(key, v1, now), PutOp(key, v2, now), RestartOp(listing, now);
    var small := cfg.(maxObject := cfg.diskMax);
    var st := After(env, small, [put1]);
    OversizedLeavesDisk(env, cfg, key, v1, v2, listing, now);
    RestartAnswersPut(env, small, key, v1, listing, now);
    SmallGet(env, cfg, Load(env, small, st.disk.fs, st.disk.log, listing, now), key, now);
    assert LatestPut(cfg, [put1, put2, restart], key) == Some(v2.(storedAt := now)) by {
      assert [put1, put2, restart][..2] == [put1, put2];
      assert LatestPut(cfg, [put1, put2], key) == Some(v2.(storedAt := now));
    }
  }

  lemma SmallGet(env: Env, cfg: Config, st: State, key: string, now: int)
    ensures Get(env, cfg, st, key, now).1 == Get(env, cfg.(maxObject := cfg.diskMax), st, key, now).1
  {
  }

  // One Put and a restart within the limits.
  lemma RestartAnswersPut(env: Env, cfg: Config, key: string, ent: Entry, listing: seq<string>, now: int)
    requires Ideal(env) && Validated(cfg) && cfg.diskOn && key != "" && Live(ent.expiresAt, now)
    requires Fits(ent, cfg.maxObject, cfg.maxBytes)
    requires IsListing(After(env, cfg, [PutOp(key, ent, now)]).disk.fs, listing)
    ensures var st := After(env, cfg, [PutOp(key, ent, now)]);
      var answer := Get(env, cfg, Load(env, cfg, st.disk.fs, st.disk.log, listing, now), key, now).1;
      answer.Some? && CopyOf(answer.value, ent.(storedAt := now))
  {
    var none: seq<Op> := [];
    var put := PutOp(key, ent, now);
    var st := After(env, cfg, [put]);
    var r := Load(env, cfg, st.disk.fs, st.disk.log, listing, now);
    assert none + [put] == [put] && [put][..0] == none;
    assert Get(env, cfg, r, key, now).1.Some? by {
      PutIsAnswered(env, cfg, none, key, ent, now, listing, now, now);
    }
    var latest := RunKeeps(env, cfg, [put]);
    assert LatestPut(cfg, [put], key) == Some(ent.(storedAt := now));
    LoadKeeps(env, cfg, st.disk.fs, st.disk.log, listing, now, latest);
    GetKeeps(env, cfg, r, key, now, latest);
  }

  lemma AfterPush(env: Env, cfg: Config, ops: seq<Op>, op: Op)
    ensures After(env, cfg, ops + [op]) == Step(env, cfg, After(env, cfg, ops), op)
  {
    assert (ops + [op])[..|ops|] == ops;
  }

  lemma OversizedPut(env: Env, cfg: Config, st: State, key: string, ent: Entry, now: int)
    requires cfg.diskMax < |ent.body| <= cfg.maxObject <= cfg.maxBytes
    ensures Put(env, cfg, st, key, ent, now).0.disk == st.disk
  {
  }

  lemma SmallPut(env: Env, cfg: Config, st: State, key: string, ent: Entry, now: int)
    requires 0 < |ent.body| <= cfg.diskMax <= cfg.maxObject <= cfg.maxBytes
    ensures Put(env, cfg, st, key, ent, now) == Put(env, cfg.(maxObject := cfg.diskMax), st, key, ent, now)
  {
  }

  // The oversized Put leaves the disk tier as it was.
  lemma OversizedLeavesDisk(env: Env, cfg: Config, key: string, v1: Entry, v2: Entry, listing: seq<string>, now: int)
    requires cfg.diskOn && 0 < |v1.body| <= cfg.diskMax < |v2.body| <= cfg.maxObject <= cfg.maxBytes
    ensures var put1, put2, restart := PutOp(key, v1, now), PutOp(key, v2, now), RestartOp(listing, now);
      var small := cfg.(maxObject := cfg.diskMax);
      && After(env, cfg, [put1, put2]).disk == After(env, small, [put1]).disk
      && var st := After(env, small, [put1]);
         After(env, cfg, [put1, put2, restart]) == Load(env, small, st.disk.fs, st.disk.log, listing, now)
  {
    var put1, put2, restart := PutOp(key, v1, now), PutOp(key, v2, now), RestartOp(listing, now);
    var small := cfg.(maxObject := cfg.diskMax);
    var st0 := After(env, cfg, []);
    var st1, st2 := Put(env, cfg, st0, key, v1, now).0, After(env, cfg, [put1, put2]);
    assert [] + [put1] == [put1] && [put1] + [put2] == [put1, put2];
    assert [put1, put2] + [restart] == [put1, put2, restart];
    assert After(env, cfg, [put1]) == st1 == After(env, small, [put1]) by {
      AfterPush(env, cfg, [], put1);
      AfterPush(env, small, [], put1);
      SmallPut(env, cfg, st0, key, v1, now);
    }
    assert st2.disk == st1.disk by {
      AfterPush(env, cfg, [put1], put2);
      OversizedPut(env, cfg, st1, key, v2, now);
    }
    AfterPush(env, cfg, [put1, put2], restart);
    assert Load(env, cfg, st1.disk.fs, st1.disk.log, listing, now) ==
      Load(env, small, st1.disk.fs, st1.disk.log, listing, now);
  }

  /* Eviction */

  // When each key was last stored or hit: in memory by any answered operation,
  // on disk by a store or by a hit the memory tier could not serve.
  datatype Uses = Uses(mem: map<string, nat>, disk: map<string, nat>)

  function Used(env: Env, cfg: Config, st: State, op: Op, u: Uses, tick: nat): Uses {
    match op
    case PutOp(key, ent, now) =>
      if !Fits(ent, cfg.maxObject, cfg.maxBytes) then u
      else Uses(u.mem[key := tick], if cfg.diskOn then u.disk[key := tick] else u.disk)
    case GetOp(key, now) =>
      if Get(env, cfg, st, key, now).1.None? then u
      else Uses(u.mem[key := tick], if GetMemory(st.mem, key, now).1.Some? then u.disk else u.disk[key := tick])
    case RestartOp(listing, now) => u
  }

  ghost predicate Ordered(st: State, u: Uses, tick: nat) {
    && MostRecentFirst(st.mem, u.mem) && MostRecentFirst(st.disk.list, u.disk)
    && (forall k :: k in u.mem ==> u.mem[k] < tick)
    && (forall k :: k in u.disk ==> u.disk[k] < tick)
  }

  // A successful Put removes the key's old entry and then, in each tier, the
  // shortest least recently used suffix that makes the new body fit.
  lemma PutEvictsExactly(env: Env, cfg: Config, st: State, key: string, ent: Entry, now: int, u: Uses, tick: nat)
    requires Validated(cfg) && Shape(cfg, st) && Ordered(st, u, tick)
    requires Fits(ent, cfg.maxObject, cfg.maxBytes)
    ensures var st' := Put(env, cfg, st, key, ent, now).0;
      && |st'.mem| > 0 && st'.mem[0] == Cell(key, |ent.body|, ent.(storedAt := now))
      && EvictedExactly(Without(st.mem, key), st'.mem[1..], u.mem, |ent.body|, cfg.maxBytes)
      && (cfg.diskOn ==>
            && |st'.disk.list| > 0
            && st'.disk.list[0] == Cell(key, |ent.body|, DiskRef(env.hash(key), ent.expiresAt))
            && EvictedExactly(Without(st.disk.list, key), st'.disk.list[1..], u.disk, |ent.body|, cfg.diskMax))
  {
    var stored := ent.(storedAt := now);
    InsertEvictsExactly(st.mem, Cell(key, |ent.body|, stored), cfg.maxBytes, u.mem);
    if cfg.diskOn {
      var cell := Cell(key, |ent.body|, DiskRef(env.hash(key), ent.expiresAt));
      InsertEvictsExactly(st.disk.list, cell, cfg.diskMax, u.disk);
      PutDiskShape(env, cfg, st.disk, key, stored);
    }
  }

  // Both lists stay in the order of last store or hit.
  lemma StepStaysOrdered(env: Env, cfg: Config, st: State, op: Op, u: Uses, tick: nat, latest: Latest)
    requires Ideal(env) && Validated(cfg) && Inv(env, cfg, st, latest) && Ordered(st, u, tick) && !op.RestartOp?
    ensures Ordered(Step(env, cfg, st, op), Used(env, cfg, st, op, u, tick), tick + 1)
  {
    match op
    case PutOp(key, ent, now) => PutStaysOrdered(env, cfg, st, key, ent, now, u, tick);
    case GetOp(key, now) => GetStaysOrdered(env, cfg, st, key, now, u, tick, latest);
  }

  lemma PutStaysOrdered(env: Env, cfg: Config, st: State, key: string, ent: Entry, now: int, u: Uses, tick: nat)
    requires Validated(cfg) && Shape(cfg, st) && Ordered(st, u, tick)
    ensures Ordered(Put(env, cfg, st, key, ent, now).0, Used(env, cfg, st, PutOp(key, ent, now), u, tick), tick + 1)
  {
    if Fits(ent, cfg.maxObject, cfg.maxBytes) {
      var stored := ent.(storedAt := now);
      InsertOrdered(st.mem, Cell(key, |ent.body|, stored), cfg.maxBytes, u.mem, tick);
      if cfg.diskOn {
        var cell := Cell(key, |ent.body|, DiskRef(env.hash(key), ent.expiresAt));
        InsertOrdered(st.disk.list, cell, cfg.diskMax, u.disk, tick);
        PutDiskShape(env, cfg, st.disk, key, stored);
      }
    }
  }

  lemma GetMemoryOrdered(mem: seq<Cell<Entry>>, key: string, now: int, use: map<string, nat>, tick: nat)
    requires Distinct(mem) && MostRecentFirst(mem, use)
    requires forall k :: k in use ==> use[k] < tick
    ensures var (r, hit) := GetMemory(mem, key, now);
      MostRecentFirst(r, if hit.Some? then use[key := tick] else use)
  {
    var f := Find(mem, key);
    if f.Some? {
      FrontOrdered(mem, f.value.(val := f.value.val.(hits := f.value.val.hits + 1)), use, tick);
      WithoutKeepsOrder(mem, key, use);
    }
  }

  lemma MissStaysOrdered(env: Env, cfg: Config, st: State, key: string, now: int, u: Uses, tick: nat, latest: Latest)
    requires Inv(env, cfg, st, latest) && Ordered(st, u, tick) && GetMemory(st.mem, key, now).1.None?
    ensures var st' := st.(mem := GetMemory(st.mem, key, now).0);
      Inv(env, cfg, st', latest) && Ordered(st', u, tick) && key !in Keys(st'.mem)
  {
    GetMemoryOrdered(st.mem, key, now, u.mem, tick);
    GetMemoryShape(cfg, st.mem, key, now);
    GetMemoryKeeps(st.mem, key, now, latest);
  }

  lemma GetStaysOrdered(env: Env, cfg: Config, st: State, key: string, now: int, u: Uses, tick: nat, latest: Latest)
    requires Ideal(env) && Validated(cfg) && Inv(env, cfg, st, latest) && Ordered(st, u, tick)
    ensures Ordered(Get(env, cfg, st, key, now).0, Used(env, cfg, st, GetOp(key, now), u, tick), tick + 1)
  {
    var (mem, hit) := GetMemory(st.mem, key, now);
    if hit.None? {
      MissStaysOrdered(env, cfg, st, key, now, u, tick, latest);
      GetDiskStaysOrdered(env, cfg, st.(mem := mem), key, now, u, tick, latest);
    } else {
      GetMemoryOrdered(st.mem, key, now, u.mem, tick);
    }
  }

  lemma GetDiskStaysOrdered(env: Env, cfg: Config, st: State, key: string, now: int, u: Uses, tick: nat, latest: Latest)
    requires Ideal(env) && Validated(cfg) && Inv(env, cfg, st, latest) && Ordered(st, u, tick) && key !in Keys(st.mem)
    ensures var (st', r) := GetDisk(env, cfg, st, key, now);
      Ordered(st', if r.Some? then Uses(u.mem[key := tick], u.disk[key := tick]) else u, tick + 1)
  {
    var f := Find(st.disk.list, key);
    if cfg.diskOn && f.Some? {
      WithoutKeepsOrder(st.disk.list, key, u.disk);
      DropList(st.disk, key);
      FrontOrdered(st.disk.list, f.value, u.disk, tick);
      ReadBack(env, st.disk.fs, key, latest[key], now);
      var e := EntryOf(MetaOf(key, latest[key]), latest[key].body);
      InsertOrdered(st.mem, Cell(key, |e.body|, e), cfg.maxBytes, u.mem, tick);
    }
  }
}
