// Recency over whole runs of the image cache, restarts included: what the order of
// the two lists means at every moment.
module ImgOrder {
  import opened Prelude
  import opened Recency
  import opened Files
  import opened ImgModel
  import opened ImgProofs
  import opened ImgRuns

  // Where a hash stands in a listing, or its length.
  function Position(listing: seq<string>, hash: string): (p: nat)
    ensures p <= |listing| && (p < |listing| ==> listing[p] == hash)
    ensures p < |listing| <==> hash in listing
  {
    if |listing| == 0 then 0
    else if Position(listing[..|listing| - 1], hash) < |listing| - 1 then Position(listing[..|listing| - 1], hash)
    else if listing[|listing| - 1] == hash then |listing| - 1 else |listing|
  }

  // Later files of the listing come first.
  ghost predicate InListingOrder(list: seq<Cell<DiskRef>>, listing: seq<string>) {
    && (forall c :: c in list ==> c.val.hash in listing)
    && forall i, j :: 0 <= i < j < |list| ==> Position(listing, list[i].val.hash) > Position(listing, list[j].val.hash)
  }

  lemma WithoutListed(list: seq<Cell<DiskRef>>, key: string, listing: seq<string>)
    requires InListingOrder(list, listing)
    ensures InListingOrder(Without(list, key), listing)
  {
    WithoutAt(list, key);
  }

  lemma LongerListing(list: seq<Cell<DiskRef>>, listing: seq<string>, h: string)
    requires InListingOrder(list, listing)
    ensures InListingOrder(list, listing + [h])
  {
    assert (listing + [h])[..|listing|] == listing;
  }

  lemma FrontListed(c: Cell<DiskRef>, list: seq<Cell<DiskRef>>, listing: seq<string>)
    requires InListingOrder(list, listing) && c.val.hash !in listing
    ensures InListingOrder([c] + list, listing + [c.val.hash])
  {
    var t, listing' := [c] + list, listing + [c.val.hash];
    assert listing'[..|listing|] == listing && listing'[|listing|] == c.val.hash;
    assert Position(listing', c.val.hash) == |listing|;
    LongerListing(list, listing, c.val.hash);
    forall i, j | 0 <= i < j < |t| ensures Position(listing', t[i].val.hash) > Position(listing', t[j].val.hash) {
      assert t[j] == list[j - 1] && list[j - 1] in list;
      if i > 0 {
        assert t[i] == list[i - 1];
      }
    }
  }

  // Whatever was used last before the restart, loadDisk leaves the entries in the
  // reverse order of its directory listing.
  lemma {:induction false} LoadedInListingOrder(env: Env, fs: Fs, log: seq<FsOp>, listing: seq<string>, now: int)
    requires forall i, j :: 0 <= i < j < |listing| ==> listing[i] != listing[j]
    ensures InListingOrder(LoadAll(env, Disk([], fs, log), listing, now).list, listing)
  {
    if |listing| != 0 {
      var rest, h := listing[..|listing| - 1], listing[|listing| - 1];
      LoadedInListingOrder(env, fs, log, rest, now);
      assert listing == rest + [h] && h !in rest;
      LoadOneListed(env, LoadAll(env, Disk([], fs, log), rest, now), rest, h, now);
    }
  }

  lemma LoadOneListed(env: Env, d: Disk, listing: seq<string>, h: string, now: int)
    requires InListingOrder(d.list, listing) && h !in listing
    ensures InListingOrder(LoadOne(env, d, h, now).list, listing + [h])
  {
    var read := ReadFiles(env, d.fs, h, now);
    RemovedFiles(d, h);
    LongerListing(d.list, listing, h);
    if read.Some? && read.value.0.key != "" && read.value.0.size > 0 {
      var m := read.value.0;
      WithoutListed(d.list, m.key, listing);
      FrontListed(Cell(m.key, m.size, DiskRef(h, m.expiresAt)), Without(d.list, m.key), listing);
    }
  }

  lemma LoadListed(env: Env, cfg: Config, fs: Fs, log: seq<FsOp>, listing: seq<string>, now: int)
    requires Validated(cfg)
    requires forall i, j :: 0 <= i < j < |listing| ==> listing[i] != listing[j]
    ensures InListingOrder(Load(env, cfg, fs, log, listing, now).disk.list, listing)
  {
    if cfg.diskOn {
      var d := LoadAll(env, Disk([], fs, log), listing, now);
      LoadedInListingOrder(env, fs, log, listing, now);
      EvictList(d, cfg.diskMax);
      FitIsLongestPrefix(d.list, cfg.diskMax);
      var r := Evict(d, cfg.diskMax).list;
      assert forall i :: 0 <= i < |r| ==> r[i] == d.list[i];
      assert forall c :: c in r ==> c in d.list;
    }
  }

  /* Uses over a run */

  // A moment later than every use so far.
  function Clock(ops: seq<Op>): nat {
    if |ops| == 0 then 0
    else Clock(ops[..|ops| - 1]) + 1 + if ops[|ops| - 1].RestartOp? then |ops[|ops| - 1].listing| else 0
  }

  // After a restart: nothing in memory, and on disk as if the files had been used in
  // the order of the listing.
  ghost function Reloaded(env: Env, list: seq<Cell<DiskRef>>, listing: seq<string>, base: nat): Uses {
    Uses(map[], map k | k in Keys(list) :: base + Position(listing, env.hash(k)))
  }

  ghost function UsesAfter(env: Env, cfg: Config, ops: seq<Op>): Uses {
    if |ops| == 0 then Uses(map[], map[])
    else
      var before, op := ops[..|ops| - 1], ops[|ops| - 1];
      if op.RestartOp? then Reloaded(env, After(env, cfg, ops).disk.list, op.listing, Clock(before))
      else Used(env, cfg, After(env, cfg, before), op, UsesAfter(env, cfg, before), Clock(before))
  }

  lemma ReloadedOrder(env: Env, list: seq<Cell<DiskRef>>, listing: seq<string>, base: nat)
    requires InListingOrder(list, listing) && forall c :: c in list ==> c.val.hash == env.hash(c.key)
    ensures MostRecentFirst(list, Reloaded(env, list, listing, base).disk)
    ensures forall k :: k in Reloaded(env, list, listing, base).disk ==>
      Reloaded(env, list, listing, base).disk[k] < base + 1 + |listing|
  {
    assert forall c :: c in list ==> c.key in Keys(list);
    forall i, j | 0 <= i < j < |list|
      ensures Reloaded(env, list, listing, base).disk[list[i].key] >
        Reloaded(env, list, listing, base).disk[list[j].key]
    {
      assert list[i] in list && list[j] in list;
    }
  }

  // At every moment of every run both lists stand in the order of last use, which after
  // a restart starts from the listing.
  lemma {:induction false} RunStaysOrdered(env: Env, cfg: Config, ops: seq<Op>)
    requires Ideal(env) && Validated(cfg) && RealListings(env, cfg, ops)
    ensures Ordered(After(env, cfg, ops), UsesAfter(env, cfg, ops), Clock(ops))
  {
    if |ops| != 0 {
      var before, op := ops[..|ops| - 1], ops[|ops| - 1];
      assert forall i :: 0 <= i < |before| ==> before[..i] == ops[..i];
      RunStaysOrdered(env, cfg, before);
      var st := After(env, cfg, before);
      var latest := RunKeeps(env, cfg, before);
      if op.RestartOp? {
        RestartOrders(env, cfg, st, op.listing, op.now, latest, Clock(before));
      } else {
        StepStaysOrdered(env, cfg, st, op, UsesAfter(env, cfg, before), Clock(before), latest);
      }
    }
  }

  lemma LoadedCells(env: Env, cfg: Config, st: State, listing: seq<string>, now: int, latest: Latest)
    requires Ideal(env) && Validated(cfg) && Inv(env, cfg, st, latest) && IsListing(st.disk.fs, listing)
    ensures var list := Load(env, cfg, st.disk.fs, st.disk.log, listing, now).disk.list;
      && Distinct(list) && InListingOrder(list, listing)
      && forall c :: c in list ==> c.key in latest && c.val.hash == env.hash(c.key)
  {
    LoadListed(env, cfg, st.disk.fs, st.disk.log, listing, now);
    LoadKeeps(env, cfg, st.disk.fs, st.disk.log, listing, now, latest);
  }

  lemma RestartOrders(env: Env, cfg: Config, st: State, listing: seq<string>, now: int, latest: Latest, base: nat)
    requires Ideal(env) && Validated(cfg) && Inv(env, cfg, st, latest) && IsListing(st.disk.fs, listing)
    ensures var r := Load(env, cfg, st.disk.fs, st.disk.log, listing, now);
      Ordered(r, Reloaded(env, r.disk.list, listing, base), base + 1 + |listing|)
  {
    var r := Load(env, cfg, st.disk.fs, st.disk.log, listing, now);
    LoadedCells(env, cfg, st, listing, now, latest);
    ReloadedOrder(env, r.disk.list, listing, base);
  }

  // So after every run a Put evicts exactly the shortest least recently used suffix of
  // each tier, by the uses of that run.
  lemma RunPutEvictsExactly(env: Env, cfg: Config, ops: seq<Op>, key: string, ent: Entry, now: int)
    requires Ideal(env) && Validated(cfg) && RealListings(env, cfg, ops)
    requires Fits(ent, cfg.maxObject, cfg.maxBytes)
    ensures var st, u := After(env, cfg, ops), UsesAfter(env, cfg, ops);
      var st' := Put(env, cfg, st, key, ent, now).0;
      && |st'.mem| > 0 && st'.mem[0] == Cell(key, |ent.body|, ent.(storedAt := now))
      && EvictedExactly(Without(st.mem, key), st'.mem[1..], u.mem, |ent.body|, cfg.maxBytes)
      && (cfg.diskOn ==>
            && |st'.disk.list| > 0
            && st'.disk.list[0] == Cell(key, |ent.body|, DiskRef(env.hash(key), ent.expiresAt))
            && EvictedExactly(Without(st.disk.list, key), st'.disk.list[1..], u.disk, |ent.body|, cfg.diskMax))
  {
    var latest := RunKeeps(env, cfg, ops);
    RunStaysOrdered(env, cfg, ops);
    PutEvictsExactly(env, cfg, After(env, cfg, ops), key, ent, now, UsesAfter(env, cfg, ops), Clock(ops));
  }

  /* What a restart forgets */

  lemma TwoStored(env: Env, cfg: Config, j: string, v: Entry, k: string, w: Entry, now: int)
    requires Validated(cfg) && cfg.diskOn && j != k
    requires Fits(v, cfg.maxObject, cfg.maxBytes) && Fits(w, cfg.maxObject, cfg.maxBytes)
    requires |v.body| + |w.body| <= cfg.diskMax
    ensures After(env, cfg, [PutOp(j, v, now), PutOp(k, w, now)]).disk.list ==
      [Cell(k, |w.body|, DiskRef(env.hash(k), w.expiresAt)), Cell(j, |v.body|, DiskRef(env.hash(j), v.expiresAt))]
  {
    var none: seq<Op> := [];
    var cj := Cell(j, |v.body|, DiskRef(env.hash(j), v.expiresAt));
    var ck := Cell(k, |w.body|, DiskRef(env.hash(k), w.expiresAt));
    assert none + [PutOp(j, v, now)] == [PutOp(j, v, now)];
    assert [PutOp(j, v, now)] + [PutOp(k, w, now)] == [PutOp(j, v, now), PutOp(k, w, now)];
    var st0 := After(env, cfg, none);
    var st1 := After(env, cfg, [PutOp(j, v, now)]);
    assert st1.disk == PutDisk(env, cfg, st0.disk, j, v.(storedAt := now)) by {
      AfterPush(env, cfg, none, PutOp(j, v, now));
    }
    assert st1.disk.list == [cj] by {
      PutDiskShape(env, cfg, st0.disk, j, v.(storedAt := now));
      assert Without(st0.disk.list, j) == [];
    }
    var st2 := After(env, cfg, [PutOp(j, v, now), PutOp(k, w, now)]);
    assert st2.disk == PutDisk(env, cfg, st1.disk, k, w.(storedAt := now)) by {
      AfterPush(env, cfg, [PutOp(j, v, now)], PutOp(k, w, now));
    }
    assert Fit(Without([cj], k), cfg.diskMax - |w.body|) == [cj] by {
      assert Without([cj], k) == [cj] && Total([cj]) == |v.body|;
    }
    PutDiskShape(env, cfg, st1.disk, k, w.(storedAt := now));
  }

  // Two entries, j stored before k: when the listing happens to name k's file first,
  // the restart puts j in front, and k would be evicted before it.
  lemma RestartForgetsOrder(env: Env, cfg: Config, j: string, v: Entry, k: string, w: Entry, now: int)
    requires Ideal(env) && Validated(cfg) && cfg.diskOn && j != k && j != "" && k != ""
    requires Fits(v, cfg.maxObject, cfg.maxBytes) && Fits(w, cfg.maxObject, cfg.maxBytes)
    requires |v.body| + |w.body| <= cfg.diskMax
    requires Live(v.expiresAt, now) && Live(w.expiresAt, now)
    ensures var st := After(env, cfg, [PutOp(j, v, now), PutOp(k, w, now)]);
      var listing := [env.hash(k), env.hash(j)];
      var after := Load(env, cfg, st.disk.fs, st.disk.log, listing, now).disk.list;
      && IsListing(st.disk.fs, listing)
      && |st.disk.list| == 2 && st.disk.list[0].key == k && st.disk.list[1].key == j
      && |after| == 2 && after[0].key == j && after[1].key == k
  {
    var ops := [PutOp(j, v, now), PutOp(k, w, now)];
    var st := After(env, cfg, ops);
    TwoStored(env, cfg, j, v, k, w, now);
    var latest := LatestOfTwo(env, cfg, j, v, k, w, now);
    assert {j, k} <= Keys(st.disk.list) by {
      assert st.disk.list[0] in st.disk.list && st.disk.list[1] in st.disk.list;
    }
    assert env.hash(j) != env.hash(k);
    TwoFiles(env, cfg, st, latest, j, k);
    TwoReloaded(env, cfg, st, latest, j, k, now);
  }

  lemma LatestOfTwo(env: Env, cfg: Config, j: string, v: Entry, k: string, w: Entry, now: int) returns (latest: Latest)
    requires Ideal(env) && Validated(cfg) && j != k
    requires Fits(v, cfg.maxObject, cfg.maxBytes) && Fits(w, cfg.maxObject, cfg.maxBytes)
    ensures Inv(env, cfg, After(env, cfg, [PutOp(j, v, now), PutOp(k, w, now)]), latest)
    ensures latest.Keys == {j, k} && latest[j].expiresAt == v.expiresAt && latest[k].expiresAt == w.expiresAt
  {
    var ops := [PutOp(j, v, now), PutOp(k, w, now)];
    latest := RunKeeps(env, cfg, ops);
    TwoLatest(cfg, j, v, k, w, now);
    assert forall x :: x in latest <==> LatestPut(cfg, ops, x).Some?;
  }

  lemma TwoFiles(env: Env, cfg: Config, st: State, latest: Latest, j: string, k: string)
    requires Ideal(env) && cfg.diskOn && Inv(env, cfg, st, latest) && j != k
    requires latest.Keys == {j, k} && {j, k} <= Keys(st.disk.list)
    ensures IsListing(st.disk.fs, [env.hash(k), env.hash(j)])
  {
    assert env.hash(j) != env.hash(k);
    assert Holds(env, st.disk.fs, j, latest[j]) && Holds(env, st.disk.fs, k, latest[k]);
  }

  lemma TwoReloaded(env: Env, cfg: Config, st: State, latest: Latest, j: string, k: string, now: int)
    requires Ideal(env) && Validated(cfg) && cfg.diskOn && Inv(env, cfg, st, latest) && j != k && j != "" && k != ""
    requires latest.Keys == {j, k} && {j, k} <= Keys(st.disk.list) && env.hash(j) != env.hash(k)
    requires Live(latest[j].expiresAt, now) && Live(latest[k].expiresAt, now)
    requires IsListing(st.disk.fs, [env.hash(k), env.hash(j)])
    ensures var after := Load(env, cfg, st.disk.fs, st.disk.log, [env.hash(k), env.hash(j)], now).disk.list;
      |after| == 2 && after[0].key == j && after[1].key == k
  {
    var listing := [env.hash(k), env.hash(j)];
    var after := Load(env, cfg, st.disk.fs, st.disk.log, listing, now).disk.list;
    assert {j, k} <= Keys(after) by {
      RestartKeepsDisk(env, cfg, st, listing, now, latest);
    }
    LoadedCells(env, cfg, st, listing, now, latest);
    TwoListed(env, after, j, k);
  }

  lemma TwoLatest(cfg: Config, j: string, v: Entry, k: string, w: Entry, now: int)
    requires Fits(v, cfg.maxObject, cfg.maxBytes) && Fits(w, cfg.maxObject, cfg.maxBytes)
    ensures var ops := [PutOp(j, v, now), PutOp(k, w, now)];
      && (forall x :: LatestPut(cfg, ops, x).Some? <==> x == j || x == k)
      && (j != k ==> LatestPut(cfg, ops, j) == Some(v.(storedAt := now)))
      && LatestPut(cfg, ops, k) == Some(w.(storedAt := now))
  {
    var ops := [PutOp(j, v, now), PutOp(k, w, now)];
    assert ops[..1] == [PutOp(j, v, now)] && [PutOp(j, v, now)][..0] == [];
    forall x ensures LatestPut(cfg, ops, x).Some? <==> x == j || x == k {
      assert LatestPut(cfg, ops[..1], x).Some? <==> x == j;
    }
  }

  lemma TwoListed(env: Env, list: seq<Cell<DiskRef>>, j: string, k: string)
    requires Distinct(list) && {j, k} <= Keys(list) && j != k
    requires forall c :: c in list ==> (c.key == j || c.key == k) && c.val.hash == env.hash(c.key)
    requires env.hash(j) != env.hash(k) && InListingOrder(list, [env.hash(k), env.hash(j)])
    ensures |list| == 2 && list[0].key == j && list[1].key == k
  {
    var listing := [env.hash(k), env.hash(j)];
    var a :| 0 <= a < |list| && list[a].key == j;
    var b :| 0 <= b < |list| && list[b].key == k;
    assert list[a] in list && list[b] in list;
    assert Position(listing, env.hash(k)) == 0 && Position(listing, env.hash(j)) == 1 by {
      assert listing[..1] == [env.hash(k)] && listing[0] == env.hash(k) && listing[1] == env.hash(j);
    }
    assert a < b;
    forall i | 0 <= i < |list| ensures list[i] == list[a] || list[i] == list[b] {
      assert list[i] in list;
    }
    assert list[0] == list[a] && a == 0;
    assert list[1] == list[b] && list[|list| - 1] == list[b];
  }
}
