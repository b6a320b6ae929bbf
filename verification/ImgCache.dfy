// The image cache as it runs: lists, indexes and byte counters updated in
// place, and the directory behind them.
module ImgCache {
  import opened Prelude
  import opened Recency
  import opened Files
  import opened ImgModel
  import opened ImgProofs

  class Cache {
    const env: Env
    const cfg: Config
    const dir: Directory
    var ll: seq<Cell<Entry>>
    var idx: map<string, Cell<Entry>>
    var n: int
    var diskLL: seq<Cell<DiskRef>>
    var diskIdx: map<string, Cell<DiskRef>>
    var diskN: int

    ghost function DiskState(): Disk
      reads this`diskLL, dir
    {
      Disk(diskLL, dir.files, dir.trace)
    }

    ghost function Contents(): State
      reads this, dir
    {
      State(ll, DiskState())
    }

    ghost predicate MemAgreed()
      reads this`ll, this`idx, this`n
    {
      Agree(ll, idx, n)
    }

    ghost predicate DiskAgreed()
      reads this`diskLL, this`diskIdx, this`diskN
    {
      Agree(diskLL, diskIdx, diskN)
    }

    ghost predicate Agreed()
      reads this
    {
      MemAgreed() && DiskAgreed() && Validated(cfg)
    }

    ghost predicate Valid()
      reads this, dir
    {
      Agreed() && Shape(cfg, Contents())
    }

    constructor (env: Env, cfg: Config, dir: Directory, listing: seq<string>, now: int)
      requires Validated(cfg)
      modifies dir
      ensures Valid() && this.env == env && this.cfg == cfg && this.dir == dir
      ensures Contents() == Load(env, cfg, old(dir.files), old(dir.trace), listing, now)
    {
      this.env, this.cfg, this.dir := env, cfg, dir;
      ll, idx, n := [], map[], 0;
      diskLL, diskIdx, diskN := [], map[], 0;
      new;
      LoadShape(env, cfg, dir.files, dir.trace, listing, now);
      LoadDisk(listing, now);
    }

    method LoadDisk(listing: seq<string>, now: int)
      requires DiskAgreed() && Validated(cfg) && diskLL == []
      modifies this`diskLL, this`diskIdx, this`diskN, dir
      ensures DiskAgreed()
      ensures DiskState() == Load(env, cfg, old(dir.files), old(dir.trace), listing, now).disk
    {
      ghost var d := DiskState();
      assert d == Disk([], dir.files, dir.trace);
      if !cfg.diskOn {
        return;
      }
      LoadListing(listing, now);
      ghost var loaded := DiskState();
      assert loaded == LoadAll(env, d, listing, now);
      if cfg.diskMax > 0 {
        EvictDisk(0);
      }
    }

    // loadDisk's loop
    method LoadListing(listing: seq<string>, now: int)
      requires DiskAgreed()
      modifies this`diskLL, this`diskIdx, this`diskN, dir
      ensures DiskAgreed()
      ensures DiskState() == LoadAll(env, old(DiskState()), listing, now)
    {
      for i := 0 to |listing|
        invariant DiskAgreed()
        invariant DiskState() == LoadAll(env, old(DiskState()), listing[..i], now)
      {
        assert listing[..i + 1][..i] == listing[..i];
        LoadFile(listing[i], now);
      }
      assert listing[..|listing|] == listing;
    }

    // The body of loadDisk's loop
    method LoadFile(hash: string, now: int)
      requires DiskAgreed()
      modifies this`diskLL, this`diskIdx, this`diskN, dir
      ensures DiskAgreed()
      ensures DiskState() == LoadOne(env, old(DiskState()), hash, now)
    {
      if Meta(hash) !in dir.files {
        RemoveDiskFiles(hash);
        return;
      }
      var meta := env.decode(dir.files[Meta(hash)]);
      if meta.None? || meta.value.key == "" || meta.value.size <= 0 {
        RemoveDiskFiles(hash);
        return;
      }
      if !Live(meta.value.expiresAt, now) {
        RemoveDiskFiles(hash);
        return;
      }
      if Bin(hash) !in dir.files || |dir.files[Bin(hash)]| != meta.value.size {
        RemoveDiskFiles(hash);
        return;
      }
      AddDiskIndex(meta.value.key, hash, meta.value.size, meta.value.expiresAt);
    }

    // The eviction loop of loadDisk (size 0) and putDiskLocked.
    method EvictDisk(size: nat)
      requires DiskAgreed() && size <= cfg.diskMax
      modifies this`diskLL, this`diskIdx, this`diskN, dir
      ensures DiskAgreed() && diskN + size <= cfg.diskMax
      ensures DiskState() == Evict(old(DiskState()), cfg.diskMax - size)
    {
      while diskN + size > cfg.diskMax && |diskLL| > 0
        invariant DiskAgreed()
        invariant Evict(DiskState(), cfg.diskMax - size) == Evict(old(DiskState()), cfg.diskMax - size)
        decreases |diskLL|
      {
        EvictDiskBack();
      }
    }

    // removeDiskIndexLocked(back, true)
    method EvictDiskBack()
      requires DiskAgreed() && |diskLL| > 0
      modifies this`diskLL, this`diskIdx, this`diskN, dir
      ensures DiskAgreed() && |diskLL| < |old(diskLL)|
      ensures var last := |old(diskLL)| - 1;
        DiskState() == RemoveFiles(old(DiskState()).(list := old(diskLL)[..last]), old(diskLL)[last].val.hash)
    {
      RemoveLast(diskLL);
      RemoveDiskIndex(diskLL[|diskLL| - 1], true);
    }

    method AddDiskIndex(key: string, hash: string, size: nat, expires: Expiry)
      requires DiskAgreed()
      modifies this`diskLL, this`diskIdx, this`diskN, dir
      ensures DiskAgreed()
      ensures DiskState() == AddIndex(old(DiskState()), key, hash, size, expires)
    {
      ForgetDiskKey(key);
      var it := Cell(key, size, DiskRef(hash, expires));
      AgreePush(diskLL, diskIdx, diskN, it);
      diskLL := [it] + diskLL;
      diskIdx := diskIdx[key := it];
      diskN := diskN + size;
    }

    // The entry leaves the disk index, but its files stay: the write replaces them.
    method ForgetDiskKey(key: string)
      requires DiskAgreed()
      modifies this`diskLL, this`diskIdx, this`diskN, dir
      ensures DiskAgreed() && key !in Keys(diskLL)
      ensures DiskState() == old(DiskState()).(list := Without(old(diskLL), key))
    {
      AgreeLookup(diskLL, diskIdx, diskN, key);
      if key in diskIdx {
        RemoveDiskIndex(diskIdx[key], false);
      }
    }

    method RemoveDiskIndex(it: Cell<DiskRef>, deleteFiles: bool)
      requires DiskAgreed() && it in diskLL
      modifies this`diskLL, this`diskIdx, this`diskN, dir
      ensures DiskAgreed() && it.key !in Keys(diskLL)
      ensures DiskState() ==
        var d := old(DiskState()).(list := Without(old(diskLL), it.key));
        if deleteFiles then RemoveFiles(d, it.val.hash) else d
    {
      AgreeRemove(diskLL, diskIdx, diskN, it);
      diskN := diskN - it.size;
      diskN := if diskN < 0 then 0 else diskN;
      diskIdx := diskIdx - {it.key};
      diskLL := Without(diskLL, it.key);
      if deleteFiles {
        RemoveDiskFiles(it.val.hash);
      }
    }

    method RemoveDiskFiles(hash: string)
      modifies dir
      ensures DiskState() == RemoveFiles(old(DiskState()), hash)
    {
      if hash == "" {
        assert dir.trace + [] == dir.trace;
        return;
      }
      ApplyFour(Remove(Meta(hash)), Remove(Bin(hash)), Remove(MetaTmp(hash)), Remove(BinTmp(hash)), dir.files);
      dir.RemoveFile(Meta(hash));
      dir.RemoveFile(Bin(hash));
      dir.RemoveFile(MetaTmp(hash));
      dir.RemoveFile(BinTmp(hash));
    }

    method WriteDiskFiles(hash: string, meta: DiskMeta, body: Bytes, fault: Fault) returns (ok: bool)
      modifies dir
      ensures ok == fault.NoFault?
      ensures DiskState() == Run(old(DiskState()), WriteOpsWith(hash, env.encode(meta), body, fault))
    {
      var raw := env.encode(meta);
      ok := WriteTemporaries(hash, raw, body, fault);
      if !ok {
        return;
      }
      ok := RenameTemporaries(hash, fault);
      RunRun(old(DiskState()), TmpOps(hash, raw, body, fault), RenameOps(hash, fault));
    }

    // Its first half
    method WriteTemporaries(hash: string, raw: Bytes, body: Bytes, fault: Fault) returns (ok: bool)
      modifies dir
      ensures ok == (fault.NoFault? || fault.op > 1)
      ensures DiskState() == Run(old(DiskState()), TmpOps(hash, raw, body, fault))
    {
      ghost var was := dir.files;
      if fault.Fails? && fault.op == 0 {
        dir.FailWrite(BinTmp(hash), body, fault.left);
        return false;
      }
      dir.WriteFile(BinTmp(hash), body);
      if fault.Fails? && fault.op == 1 {
        dir.FailWrite(MetaTmp(hash), raw, fault.left);
        dir.RemoveFile(BinTmp(hash));
        FailedSecond(was, Write(BinTmp(hash), body), Partial(MetaTmp(hash), raw, fault.left), Remove(BinTmp(hash)));
        return false;
      }
      dir.WriteFile(MetaTmp(hash), raw);
      ApplyTwo(Write(BinTmp(hash), body), Write(MetaTmp(hash), raw), was);
      return true;
    }

    // And its second
    method RenameTemporaries(hash: string, fault: Fault) returns (ok: bool)
      modifies dir
      ensures ok == fault.NoFault?
      ensures DiskState() == Run(old(DiskState()), RenameOps(hash, fault))
    {
      ghost var was := dir.files;
      if fault.Fails? && fault.op <= 2 {
        dir.RemoveFile(BinTmp(hash));
        dir.RemoveFile(MetaTmp(hash));
        ApplyTwo(Remove(BinTmp(hash)), Remove(MetaTmp(hash)), was);
        return false;
      }
      dir.RenameFile(BinTmp(hash), Bin(hash));
      if fault.Fails? {
        dir.RemoveFile(MetaTmp(hash));
        dir.RemoveFile(Bin(hash));
        ApplyThree(Rename(BinTmp(hash), Bin(hash)), Remove(MetaTmp(hash)), Remove(Bin(hash)), was);
        return false;
      }
      dir.RenameFile(MetaTmp(hash), Meta(hash));
      ApplyTwo(Rename(BinTmp(hash), Bin(hash)), Rename(MetaTmp(hash), Meta(hash)), was);
      return true;
    }

    method PutDiskLocked(key: string, ent: Entry, fault: Fault)
      requires DiskAgreed()
      modifies this`diskLL, this`diskIdx, this`diskN, dir
      ensures DiskAgreed()
      ensures DiskState() == PutDiskWith(env, cfg, old(DiskState()), key, ent, fault)
    {
      if !cfg.diskOn {
        return;
      }
      var size := |ent.body|;
      if size == 0 || size > cfg.maxObject || size > cfg.diskMax {
        return;
      }
      StoreOnDisk(key, ent, fault);
    }

    // putDiskLocked once the entry is known to fit
    method StoreOnDisk(key: string, ent: Entry, fault: Fault)
      requires DiskAgreed() && |ent.body| <= cfg.diskMax
      modifies this`diskLL, this`diskIdx, this`diskN, dir
      ensures DiskAgreed()
      ensures DiskState() == StowWith(env, MakeRoom(old(DiskState()), key, cfg.diskMax - |ent.body|), key, ent, fault)
    {
      ghost var d, room := DiskState(), cfg.diskMax - |ent.body|;
      MakeDiskRoom(key, |ent.body|);
      ghost var roomy := DiskState();
      assert roomy == MakeRoom(d, key, room);
      WriteAndIndex(key, env.hash(key), ent, fault);
      assert DiskState() == StowWith(env, roomy, key, ent, fault);
    }

    // putDiskLocked up to the write
    method MakeDiskRoom(key: string, size: nat)
      requires DiskAgreed() && size <= cfg.diskMax
      modifies this`diskLL, this`diskIdx, this`diskN, dir
      ensures DiskAgreed() && diskN + size <= cfg.diskMax
      ensures DiskState() == MakeRoom(old(DiskState()), key, cfg.diskMax - size)
    {
      ForgetDiskKey(key);
      EvictDisk(size);
      if diskN + size > cfg.diskMax {
        assert false;  // the loop leaves room
      }
    }

    // putDiskLocked from the write on
    method WriteAndIndex(key: string, hash: string, ent: Entry, fault: Fault)
      requires DiskAgreed() && hash == env.hash(key)
      modifies this`diskLL, this`diskIdx, this`diskN, dir
      ensures DiskAgreed()
      ensures DiskState() == StowWith(env, old(DiskState()), key, ent, fault)
    {
      var ok := WriteDiskFiles(hash, MetaOf(key, ent), ent.body, fault);
      if !ok {
        return;
      }
      AddDiskIndex(key, hash, |ent.body|, ent.expiresAt);
    }

    // The key may have left the index since its files were read.
    method DropDiskKey(key: string, hash: string)
      requires DiskAgreed()
      modifies this`diskLL, this`diskIdx, this`diskN, dir
      ensures DiskAgreed()
      ensures DiskState() ==
        if key in Keys(old(diskLL)) then Drop(old(DiskState()), key) else RemoveFiles(old(DiskState()), hash)
    {
      AgreeLookup(diskLL, diskIdx, diskN, key);
      if key in diskIdx {
        RemoveDiskIndex(diskIdx[key], true);
      } else {
        RemoveDiskFiles(hash);
      }
    }

    method RemoveLocked(it: Cell<Entry>)
      requires MemAgreed() && it in ll
      modifies this`ll, this`idx, this`n
      ensures MemAgreed()
      ensures ll == Without(old(ll), it.key) && it.key !in Keys(ll)
    {
      AgreeRemove(ll, idx, n, it);
      n := n - it.size;
      n := if n < 0 then 0 else n;
      idx := idx - {it.key};
      ll := Without(ll, it.key);
    }

    // The eviction loop of Put and putMemoryLocked.
    method EvictMemory(size: nat)
      requires MemAgreed() && size <= cfg.maxBytes
      modifies this`ll, this`idx, this`n
      ensures MemAgreed() && n + size <= cfg.maxBytes
      ensures ll == Fit(old(ll), cfg.maxBytes - size)
    {
      while n + size > cfg.maxBytes && |ll| > 0
        invariant MemAgreed()
        invariant Fit(ll, cfg.maxBytes - size) == Fit(old(ll), cfg.maxBytes - size)
        decreases |ll|
      {
        RemoveLast(ll);
        RemoveLocked(ll[|ll| - 1]);
      }
    }

    // An earlier entry of the key makes way for the new one.
    method ForgetKey(key: string)
      requires MemAgreed()
      modifies this`ll, this`idx, this`n
      ensures MemAgreed() && key !in Keys(ll)
      ensures ll == Without(old(ll), key)
    {
      AgreeLookup(ll, idx, n, key);
      if key in idx {
        RemoveLocked(idx[key]);
      }
    }

    method PushFront(it: Cell<Entry>)
      requires MemAgreed() && it.key !in Keys(ll)
      modifies this`ll, this`idx, this`n
      ensures MemAgreed()
      ensures ll == [it] + old(ll)
    {
      AgreePush(ll, idx, n, it);
      ll := [it] + ll;
      idx := idx[it.key := it];
      n := n + it.size;
    }

    // Removal of the old element, the eviction loop and PushFront, as both Put
    // and putMemoryLocked do them.
    method PushMemory(key: string, ent: Entry)
      requires MemAgreed() && |ent.body| <= cfg.maxBytes
      modifies this`ll, this`idx, this`n
      ensures MemAgreed()
      ensures ll == MemPush(cfg, old(ll), key, ent)
    {
      var size := |ent.body|;
      var cell := Cell(key, size, ent);
      ForgetKey(key);
      ghost var rest := Fit(ll, cfg.maxBytes - size);
      assert MemPush(cfg, old(ll), key, ent) == [cell] + rest;
      assert key !in Keys(rest) by {
        FitKeys(ll, cfg.maxBytes - size);
      }
      EvictMemory(size);
      assert ll == rest;
      if n + size > cfg.maxBytes {
        assert false;  // the loop leaves room
      }
      PushFront(cell);
    }

    method PutMemoryLocked(key: string, ent: Entry)
      requires MemAgreed()
      modifies this`ll, this`idx, this`n
      ensures MemAgreed()
      ensures ll == PutMemory(cfg, old(ll), key, ent)
    {
      var size := |ent.body|;
      if size == 0 || size > cfg.maxObject || size > cfg.maxBytes {
        return;
      }
      PushMemory(key, ent);
    }

    // fault is the failure of the disk write, if it comes to one; without it this is
    // ImgModel.Put.
    method Put(key: string, ent: Entry, now: int, fault: Fault) returns (stored: bool)
      requires Valid()
      modifies this, dir
      ensures Valid()
      ensures (Contents(), stored) == PutWith(env, cfg, old(Contents()), key, ent, now, fault)
      ensures fault.NoFault? ==> (Contents(), stored) == ImgModel.Put(env, cfg, old(Contents()), key, ent, now)
    {
      PutWithShape(env, cfg, Contents(), key, ent, now, fault);
      var size := |ent.body|;
      if size == 0 || size > cfg.maxObject || size > cfg.maxBytes {
        return false;
      }
      var kept := ent.(storedAt := now);
      PushMemory(key, kept);
      PutDiskLocked(key, kept, fault);
      return true;
    }

    method Get(key: string, now: int) returns (out: Option<Entry>)
      requires Valid()
      modifies this, dir
      ensures Valid()
      ensures (Contents(), out) == ImgModel.Get(env, cfg, old(Contents()), key, now)
    {
      GetShape(env, cfg, Contents(), key, now);
      out := LookupMemory(key, now);
      if out.None? {
        out := GetDisk(key, now);
      }
    }

    // Get while it holds the lock.
    method LookupMemory(key: string, now: int) returns (out: Option<Entry>)
      requires MemAgreed()
      modifies this`ll, this`idx, this`n
      ensures MemAgreed()
      ensures (ll, out) == GetMemory(old(ll), key, now)
    {
      AgreeLookup(ll, idx, n, key);
      GetMemoryCases(ll, key, now);
      if key !in idx {
        return None;
      }
      var it := idx[key];
      if Live(it.val.expiresAt, now) {
        MoveToFront(it);
        return Some(Hit(it).val);
      }
      RemoveLocked(it);
      return None;
    }

    // A hit is counted and comes to the front.
    method MoveToFront(it: Cell<Entry>)
      requires MemAgreed() && it in ll
      modifies this`ll, this`idx
      ensures MemAgreed() && ll == Touch(old(ll), Hit(it))
    {
      AgreeFront(ll, idx, n, it, Hit(it));
      ll := Touch(ll, Hit(it));
      idx := idx[it.key := Hit(it)];
    }

    method GetDisk(key: string, now: int) returns (out: Option<Entry>)
      requires Agreed()
      modifies this, dir
      ensures Agreed()
      ensures (Contents(), out) == ImgModel.GetDisk(env, cfg, old(Contents()), key, now)
    {
      AgreeLookup(diskLL, diskIdx, diskN, key);
      if !cfg.diskOn || key !in diskIdx {
        return None;
      }
      var it := diskIdx[key];
      if !Live(it.val.expires, now) {
        DropDiskKey(key, it.val.hash);
        return None;
      }
      var read := ReadPair(it.val.hash, now);
      if read.None? {
        DropDiskKey(key, it.val.hash);
        return None;
      }
      var ent := EntryOf(read.value.0, read.value.1);
      Promote(it, ent);
      return Some(ent);
    }

    // getDisk's reads and the checks on what they give.
    method ReadPair(hash: string, now: int) returns (read: Option<(DiskMeta, Bytes)>)
      ensures read == ReadFiles(env, dir.files, hash, now)
    {
      if Meta(hash) !in dir.files {
        return None;
      }
      var meta := env.decode(dir.files[Meta(hash)]);
      if meta.None? || Bin(hash) !in dir.files || |dir.files[Bin(hash)]| != meta.value.size {
        return None;
      }
      if !Live(meta.value.expiresAt, now) {
        return None;
      }
      return Some((meta.value, dir.files[Bin(hash)]));
    }

    // The hit moves to the front on disk and into memory.
    method Promote(it: Cell<DiskRef>, ent: Entry)
      requires Agreed() && it in diskLL && it.key in diskIdx && diskIdx[it.key] == it
      modifies this`ll, this`idx, this`n, this`diskLL
      ensures Agreed()
      ensures diskLL == Touch(old(diskLL), it) && ll == PutMemory(cfg, old(ll), it.key, ent)
    {
      MoveDiskToFront(it);
      PutMemoryLocked(it.key, ent);
    }

    method MoveDiskToFront(it: Cell<DiskRef>)
      requires DiskAgreed() && it in diskLL && it.key in diskIdx && diskIdx[it.key] == it
      modifies this`diskLL
      ensures DiskAgreed() && diskLL == Touch(old(diskLL), it)
    {
      AgreeFront(diskLL, diskIdx, diskN, it, it);
      assert diskIdx[it.key := it] == diskIdx;
      diskLL := Touch(diskLL, it);
    }
  }
}
