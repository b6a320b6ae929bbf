// Whole runs of the library cache: budget, recency and exact eviction.
module LibRuns {
  import opened Recency
  import opened LibModel

  datatype Op =
    | PutOp(key: string, ent: Entry, now: int)
    | GetOp(key: string, now: int)
    | DropOp(backend: string, tokenHash: string)

  function Step(cfg: Config, s: seq<Cell<Entry>>, op: Op): seq<Cell<Entry>> {
    match op
    case PutOp(key, ent, now) => Put(cfg, s, key, ent, now).0
    case GetOp(key, now) => Get(s, key, now).0
    case DropOp(backend, tokenHash) => DropToken(s, backend, tokenHash)
  }

  function After(cfg: Config, ops: seq<Op>): seq<Cell<Entry>> {
    if |ops| == 0 then [] else Step(cfg, After(cfg, ops[..|ops| - 1]), ops[|ops| - 1])
  }

  // When each key was last stored or hit.
  function UsesAfter(cfg: Config, ops: seq<Op>): map<string, nat> {
    if |ops| == 0 then map[]
    else
      var before, op := ops[..|ops| - 1], ops[|ops| - 1];
      var use, s := UsesAfter(cfg, before), After(cfg, before);
      match op
      case PutOp(key, ent, now) => if Fits(cfg, ent) then use[key := |before|] else use
      case GetOp(key, now) => if Get(s, key, now).1.Some? then use[key := |before|] else use
      case DropOp(_, _) => use
  }

  // Over every run the cache is within budget without duplicates, and its list is in
  // the order of last store or hit.
  lemma {:induction false} RunKeeps(cfg: Config, ops: seq<Op>)
    requires 0 <= cfg.maxBytes
    ensures Shape(cfg, After(cfg, ops))
    ensures MostRecentFirst(After(cfg, ops), UsesAfter(cfg, ops))
    ensures forall k :: k in UsesAfter(cfg, ops) ==> UsesAfter(cfg, ops)[k] < |ops|
  {
    if |ops| != 0 {
      var before, op := ops[..|ops| - 1], ops[|ops| - 1];
      RunKeeps(cfg, before);
      var s, use := After(cfg, before), UsesAfter(cfg, before);
      match op
      case PutOp(key, ent, now) =>
        PutInShape(cfg, s, key, ent, now);
        if Fits(cfg, ent) {
          PutEvictsExactly(cfg, s, key, ent, now, use, |before|);
        }
      case GetOp(key, now) =>
        GetInShape(cfg, s, key, now);
        HitIsMostRecent(s, key, now, use, |before|);
      case DropOp(backend, tokenHash) =>
        DropInShape(cfg, s, backend, tokenHash);
        KeptInOrder(s, backend, tokenHash, use);
    }
  }

  // So after every run a Put evicts exactly the shortest least recently used suffix.
  lemma RunPutEvictsExactly(cfg: Config, ops: seq<Op>, key: string, ent: Entry, now: int)
    requires 0 <= cfg.maxBytes && Fits(cfg, ent)
    ensures var s, r := After(cfg, ops), Put(cfg, After(cfg, ops), key, ent, now).0;
      && |r| > 0 && r[0] == Cell(key, |ent.body|, Stamped(cfg, ent, now))
      && EvictedExactly(Without(s, key), r[1..], UsesAfter(cfg, ops), |ent.body|, cfg.maxBytes)
  {
    RunKeeps(cfg, ops);
    PutEvictsExactly(cfg, After(cfg, ops), key, ent, now, UsesAfter(cfg, ops), |ops|);
  }
}
