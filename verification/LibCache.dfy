// The library cache as it runs: list, index and byte counter updated in place.
module LibCache {
  import opened Prelude
  import opened Recency
  import opened CacheKeys
  import opened LibModel
  import opened Paths

  class Cache {
    const cfg: Config
    var ll: seq<Cell<Entry>>
    var idx: map<string, Cell<Entry>>
    var n: int

    ghost predicate Valid()
      reads this
    {
      Agree(ll, idx, n) && Shape(cfg, ll)
    }

    constructor (cfg: Config)
      requires 0 <= cfg.maxBytes
      ensures Valid() && this.cfg == cfg && ll == []
    {
      this.cfg := cfg;
      ll, idx, n := [], map[], 0;
    }

    method RemoveLocked(it: Cell<Entry>)
      requires Agree(ll, idx, n) && it in ll
      modifies this
      ensures Agree(ll, idx, n)
      ensures ll == Without(old(ll), it.key) && it.key !in Keys(ll)
    {
      AgreeRemove(ll, idx, n, it);
      n := n - it.size;
      n := if n < 0 then 0 else n;
      idx := idx - {it.key};
      ll := Without(ll, it.key);
    }

    method Get(key: string, now: int) returns (out: Option<Entry>)
      requires Valid()
      modifies this
      ensures Valid()
      ensures (ll, out) == LibModel.Get(old(ll), key, now)
    {
      GetInShape(cfg, ll, key, now);
      AgreeLookup(ll, idx, n, key);
      if key !in idx {
        return None;
      }
      var it := idx[key];
      if !Live(it.val.expiresAt, now) {
        RemoveLocked(it);
        return None;
      }
      var hit := it.(val := it.val.(hits := it.val.hits + 1));
      AgreeFront(ll, idx, n, it, hit);
      ll := Touch(ll, hit);
      idx := idx[key := hit];
      return Some(hit.val);
    }

    // An earlier entry of the key makes way for the new one.
    method Forget(key: string)
      requires Agree(ll, idx, n)
      modifies this
      ensures Agree(ll, idx, n) && key !in Keys(ll)
      ensures ll == Without(old(ll), key)
    {
      AgreeLookup(ll, idx, n, key);
      if key in idx {
        RemoveLocked(idx[key]);
      }
    }

    method PushFront(it: Cell<Entry>)
      requires Agree(ll, idx, n) && it.key !in Keys(ll)
      modifies this
      ensures Agree(ll, idx, n)
      ensures ll == [it] + old(ll)
    {
      AgreePush(ll, idx, n, it);
      ll := [it] + ll;
      idx := idx[it.key := it];
      n := n + it.size;
    }

    method Evict(size: nat)
      requires Agree(ll, idx, n) && size <= cfg.maxBytes
      modifies this
      ensures Agree(ll, idx, n) && n + size <= cfg.maxBytes
      ensures ll == Fit(old(ll), cfg.maxBytes - size)
    {
      while n + size > cfg.maxBytes && |ll| > 0
        invariant Agree(ll, idx, n)
        invariant Fit(ll, cfg.maxBytes - size) == Fit(old(ll), cfg.maxBytes - size)
        decreases |ll|
      {
        RemoveLast(ll);
        RemoveLocked(ll[|ll| - 1]);
      }
    }

    method Put(key: string, ent: Entry, now: int) returns (stored: bool)
      requires Valid()
      modifies this
      ensures Valid()
      ensures (ll, stored) == LibModel.Put(cfg, old(ll), key, ent, now)
    {
      PutInShape(cfg, ll, key, ent, now);
      var size := |ent.body|;
      if size == 0 || size > cfg.maxObject || size > cfg.maxBytes {
        return false;
      }
      Store(Cell(key, size, Stamped(cfg, ent, now)));
      return true;
    }

    // Put from the removal of the old element on.
    method Store(it: Cell<Entry>)
      requires Agree(ll, idx, n) && it.size <= cfg.maxBytes
      modifies this
      ensures Agree(ll, idx, n)
      ensures ll == Insert(old(ll), it, cfg.maxBytes)
    {
      Forget(it.key);
      ghost var rest := Fit(ll, cfg.maxBytes - it.size);
      assert Insert(old(ll), it, cfg.maxBytes) == [it] + rest;
      assert it.key !in Keys(rest) by {
        FitIsLongestPrefix(ll, cfg.maxBytes - it.size);
        PrefixKeeps(ll, rest);
      }
      Evict(it.size);
      if n + it.size > cfg.maxBytes {
        assert false;  // the loop leaves room
      }
      PushFront(it);
    }

    // The first loop: the elements of the token.
    method ElementsOf(backend: string, tokenHash: string) returns (drop: seq<Cell<Entry>>)
      requires Distinct(ll)
      ensures Distinct(drop)
      ensures forall c :: c in drop <==> c in ll && OfToken(c.key, backend, tokenHash)
    {
      drop := [];
      for i := 0 to |ll|
        invariant Distinct(drop)
        invariant forall c :: c in drop <==> c in ll[..i] && OfToken(c.key, backend, tokenHash)
      {
        assert forall c :: c in ll[..i + 1] <==> c in ll[..i] || c == ll[i];
        if OfToken(ll[i].key, backend, tokenHash) {
          drop := drop + [ll[i]];
        }
      }
      assert ll[..|ll|] == ll;
    }

    method DropToken(backend: string, tokenHash: string)
      requires Valid()
      modifies this
      ensures Valid()
      ensures ll == LibModel.DropToken(old(ll), backend, tokenHash)
    {
      DropInShape(cfg, ll, backend, tokenHash);
      if backend == "" || tokenHash == "" {
        return;
      }
      var drop := ElementsOf(backend, tokenHash);
      for i := 0 to |drop|
        invariant Agree(ll, idx, n) && Distinct(drop)
        invariant Kept(ll, backend, tokenHash) == Kept(old(ll), backend, tokenHash)
        invariant forall c :: c in drop[i..] <==> c in ll && OfToken(c.key, backend, tokenHash)
      {
        var el := drop[i];
        assert el in drop[i..] && drop[i..] == [el] + drop[i + 1..];
        KeptWithout(ll, el, backend, tokenHash);
        WithoutKeeps(ll, el.key);
        RemoveLocked(el);
      }
      KeptAll(ll, backend, tokenHash);
    }

    method MaybeInvalidate(m: Mutation, status: int)
      requires Valid()
      modifies this
      ensures Valid()
      ensures ll == Respond(old(ll), m, status)
    {
      if !m.hasToken {
        return;
      }
      if status < 200 || status >= 300 {
        return;
      }
      if !IsInvalidateRequest(m.verb, m.path) {
        return;
      }
      DropToken(m.backend, m.tokenHash);
    }
  }
}
