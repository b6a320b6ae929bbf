// What the library JSON cache computes, on values: a byte-budgeted recency list
// whose entries expire and can be dropped per backend and token.
module LibModel {
  import opened Prelude
  import opened Recency
  import opened CacheKeys
  import opened Paths

  type Header = map<string, seq<string>>

  datatype Entry = Entry(backend: string, status: int, header: Header, body: seq<byte>, contentType: string,
                         hits: int, storedAt: int, expiresAt: Expiry)

  datatype Config = Config(ttl: int, maxBytes: int, maxObject: int)

  /* What the operations compute */

  predicate Fits(cfg: Config, e: Entry) {
    0 < |e.body| <= cfg.maxObject && |e.body| <= cfg.maxBytes
  }

  // The entry as stored at now.
  function Stamped(cfg: Config, e: Entry, now: int): Entry {
    e.(storedAt := now, expiresAt := if e.expiresAt.Never? && cfg.ttl > 0 then At(now + cfg.ttl) else e.expiresAt)
  }

  function Put(cfg: Config, s: seq<Cell<Entry>>, key: string, e: Entry, now: int): (seq<Cell<Entry>>, bool) {
    if Fits(cfg, e) then (Insert(s, Cell(key, |e.body|, Stamped(cfg, e, now)), cfg.maxBytes), true) else (s, false)
  }

  function Get(s: seq<Cell<Entry>>, key: string, now: int): (seq<Cell<Entry>>, Option<Entry>) {
    match Find(s, key)
    case None => (s, None)
    case Some(c) =>
      if Live(c.val.expiresAt, now) then
        var e := c.val.(hits := c.val.hits + 1);
        (Touch(s, c.(val := e)), Some(e))
      else (Without(s, key), None)
  }

  // The cells DropToken leaves, in their order.
  function Kept(s: seq<Cell<Entry>>, backend: string, tokenHash: string): seq<Cell<Entry>> {
    if |s| == 0 then []
    else if OfToken(s[0].key, backend, tokenHash) then Kept(s[1..], backend, tokenHash)
    else [s[0]] + Kept(s[1..], backend, tokenHash)
  }

  function DropToken(s: seq<Cell<Entry>>, backend: string, tokenHash: string): seq<Cell<Entry>> {
    if backend == "" || tokenHash == "" then s else Kept(s, backend, tokenHash)
  }

  // A proxied request that may change what its token sees; tokenHash is that of the
  // empty token too.
  datatype Mutation = Mutation(backend: string, tokenHash: string, hasToken: bool, verb: string, path: string)

  // maybeInvalidateLibrary drops on this answer.
  predicate Invalidates(m: Mutation, status: int) {
    m.hasToken && 200 <= status < 300 && IsInvalidateRequest(m.verb, m.path)
  }

  function Respond(s: seq<Cell<Entry>>, m: Mutation, status: int): seq<Cell<Entry>> {
    if Invalidates(m, status) then DropToken(s, m.backend, m.tokenHash) else s
  }

  /* Facts about them */

  lemma {:induction false} KeptIsFilter(s: seq<Cell<Entry>>, backend: string, tokenHash: string)
    ensures var r := Kept(s, backend, tokenHash);
      && (forall c :: c in r <==> c in s && !OfToken(c.key, backend, tokenHash))
      && (Distinct(s) ==> Distinct(r))
      && |r| <= |s| && Total(r) <= Total(s)
  {
    if |s| != 0 {
      var head, tail := s[0], s[1..];
      assert s == [head] + tail;
      KeptIsFilter(tail, backend, tokenHash);
      var r := Kept(tail, backend, tokenHash);
      assert ([head] + r)[1..] == r;
      if Distinct(s) {
        DistinctTail(s);
        PrependDistinct(head, r);
      }
    }
  }

  lemma DistinctTail(s: seq<Cell<Entry>>)
    requires Distinct(s) && |s| > 0
    ensures Distinct(s[1..]) && forall c :: c in s[1..] ==> c.key != s[0].key
  {
    assert forall i :: 0 <= i < |s| - 1 ==> s[1..][i] == s[i + 1];
  }

  lemma PrependDistinct(head: Cell<Entry>, r: seq<Cell<Entry>>)
    requires Distinct(r) && forall c :: c in r ==> c.key != head.key
    ensures Distinct([head] + r)
  {
    var t := [head] + r;
    assert forall i :: 0 < i < |t| ==> t[i] == r[i - 1] && r[i - 1] in r;
  }

  lemma TailOrdered(s: seq<Cell<Entry>>, use: map<string, nat>)
    requires MostRecentFirst(s, use) && |s| > 0
    ensures MostRecentFirst(s[1..], use) && s[0].key in use
    ensures forall c :: c in s[1..] ==> c.key in use && use[c.key] < use[s[0].key]
  {
    assert forall i :: 0 <= i < |s| - 1 ==> s[1..][i] == s[i + 1];
    assert forall c :: c in s[1..] ==> c in s;
  }

  lemma ConsOrdered(head: Cell<Entry>, r: seq<Cell<Entry>>, use: map<string, nat>)
    requires MostRecentFirst(r, use) && head.key in use
    requires forall c :: c in r ==> c.key in use && use[c.key] < use[head.key]
    ensures MostRecentFirst([head] + r, use)
  {
    var t := [head] + r;
    assert forall i :: 0 < i < |t| ==> t[i] == r[i - 1] && r[i - 1] in r;
  }

  // DropToken keeps recency: two kept cells stay in the order they had.
  lemma {:induction false} KeptInOrder(s: seq<Cell<Entry>>, backend: string, tokenHash: string, use: map<string, nat>)
    requires MostRecentFirst(s, use)
    ensures MostRecentFirst(Kept(s, backend, tokenHash), use)
  {
    if |s| != 0 {
      TailOrdered(s, use);
      KeptInOrder(s[1..], backend, tokenHash, use);
      KeptIsFilter(s[1..], backend, tokenHash);
      ConsOrdered(s[0], Kept(s[1..], backend, tokenHash), use);
    }
  }

  // A cell of Key(b, h, ...) goes exactly when it belongs to the dropped token.
  lemma DropIsExact(s: seq<Cell<Entry>>, backend: string, tokenHash: string,
                    c: Cell<Entry>, b: string, h: string, m: string, p: string, q: string)
    requires c in s && c.key == LibraryKey(b, h, m, p, q)
    requires OneLine(b) && OneLine(h) && OneLine(backend) && OneLine(tokenHash) && backend != "" && tokenHash != ""
    ensures c in DropToken(s, backend, tokenHash) <==> !(b == backend && h == tokenHash)
  {
    KeptIsFilter(s, backend, tokenHash);
    PrefixIsToken(b, h, m, p, q, backend, tokenHash);
  }

  // Over every operation: within budget, sizes true, no key twice.
  ghost predicate Shape(cfg: Config, s: seq<Cell<Entry>>) {
    Distinct(s) && Total(s) <= cfg.maxBytes && forall c :: c in s ==> c.size == |c.val.body|
  }

  lemma PutInShape(cfg: Config, s: seq<Cell<Entry>>, key: string, e: Entry, now: int)
    requires Shape(cfg, s)
    ensures Shape(cfg, Put(cfg, s, key, e, now).0)
  {
    if Fits(cfg, e) {
      InsertKeeps(s, Cell(key, |e.body|, Stamped(cfg, e, now)), cfg.maxBytes);
    }
  }

  lemma GetInShape(cfg: Config, s: seq<Cell<Entry>>, key: string, now: int)
    requires Shape(cfg, s)
    ensures Shape(cfg, Get(s, key, now).0)
  {
    var f := Find(s, key);
    if f.Some? {
      var c := f.value;
      var c' := c.(val := c.val.(hits := c.val.hits + 1));
      if Live(c.val.expiresAt, now) {
        assert Get(s, key, now).0 == Touch(s, c');
        TouchKeeps(s, c, c');
      } else {
        assert Get(s, key, now).0 == Without(s, key);
        WithoutKeeps(s, key);
      }
    }
  }

  // c is a cell of s, at most with another hit counted.
  ghost predicate Recounted(s: seq<Cell<Entry>>, c: Cell<Entry>) {
    exists b :: b in s && b.key == c.key && c.val.(hits := b.val.hits) == b.val
  }

  // A lookup invents no cell.
  lemma GetOnlyMoves(s: seq<Cell<Entry>>, key: string, now: int)
    requires Distinct(s)
    ensures var r := Get(s, key, now).0;
      Distinct(r) && forall c :: c in r ==> Recounted(s, c)
  {
    var f := Find(s, key);
    if f.Some? {
      var c := f.value;
      var c' := c.(val := c.val.(hits := c.val.hits + 1));
      if Live(c.val.expiresAt, now) {
        assert Get(s, key, now).0 == Touch(s, c');
        TouchKeeps(s, c, c');
        assert c'.val.(hits := c.val.hits) == c.val;
      } else {
        assert Get(s, key, now).0 == Without(s, key);
        WithoutKeeps(s, key);
      }
    }
  }

  lemma DropInShape(cfg: Config, s: seq<Cell<Entry>>, backend: string, tokenHash: string)
    requires Shape(cfg, s)
    ensures Shape(cfg, DropToken(s, backend, tokenHash))
  {
    KeptIsFilter(s, backend, tokenHash);
  }

  // Put evicts the shortest least recently used suffix that makes the body fit.
  lemma PutEvictsExactly(cfg: Config, s: seq<Cell<Entry>>, key: string, e: Entry, now: int, use: map<string, nat>,
                         tick: nat)
    requires Distinct(s) && MostRecentFirst(s, use) && Fits(cfg, e)
    requires forall k :: k in use ==> use[k] < tick
    ensures var r := Put(cfg, s, key, e, now).0;
      && |r| > 0 && r[0] == Cell(key, |e.body|, Stamped(cfg, e, now))
      && EvictedExactly(Without(s, key), r[1..], use, |e.body|, cfg.maxBytes)
      && MostRecentFirst(r, use[key := tick])
  {
    InsertEvictsExactly(s, Cell(key, |e.body|, Stamped(cfg, e, now)), cfg.maxBytes, use);
    InsertOrdered(s, Cell(key, |e.body|, Stamped(cfg, e, now)), cfg.maxBytes, use, tick);
  }

  lemma HitIsMostRecent(s: seq<Cell<Entry>>, key: string, now: int, use: map<string, nat>, tick: nat)
    requires Distinct(s) && MostRecentFirst(s, use)
    requires forall k :: k in use ==> use[k] < tick
    ensures var (r, hit) := Get(s, key, now);
      MostRecentFirst(r, if hit.Some? then use[key := tick] else use)
  {
    var f := Find(s, key);
    if f.Some? {
      FrontOrdered(s, f.value.(val := f.value.val.(hits := f.value.val.hits + 1)), use, tick);
      WithoutKeepsOrder(s, key, use);
    }
  }

  lemma {:induction false} KeptAppend(a: seq<Cell<Entry>>, b: seq<Cell<Entry>>, backend: string, tokenHash: string)
    ensures Kept(a + b, backend, tokenHash) == Kept(a, backend, tokenHash) + Kept(b, backend, tokenHash)
  {
    if |a| == 0 {
      assert a + b == b;
    } else {
      assert (a + b)[1..] == a[1..] + b;
      KeptAppend(a[1..], b, backend, tokenHash);
    }
  }

  // Removing one of the token's cells does not change what is kept in the end.
  lemma KeptWithout(s: seq<Cell<Entry>>, c: Cell<Entry>, backend: string, tokenHash: string)
    requires Distinct(s) && c in s && OfToken(c.key, backend, tokenHash)
    ensures Kept(Without(s, c.key), backend, tokenHash) == Kept(s, backend, tokenHash)
  {
    FindUnique(s, c);
    var i := IndexOf(s, c.key);
    assert s == s[..i] + ([c] + s[i + 1..]);
    KeptAppend(s[..i], [c] + s[i + 1..], backend, tokenHash);
    KeptAppend(s[..i], s[i + 1..], backend, tokenHash);
    assert ([c] + s[i + 1..])[1..] == s[i + 1..];
  }

  lemma {:induction false} KeptAll(s: seq<Cell<Entry>>, backend: string, tokenHash: string)
    requires forall c :: c in s ==> !OfToken(c.key, backend, tokenHash)
    ensures Kept(s, backend, tokenHash) == s
  {
    if |s| != 0 {
      KeptAll(s[1..], backend, tokenHash);
    }
  }
}
