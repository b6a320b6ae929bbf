// The library cache under concurrency: hops, warm fills, stores, lookups,
// mutations and drops interleave one step at a time.
module LibProtocol {
  import opened Prelude
  import opened Text
  import opened Recency
  import opened CacheKeys
  import opened LibModel

  datatype Req = Req(backend: string, tokenHash: string, verb: string, path: string, rawQuery: string)

  function KeyOf(r: Req): string {
    LibraryKey(r.backend, r.tokenHash, r.verb, r.path, r.rawQuery)
  }

  // Everything but the decoded path is free of newlines; hashes are never empty.
  predicate Sound(r: Req) {
    && OneLine(r.backend) && OneLine(r.tokenHash) && OneLine(ToUpper(r.verb)) && OneLine(r.rawQuery)
    && r.backend != "" && r.tokenHash != ""
  }

  predicate SameResource(a: Req, b: Req) {
    a.backend == b.backend && a.tokenHash == b.tokenHash && ToUpper(a.verb) == ToUpper(b.verb)
    && a.path == b.path && a.rawQuery == b.rawQuery
  }

  // How a hop names what the client asks for: a proxied or coalesced hop by the path
  // under that of the backend's URL (base, without trailing slashes), a warm hop by
  // the client's own path.
  datatype Via = Proxied(base: string) | Warm

  predicate Rooted(path: string) {
    |path| > 0 && path[0] == '/'
  }

  // singleJoiningSlash
  function HopPath(base: string, path: string): string {
    if Rooted(path) || base == "" then base + path else base + "/" + path
  }

  // The request under whose key the answer is stored.
  function Named(r: Req, via: Via): Req {
    match via
    case Proxied(base) => r.(path := HopPath(base, r.path))
    case Warm => r
  }

  function HopKey(r: Req, via: Via): string {
    KeyOf(Named(r, via))
  }

  datatype Event =
    | Fetch(id: nat, req: Req, via: Via, ent: Entry)  // the backend answers a hop for req
    | Prepare(id: nat)                      // the handler computes ExpiresAt = now + TTL
    | Store(id: nat)                        // Cache.Put
    | Abandon(id: nat)                      // the handler gives up: wrong status, too large, read error
    | Lookup(req: Req)                      // serveLibraryCached
    | Mutate(m: Mutation)                   // the backend applies a request that changes something
    | Respond(m: Mutation, status: int)     // its answer passes maybeInvalidateLibrary
    | Tick(d: nat)

  predicate SoundEvent(ev: Event) {
    && (ev.Fetch? || ev.Lookup? ==> Sound(ev.req))
    && (ev.Respond? ==> OneLine(ev.m.backend) && OneLine(ev.m.tokenHash) && ev.m.backend != "" && ev.m.tokenHash != "")
  }

  // The event drops the token's entries.
  predicate Drops(ev: Event, backend: string, tokenHash: string) {
    ev.Respond? && Invalidates(ev.m, ev.status) && ev.m.backend == backend && ev.m.tokenHash == tokenHash
  }

  // A hop in flight; fetchedAt is the index of its Fetch event.
  datatype Hop = Hop(req: Req, via: Via, ent: Entry, fetchedAt: nat, prepared: Option<int>)

  // Where the cell stored under a key came from.
  datatype Origin = Origin(req: Req, via: Via, ent: Entry, fetchedAt: nat, storedAt: nat, storedTime: int)

  datatype Sys = Sys(now: int, cache: seq<Cell<Entry>>, hops: map<nat, Hop>, origin: map<string, Origin>)

  // Event number n happens.
  function Step(cfg: Config, s: Sys, ev: Event, n: nat): Sys {
    match ev
    case Fetch(id, req, via, ent) =>
      s.(hops := s.hops[id := Hop(req, via, ent, n, None)])
    case Prepare(id) =>
      if id in s.hops then s.(hops := s.hops[id := s.hops[id].(prepared := Some(s.now + cfg.ttl))]) else s
    case Store(id) =>
      if id in s.hops && s.hops[id].prepared.Some? then
        var hop := s.hops[id];
        var key := HopKey(hop.req, hop.via);
        var (cache, ok) := Put(cfg, s.cache, key, hop.ent.(expiresAt := At(hop.prepared.value)), s.now);
        var o := Origin(hop.req, hop.via, hop.ent, hop.fetchedAt, n, s.now);
        s.(cache := cache, hops := s.hops - {id}, origin := if ok then s.origin[key := o] else s.origin)
      else s
    case Abandon(id) => s.(hops := s.hops - {id})
    case Lookup(req) => s.(cache := Get(s.cache, KeyOf(req), s.now).0)
    case Mutate(_) => s
    case Respond(m, status) => s.(cache := LibModel.Respond(s.cache, m, status))
    case Tick(d) => s.(now := s.now + d)
  }

  function Run(cfg: Config, start: int, evs: seq<Event>): Sys {
    if |evs| == 0 then Sys(start, [], map[], map[])
    else Step(cfg, Run(cfg, start, evs[..|evs| - 1]), evs[|evs| - 1], |evs| - 1)
  }

  ghost predicate SoundRun(evs: seq<Event>) {
    forall i :: 0 <= i < |evs| ==> SoundEvent(evs[i])
  }

  /* What every run keeps */

  // The latest fetch under this hop's id.
  ghost predicate LastFetch(evs: seq<Event>, until: nat, id: nat, req: Req, via: Via, ent: Entry, at: nat) {
    && at < until <= |evs| && evs[at] == Fetch(id, req, via, ent)
    && forall j :: at < j < until ==> !(evs[j].Fetch? && evs[j].id == id)
  }

  ghost predicate HopTrue(cfg: Config, evs: seq<Event>, now: int, id: nat, hop: Hop) {
    && Sound(hop.req)
    && LastFetch(evs, |evs|, id, hop.req, hop.via, hop.ent, hop.fetchedAt)
    && (hop.prepared.Some? ==> hop.prepared.value <= now + cfg.ttl)
  }

  ghost predicate OriginTrue(evs: seq<Event>, o: Origin) {
    && Sound(o.req)
    && o.fetchedAt < o.storedAt < |evs|
    && (exists id :: LastFetch(evs, o.storedAt, id, o.req, o.via, o.ent, o.fetchedAt) && evs[o.storedAt] == Store(id))
    && (forall d :: o.storedAt < d < |evs| ==> !Drops(evs[d], o.req.backend, o.req.tokenHash))
  }

  ghost predicate CellTrue(cfg: Config, evs: seq<Event>, s: Sys, c: Cell<Entry>) {
    && c.key in s.origin
    && var o := s.origin[c.key];
       && OriginTrue(evs, o) && HopKey(o.req, o.via) == c.key
       && c.val.body == o.ent.body && c.val.status == o.ent.status && c.val.storedAt == o.storedTime
       && c.val.expiresAt.At? && c.val.expiresAt.t <= o.storedTime + cfg.ttl
       && o.storedTime <= s.now
  }

  ghost predicate Inv(cfg: Config, evs: seq<Event>, s: Sys) {
    && Distinct(s.cache)
    && (forall id :: id in s.hops ==> HopTrue(cfg, evs, s.now, id, s.hops[id]))
    && (forall c :: c in s.cache ==> CellTrue(cfg, evs, s, c))
  }

  lemma OriginLater(evs: seq<Event>, ev: Event, o: Origin)
    requires OriginTrue(evs, o) && !Drops(ev, o.req.backend, o.req.tokenHash)
    ensures OriginTrue(evs + [ev], o)
  {
    var evs' := evs + [ev];
    var id :| LastFetch(evs, o.storedAt, id, o.req, o.via, o.ent, o.fetchedAt) && evs[o.storedAt] == Store(id);
    assert LastFetch(evs', o.storedAt, id, o.req, o.via, o.ent, o.fetchedAt) && evs'[o.storedAt] == Store(id);
  }

  // c is a cell of s, possibly with another hit counted, that ev does not drop.
  ghost predicate Survivor(s: Sys, ev: Event, c: Cell<Entry>) {
    exists b :: b in s.cache && b.key == c.key && c.val.(hits := b.val.hits) == b.val
      && b.key in s.origin && !Drops(ev, s.origin[b.key].req.backend, s.origin[b.key].req.tokenHash)
  }

  lemma SurvivorTrue(cfg: Config, evs: seq<Event>, s: Sys, ev: Event, s': Sys, c: Cell<Entry>)
    requires forall c :: c in s.cache ==> CellTrue(cfg, evs, s, c)
    requires s'.origin == s.origin || (c.key in s.origin && c.key in s'.origin && s'.origin[c.key] == s.origin[c.key])
    requires s.now <= s'.now && Survivor(s, ev, c)
    ensures CellTrue(cfg, evs + [ev], s', c)
  {
    var b :| b in s.cache && b.key == c.key && c.val.(hits := b.val.hits) == b.val
      && b.key in s.origin && !Drops(ev, s.origin[b.key].req.backend, s.origin[b.key].req.tokenHash);
    assert CellTrue(cfg, evs, s, b);
    OriginLater(evs, ev, s.origin[b.key]);
  }

  lemma HopsLater(cfg: Config, evs: seq<Event>, s: Sys, ev: Event, now: int)
    requires s.now <= now && forall id :: id in s.hops ==> HopTrue(cfg, evs, s.now, id, s.hops[id])
    ensures forall id :: id in s.hops && !(ev.Fetch? && ev.id == id) ==> HopTrue(cfg, evs + [ev], now, id, s.hops[id])
  {
  }

  // The cell a store adds.
  function StoredCell(cfg: Config, s: Sys, id: nat): Cell<Entry>
    requires id in s.hops && s.hops[id].prepared.Some?
  {
    var hop := s.hops[id];
    var ent := hop.ent.(expiresAt := At(hop.prepared.value));
    Cell(HopKey(hop.req, hop.via), |ent.body|, Stamped(cfg, ent, s.now))
  }

  lemma StoredTrue(cfg: Config, evs: seq<Event>, s: Sys, id: nat)
    requires id in s.hops && s.hops[id].prepared.Some? && HopTrue(cfg, evs, s.now, id, s.hops[id])
    requires Fits(cfg, s.hops[id].ent)
    ensures CellTrue(cfg, evs + [Store(id)], Step(cfg, s, Store(id), |evs|), StoredCell(cfg, s, id))
  {
    var ev, hop := Store(id), s.hops[id];
    var evs', s' := evs + [ev], Step(cfg, s, ev, |evs|);
    var o := s'.origin[HopKey(hop.req, hop.via)];
    assert o == Origin(hop.req, hop.via, hop.ent, hop.fetchedAt, |evs|, s.now);
    assert LastFetch(evs', o.storedAt, id, o.req, o.via, o.ent, o.fetchedAt) && evs'[o.storedAt] == Store(id);
    assert OriginTrue(evs', o);
  }

  // A store leaves the truth of the cells under other keys, and of all when refused.
  lemma OthersTrue(cfg: Config, evs: seq<Event>, s: Sys, id: nat, c: Cell<Entry>)
    requires Inv(cfg, evs, s) && id in s.hops && s.hops[id].prepared.Some? && c in s.cache
    requires c.key != HopKey(s.hops[id].req, s.hops[id].via) || !Fits(cfg, s.hops[id].ent)
    ensures CellTrue(cfg, evs + [Store(id)], Step(cfg, s, Store(id), |evs|), c)
  {
    assert CellTrue(cfg, evs, s, c) && Survivor(s, Store(id), c);
    SurvivorTrue(cfg, evs, s, Store(id), Step(cfg, s, Store(id), |evs|), c);
  }

  lemma StoredCells(cfg: Config, s: Sys, id: nat, n: nat)
    requires id in s.hops && s.hops[id].prepared.Some? && Distinct(s.cache)
    ensures var s' := Step(cfg, s, Store(id), n);
      && Distinct(s'.cache)
      && forall c :: c in s'.cache ==>
           (Fits(cfg, s.hops[id].ent) && c == StoredCell(cfg, s, id))
           || (c in s.cache && (c.key != HopKey(s.hops[id].req, s.hops[id].via) || !Fits(cfg, s.hops[id].ent)))
  {
    if Fits(cfg, s.hops[id].ent) {
      InsertKeeps(s.cache, StoredCell(cfg, s, id), cfg.maxBytes);
      assert Step(cfg, s, Store(id), n).cache == Insert(s.cache, StoredCell(cfg, s, id), cfg.maxBytes);
    }
  }

  lemma StoreKeeps(cfg: Config, evs: seq<Event>, s: Sys, id: nat)
    requires Inv(cfg, evs, s) && id in s.hops && s.hops[id].prepared.Some?
    ensures Inv(cfg, evs + [Store(id)], Step(cfg, s, Store(id), |evs|))
  {
    var s' := Step(cfg, s, Store(id), |evs|);
    HopsLater(cfg, evs, s, Store(id), s.now);
    StoredCells(cfg, s, id, |evs|);
    forall c | c in s'.cache ensures CellTrue(cfg, evs + [Store(id)], s', c) {
      if c in s.cache && (c.key != HopKey(s.hops[id].req, s.hops[id].via) || !Fits(cfg, s.hops[id].ent)) {
        OthersTrue(cfg, evs, s, id, c);
      } else {
        StoredTrue(cfg, evs, s, id);
      }
    }
  }

  lemma LookupKeeps(cfg: Config, evs: seq<Event>, s: Sys, req: Req)
    requires Inv(cfg, evs, s)
    ensures Inv(cfg, evs + [Lookup(req)], Step(cfg, s, Lookup(req), |evs|))
  {
    var ev := Lookup(req);
    var s' := Step(cfg, s, ev, |evs|);
    HopsLater(cfg, evs, s, ev, s.now);
    GetOnlyMoves(s.cache, KeyOf(req), s.now);
    forall c | c in s'.cache ensures CellTrue(cfg, evs + [ev], s', c) {
      assert Recounted(s.cache, c);
      var b :| b in s.cache && b.key == c.key && c.val.(hits := b.val.hits) == b.val;
      assert CellTrue(cfg, evs, s, b) && Survivor(s, ev, c);
      SurvivorTrue(cfg, evs, s, ev, s', c);
    }
  }

  // An entry the drop leaves belongs to another token.
  lemma KeptTrue(cfg: Config, evs: seq<Event>, s: Sys, m: Mutation, status: int, c: Cell<Entry>)
    requires Inv(cfg, evs, s) && SoundEvent(Respond(m, status)) && Invalidates(m, status)
    requires c in s.cache && !OfToken(c.key, m.backend, m.tokenHash)
    ensures CellTrue(cfg, evs + [Respond(m, status)], Step(cfg, s, Respond(m, status), |evs|), c)
  {
    assert CellTrue(cfg, evs, s, c);
    var r := s.origin[c.key].req;
    PrefixIsToken(r.backend, r.tokenHash, r.verb, r.path, r.rawQuery, m.backend, m.tokenHash);
    assert Survivor(s, Respond(m, status), c);
    SurvivorTrue(cfg, evs, s, Respond(m, status), Step(cfg, s, Respond(m, status), |evs|), c);
  }

  lemma DropKeeps(cfg: Config, evs: seq<Event>, s: Sys, m: Mutation, status: int)
    requires Inv(cfg, evs, s) && SoundEvent(Respond(m, status)) && Invalidates(m, status)
    ensures Inv(cfg, evs + [Respond(m, status)], Step(cfg, s, Respond(m, status), |evs|))
  {
    var ev := Respond(m, status);
    var s' := Step(cfg, s, ev, |evs|);
    assert s'.cache == Kept(s.cache, m.backend, m.tokenHash) && s'.hops == s.hops && s'.now == s.now;
    HopsLater(cfg, evs, s, ev, s.now);
    KeptIsFilter(s.cache, m.backend, m.tokenHash);
    forall c | c in s'.cache ensures CellTrue(cfg, evs + [ev], s', c) {
      KeptTrue(cfg, evs, s, m, status, c);
    }
  }

  // Steps that leave the cached cells alone.
  lemma QuietKeeps(cfg: Config, evs: seq<Event>, s: Sys, ev: Event)
    requires Inv(cfg, evs, s) && SoundEvent(ev) && (ev.Respond? ==> !Invalidates(ev.m, ev.status))
    requires var s' := Step(cfg, s, ev, |evs|); s'.cache == s.cache && s'.origin == s.origin
    ensures Inv(cfg, evs + [ev], Step(cfg, s, ev, |evs|))
  {
    var s' := Step(cfg, s, ev, |evs|);
    HopsLater(cfg, evs, s, ev, s'.now);
    forall c | c in s'.cache ensures CellTrue(cfg, evs + [ev], s', c) {
      assert CellTrue(cfg, evs, s, c) && Survivor(s, ev, c);
      SurvivorTrue(cfg, evs, s, ev, s', c);
    }
  }

  lemma {:induction false} RunKeeps(cfg: Config, start: int, evs: seq<Event>)
    requires SoundRun(evs)
    ensures Inv(cfg, evs, Run(cfg, start, evs))
  {
    if |evs| != 0 {
      var before, ev := evs[..|evs| - 1], evs[|evs| - 1];
      var s := Run(cfg, start, before);
      assert SoundRun(before) && SoundEvent(ev) by {
        assert forall i :: 0 <= i < |before| ==> before[i] == evs[i];
      }
      assert evs == before + [ev] && Run(cfg, start, evs) == Step(cfg, s, ev, |before|);
      RunKeeps(cfg, start, before);
      StepKeeps(cfg, before, s, ev);
    }
  }

  lemma StepKeeps(cfg: Config, evs: seq<Event>, s: Sys, ev: Event)
    requires Inv(cfg, evs, s) && SoundEvent(ev)
    ensures Inv(cfg, evs + [ev], Step(cfg, s, ev, |evs|))
  {
    match ev
    case Store(id) =>
      if id in s.hops && s.hops[id].prepared.Some? {
        StoreKeeps(cfg, evs, s, id);
      } else {
        QuietKeeps(cfg, evs, s, ev);
      }
    case Lookup(req) => LookupKeeps(cfg, evs, s, req);
    case Respond(m, status) =>
      if Invalidates(m, status) {
        DropKeeps(cfg, evs, s, m, status);
      } else {
        QuietKeeps(cfg, evs, s, ev);
      }
    case _ => QuietKeeps(cfg, evs, s, ev);
  }

  /* What a hit means */

  // The answer of a lookup made after evs.
  function Answer(cfg: Config, start: int, evs: seq<Event>, req: Req): Option<Entry> {
    var s := Run(cfg, start, evs);
    Get(s.cache, KeyOf(req), s.now).1
  }

  // A hit replays an answer the backend gave earlier in the run to a request that its
  // hop named as this one, stored no longer ago than the TTL and not before the last
  // drop of its token.
  lemma HitIsFresh(cfg: Config, start: int, evs: seq<Event>, req: Req) returns (o: Origin)
    requires SoundRun(evs) && Sound(req) && Answer(cfg, start, evs, req).Some?
    ensures var e, now := Answer(cfg, start, evs, req).value, Run(cfg, start, evs).now;
      && e.body == o.ent.body && e.status == o.ent.status
      && SameResource(req, Named(o.req, o.via))
      && OriginTrue(evs, o)
      && e.storedAt == o.storedTime && now - cfg.ttl <= o.storedTime <= now
  {
    var s := Run(cfg, start, evs);
    RunKeeps(cfg, start, evs);
    var c := Find(s.cache, KeyOf(req)).value;
    assert CellTrue(cfg, evs, s, c);
    o := s.origin[c.key];
    var r := Named(o.req, o.via);
    LibraryKeySeparates(r.backend, r.tokenHash, r.verb, r.path, r.rawQuery,
                        req.backend, req.tokenHash, req.verb, req.path, req.rawQuery);
  }

  lemma HopPathIsOwn(base: string, path: string)
    ensures HopPath(base, path) == path <==> base == ""
  {
    assert |HopPath(base, path)| >= |base| + |path|;
    if base == "" {
      assert "" + path == path;
    }
  }

  // It is an answer to the very request that is asked exactly when the hop was a warm
  // one, or the backend's URL has no path of its own.
  lemma HitIsOwnExactlyWhen(cfg: Config, start: int, evs: seq<Event>, req: Req) returns (o: Origin)
    requires SoundRun(evs) && Sound(req) && Answer(cfg, start, evs, req).Some?
    ensures Answer(cfg, start, evs, req).value.body == o.ent.body && OriginTrue(evs, o)
    ensures SameResource(req, o.req) <==> o.via.Warm? || o.via.base == ""
  {
    o := HitIsFresh(cfg, start, evs, req);
    if o.via.Proxied? {
      HopPathIsOwn(o.via.base, o.req.path);
    }
  }

  ghost predicate DroppedBetween(evs: seq<Event>, req: Req, i: nat, j: nat) {
    exists d :: i < d < j && d < |evs| && Drops(evs[d], req.backend, req.tokenHash)
  }

  // The exact exception: a hit returns a body fetched before an earlier drop of
  // its token if and only if a drop fell between that very body's fetch and store.
  lemma StaleIffDropBetweenFetchAndStore(cfg: Config, start: int, evs: seq<Event>, req: Req) returns (o: Origin)
    requires SoundRun(evs) && Sound(req) && Answer(cfg, start, evs, req).Some?
    ensures Answer(cfg, start, evs, req).value.body == o.ent.body
    ensures SameResource(req, Named(o.req, o.via)) && OriginTrue(evs, o)
    ensures DroppedBetween(evs, req, o.fetchedAt, |evs|) <==> DroppedBetween(evs, req, o.fetchedAt, o.storedAt)
  {
    o := HitIsFresh(cfg, start, evs, req);
    if DroppedBetween(evs, req, o.fetchedAt, |evs|) {
      var d :| o.fetchedAt < d < |evs| && Drops(evs[d], req.backend, req.tokenHash);
      assert d != o.storedAt;
      assert o.fetchedAt < d < o.storedAt;
    }
  }

  // In terms of the mutation itself: once its invalidating answer is through, a hit
  // returns a body fetched before the mutation if and only if mutation and answer
  // both fell between that very body's fetch and store.
  lemma StaleIffMutationBetweenFetchAndStore(cfg: Config, start: int, evs: seq<Event>, req: Req, i: nat, j: nat)
      returns (o: Origin)
    requires SoundRun(evs) && Sound(req) && Answer(cfg, start, evs, req).Some?
    requires i < j < |evs| && evs[i].Mutate? && evs[j].Respond? && evs[j].m == evs[i].m
    requires Drops(evs[j], req.backend, req.tokenHash)
    ensures Answer(cfg, start, evs, req).value.body == o.ent.body
    ensures SameResource(req, Named(o.req, o.via)) && OriginTrue(evs, o)
    ensures o.fetchedAt < i <==> o.fetchedAt < i < j < o.storedAt
  {
    o := HitIsFresh(cfg, start, evs, req);
    assert evs[o.storedAt].Store?;
  }

  // The exception is real: for every request, storable answer and invalidating
  // mutation this run ends with a hit on a body fetched before the mutation.
  lemma StaleHitHappens(cfg: Config, start: int, req: Req, via: Via, ent: Entry, m: Mutation, status: int)
    requires Sound(req) && Fits(cfg, ent) && 0 <= cfg.ttl
    requires Invalidates(m, status) && m.backend == req.backend && m.tokenHash == req.tokenHash
    ensures var evs := [Fetch(0, req, via, ent), Mutate(m), Respond(m, status), Prepare(0), Store(0)];
      SoundRun(evs) && Answers(cfg, start, evs, Named(req, via), ent)
  {
    var e3 := [Fetch(0, req, via, ent), Mutate(m), Respond(m, status)];
    var evs := [Fetch(0, req, via, ent), Mutate(m), Respond(m, status), Prepare(0), Store(0)];
    assert e3 + [Prepare(0)] + [Store(0)] == evs;
    FetchThenDrop(cfg, start, req, via, ent, m, status);
    StoreOfFirstHop(cfg, start, e3, req, via, ent);
    AnswersFirstPut(cfg, start, evs, req, via, ent);
    forall i | 0 <= i < |evs| ensures SoundEvent(evs[i]) {
      assert i == 0 || i == 1 || i == 2 || i == 3 || i == 4;
    }
  }

  predicate Answers(cfg: Config, start: int, evs: seq<Event>, req: Req, ent: Entry) {
    Answer(cfg, start, evs, req).Some? && Answer(cfg, start, evs, req).value.body == ent.body
  }

  // The only hop is prepared and stored into the empty cache.
  ghost predicate FirstStored(cfg: Config, start: int, s: Sys, req: Req, via: Via, ent: Entry) {
    s.now == start && s.cache == Put(cfg, [], HopKey(req, via), ent.(expiresAt := At(start + cfg.ttl)), start).0
  }

  lemma StoreOfFirstHop(cfg: Config, start: int, evs: seq<Event>, req: Req, via: Via, ent: Entry)
    requires Run(cfg, start, evs) == Sys(start, [], map[0 := Hop(req, via, ent, 0, None)], map[])
    ensures FirstStored(cfg, start, Run(cfg, start, evs + [Prepare(0)] + [Store(0)]), req, via, ent)
  {
    RunPush(cfg, start, evs, Prepare(0));
    RunPush(cfg, start, evs + [Prepare(0)], Store(0));
  }

  lemma AnswersFirstPut(cfg: Config, start: int, evs: seq<Event>, req: Req, via: Via, ent: Entry)
    requires FirstStored(cfg, start, Run(cfg, start, evs), req, via, ent) && Fits(cfg, ent) && 0 <= cfg.ttl
    ensures Answers(cfg, start, evs, Named(req, via), ent)
  {
    FirstPutAnswers(cfg, HopKey(req, via), ent.(expiresAt := At(start + cfg.ttl)), start);
  }

  lemma FetchThenDrop(cfg: Config, start: int, req: Req, via: Via, ent: Entry, m: Mutation, status: int)
    ensures Run(cfg, start, [Fetch(0, req, via, ent), Mutate(m), Respond(m, status)]) ==
      Sys(start, [], map[0 := Hop(req, via, ent, 0, None)], map[])
  {
    var none: seq<Event> := [];
    var e1 := [Fetch(0, req, via, ent)];
    assert none + e1 == e1;
    assert e1 + [Mutate(m)] + [Respond(m, status)] == [Fetch(0, req, via, ent), Mutate(m), Respond(m, status)];
    RunPush(cfg, start, none, Fetch(0, req, via, ent));
    RunPush(cfg, start, e1, Mutate(m));
    RunPush(cfg, start, e1 + [Mutate(m)], Respond(m, status));
  }

  lemma FirstPutAnswers(cfg: Config, key: string, ent: Entry, now: int)
    requires Fits(cfg, ent) && ent.expiresAt.At? && now <= ent.expiresAt.t
    ensures var cache := Put(cfg, [], key, ent, now).0;
      Get(cache, key, now).1.Some? && Get(cache, key, now).1.value.body == ent.body
  {
    var cache := Put(cfg, [], key, ent, now).0;
    assert cache[0] == Cell(key, |ent.body|, ent.(storedAt := now));
    assert Find(cache, key) == Some(cache[0]);
  }

  lemma RunPush(cfg: Config, start: int, evs: seq<Event>, ev: Event)
    ensures Run(cfg, start, evs + [ev]) == Step(cfg, Run(cfg, start, evs), ev, |evs|)
  {
    assert (evs + [ev])[..|evs|] == evs;
  }

  // One hop, stored into the empty cache.
  function OneHop(req: Req, via: Via, ent: Entry): seq<Event> {
    [Fetch(0, req, via, ent), Prepare(0), Store(0)]
  }

  lemma OneHopStores(cfg: Config, start: int, req: Req, via: Via, ent: Entry)
    ensures FirstStored(cfg, start, Run(cfg, start, OneHop(req, via, ent)), req, via, ent)
  {
    var none: seq<Event> := [];
    var e1 := [Fetch(0, req, via, ent)];
    assert none + e1 == e1 && e1 + [Prepare(0)] + [Store(0)] == OneHop(req, via, ent);
    RunPush(cfg, start, none, Fetch(0, req, via, ent));
    StoreOfFirstHop(cfg, start, e1, req, via, ent);
  }

  // A backend whose URL has a path: the request that was proxied and stored is not
  // found when it comes again, and one that spells out the backend's path gets its
  // answer.
  lemma OneHopIsFound(cfg: Config, start: int, req: Req, base: string, ent: Entry)
    requires Sound(req) && Fits(cfg, ent) && 0 <= cfg.ttl
    ensures var evs := OneHop(req, Proxied(base), ent);
      && (Answer(cfg, start, evs, req).Some? <==> base == "")
      && Answers(cfg, start, evs, req.(path := HopPath(base, req.path)), ent)
  {
    var evs, via := OneHop(req, Proxied(base), ent), Proxied(base);
    OneHopStores(cfg, start, req, via, ent);
    AnswersFirstPut(cfg, start, evs, req, via, ent);
    HopPathIsOwn(base, req.path);
    var r := Named(req, via);
    LibraryKeySeparates(r.backend, r.tokenHash, r.verb, r.path, r.rawQuery,
                        req.backend, req.tokenHash, req.verb, req.path, req.rawQuery);
    assert Run(cfg, start, evs).cache == [StoredFirst(cfg, start, req, via, ent)];
  }

  // Its cell.
  function StoredFirst(cfg: Config, start: int, req: Req, via: Via, ent: Entry): Cell<Entry> {
    Cell(HopKey(req, via), |ent.body|, ent.(expiresAt := At(start + cfg.ttl), storedAt := start))
  }

  /* Atomic request handling */

  // Every request runs alone: a store directly follows its own fetch and
  // preparation, and a mutation is directly followed by its answer.
  ghost predicate Atomic(evs: seq<Event>) {
    && (forall i :: 0 <= i < |evs| && evs[i].Store? ==>
          i >= 2 && evs[i - 1] == Prepare(evs[i].id) && evs[i - 2].Fetch? && evs[i - 2].id == evs[i].id)
    && (forall i :: 0 <= i < |evs| && evs[i].Mutate? ==>
          i + 1 < |evs| && evs[i + 1].Respond? && evs[i + 1].m == evs[i].m)
  }

  // Then no hit of a token after its own invalidating mutation on the same backend
  // returns a body fetched or stored before it.
  lemma AtomicRunsAreCoherent(cfg: Config, start: int, evs: seq<Event>, req: Req, i: nat)
    requires SoundRun(evs) && Atomic(evs) && Sound(req) && Answer(cfg, start, evs, req).Some?
    requires i < |evs| && evs[i].Mutate? && evs[i].m.backend == req.backend && evs[i].m.tokenHash == req.tokenHash
    requires Invalidates(evs[i].m, evs[i + 1].status)
    ensures exists o: Origin ::
      && Answer(cfg, start, evs, req).value.body == o.ent.body && SameResource(req, Named(o.req, o.via))
      && OriginTrue(evs, o) && i < o.fetchedAt < o.storedAt
  {
    var o := HitIsFresh(cfg, start, evs, req);
    var id :| LastFetch(evs, o.storedAt, id, o.req, o.via, o.ent, o.fetchedAt) && evs[o.storedAt] == Store(id);
    assert evs[o.storedAt - 1] == Prepare(id) && evs[o.storedAt - 2].Fetch?;
    assert o.fetchedAt == o.storedAt - 2;
    assert Drops(evs[i + 1], req.backend, req.tokenHash);
    assert i + 1 <= o.storedAt;
  }

  // And any other mutation leaves the old body answered, even with atomic handling:
  // one of another token or backend, or one that is not invalidating by its method,
  // path, token or status.
  lemma UnseenMutationStaysStale(cfg: Config, start: int, req: Req, via: Via, ent: Entry, m: Mutation, status: int)
    requires Sound(req) && Fits(cfg, ent) && 0 <= cfg.ttl
    requires OneLine(m.backend) && OneLine(m.tokenHash) && m.backend != "" && m.tokenHash != ""
    requires !(Invalidates(m, status) && m.backend == req.backend && m.tokenHash == req.tokenHash)
    ensures var evs := OneHop(req, via, ent) + [Mutate(m)] + [Respond(m, status)];
      SoundRun(evs) && Atomic(evs) && Answers(cfg, start, evs, Named(req, via), ent)
  {
    var evs := OneHop(req, via, ent) + [Mutate(m)] + [Respond(m, status)];
    OneHopStores(cfg, start, req, via, ent);
    assert Run(cfg, start, OneHop(req, via, ent)).cache == [StoredFirst(cfg, start, req, via, ent)];
    var r := Named(req, via);
    PrefixIsToken(r.backend, r.tokenHash, r.verb, r.path, r.rawQuery, m.backend, m.tokenHash);
    UnseenKeeps(cfg, start, OneHop(req, via, ent), m, status);
    AnswersFirstPut(cfg, start, evs, req, via, ent);
    UnseenRunIsAtomic(req, via, ent, m, status);
  }

  lemma UnseenKeeps(cfg: Config, start: int, evs: seq<Event>, m: Mutation, status: int)
    requires Invalidates(m, status) ==>
      forall c :: c in Run(cfg, start, evs).cache ==> !OfToken(c.key, m.backend, m.tokenHash)
    ensures Run(cfg, start, evs + [Mutate(m)] + [Respond(m, status)]) == Run(cfg, start, evs)
  {
    RunPush(cfg, start, evs, Mutate(m));
    RunPush(cfg, start, evs + [Mutate(m)], Respond(m, status));
    if Invalidates(m, status) {
      KeptAll(Run(cfg, start, evs).cache, m.backend, m.tokenHash);
    }
  }

  lemma UnseenRunIsAtomic(req: Req, via: Via, ent: Entry, m: Mutation, status: int)
    requires Sound(req) && OneLine(m.backend) && OneLine(m.tokenHash) && m.backend != "" && m.tokenHash != ""
    ensures var evs := OneHop(req, via, ent) + [Mutate(m)] + [Respond(m, status)];
      SoundRun(evs) && Atomic(evs)
  {
    var evs := OneHop(req, via, ent) + [Mutate(m)] + [Respond(m, status)];
    forall i | 0 <= i < |evs| ensures SoundEvent(evs[i]) && (evs[i].Store? ==> i == 2) && (evs[i].Mutate? ==> i == 3) {
      assert i == 0 || i == 1 || i == 2 || i == 3 || i == 4;
    }
    assert evs[0] == Fetch(0, req, via, ent) && evs[1] == Prepare(0) && evs[2] == Store(0);
    assert evs[4] == Respond(m, status);
  }

  // For instance any PATCH, whatever it is applied to.
  lemma PatchIsUnseen(m: Mutation, status: int)
    requires ToUpper(m.verb) == "PATCH"
    ensures !Invalidates(m, status)
  {
    assert "PATCH"[1] == 'A' && "POST"[1] == 'O' && |"PUT"| == 3 && |"DELETE"| == 6;
  }
}
