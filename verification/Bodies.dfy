// Response bodies on their way to the client: buffered for a rewrite, peeked at
// by the caches, or read once for every coalesced waiter.
module Bodies {
  import opened Prelude
  import opened CacheControl
  import opened Text
  import opened Paths

  type Bytes = seq<byte>

  // What is left to read: some bytes, then the end of the stream or an error.  An
  // eager error already comes with the last bytes.  Errors are sticky.
  datatype End = Eof | Fails(eager: bool)
  datatype Stream = Stream(data: Bytes, end: End)

  // Everything a reader gets: the bytes, and whether they end in an error.
  function Readable(s: Stream): (Bytes, bool) {
    (s.data, s.end.Fails?)
  }

  datatype Taken = Taken(raw: Bytes, err: bool, rest: Stream)

  // io.ReadAll(io.LimitReader(s, limit))
  function ReadLimited(s: Stream, limit: int): Taken {
    if limit <= 0 then Taken([], false, s)
    else if |s.data| > limit then Taken(s.data[..limit], false, Stream(s.data[limit..], s.end))
    else Taken(s.data, s.end.Fails? && (|s.data| < limit || s.end.eager), Stream([], s.end))
  }

  // io.MultiReader(bytes.NewReader(raw), rest)
  function Multi(raw: Bytes, rest: Stream): Stream {
    Stream(raw + rest.data, rest.end)
  }

  // The limit max+1 as the source computes it.
  function LimitFor(max: int): int {
    Wrap64(max + 1)
  }

  // Reading at most max bytes, putting back what was read when there is more.
  datatype Peeked = Peeked(whole: Option<Bytes>, body: Stream)

  function Peek(s: Stream, max: int): Peeked {
    var t := ReadLimited(s, LimitFor(max));
    if t.err || |t.raw| > max then Peeked(None, Multi(t.raw, t.rest)) else Peeked(Some(t.raw), Stream(t.raw, Eof))
  }

  function Rewritten(s: Stream, max: int, fn: Bytes -> Bytes): Stream {
    var p := Peek(s, max);
    if p.whole.Some? then Stream(fn(p.whole.value), Eof) else p.body
  }

  // Peeking never changes what the client reads, and sees the body exactly when
  // it is complete and within max.
  lemma PeekConserves(s: Stream, max: int)
    requires -1 <= max < MAX_INT64
    ensures Readable(Peek(s, max).body) == Readable(s)
    ensures Peek(s, max).whole == if s.end.Eof? && |s.data| <= max then Some(s.data) else None
  {
    var t := ReadLimited(s, LimitFor(max));
    if max == -1 {
      assert t.raw + t.rest.data == s.data;
    } else if |s.data| > max + 1 {
      assert s.data[..max + 1] + s.data[max + 1..] == s.data;
    } else {
      assert s.data + [] == s.data;
    }
  }

  // With max at the largest int64 the limit wraps, and only the empty body survives.
  lemma PeekConservesExactlyWhen(s: Stream, max: int)
    requires -1 <= max <= MAX_INT64
    ensures Readable(Peek(s, max).body) == Readable(s) <==> max < MAX_INT64 || (s.data == [] && s.end.Eof?)
  {
    if max < MAX_INT64 {
      PeekConserves(s, max);
    } else {
      assert LimitFor(max) == MIN_INT64;
    }
  }

  // A buffered rewrite applies to complete bodies within max; any other body is
  // passed on byte for byte, error included.
  lemma RewriteConserves(s: Stream, max: int, fn: Bytes -> Bytes)
    requires -1 <= max < MAX_INT64
    ensures Readable(Rewritten(s, max, fn)) ==
      if s.end.Eof? && |s.data| <= max then (fn(s.data), false) else Readable(s)
  {
    PeekConserves(s, max);
  }

  /* Requests, responses and the two stores */

  // path is the client's; hopPath is that of the hop, under the path of the backend's
  // URL.
  datatype Request = Request(verb: string, path: string, hopPath: string, token: string)

  // None: that cache is off.
  datatype Caches = Caches(imageMax: Option<int>, libraryMax: Option<int>, defaultTTL: int, maxTTL: int)

  class Response {
    const status: int
    const contentType: string
    const cacheControl: string
    var contentLength: int
    var body: Stream

    constructor (status: int, contentType: string, cacheControl: string, contentLength: int, body: Stream)
      ensures this.status == status && this.contentType == contentType && this.cacheControl == cacheControl
      ensures this.contentLength == contentLength && this.body == body
    {
      this.status, this.contentType, this.cacheControl := status, contentType, cacheControl;
      this.contentLength, this.body := contentLength, body;
    }

    // maybeStoreImage's conditions on the hop and the headers
    predicate ImageClass(caches: Caches, r: Request) {
      && caches.imageMax.Some? && IsCacheableRequest(r.verb, r.hopPath) && status == 200
      && "image/" <= ToLower(contentType)
      && Lifetime(cacheControl, caches.defaultTTL, caches.maxTTL).Some?
    }

    // maybeStoreLibrary's conditions on the hop and the headers
    predicate LibraryClass(caches: Caches, r: Request) {
      && caches.libraryMax.Some? && r.token != "" && IsLibraryRequest(r.verb, r.hopPath) && status == 200
      && Contains(ToLower(contentType), "json")
    }

    method BufferAndRewrite(max: int, fn: Bytes -> Bytes)
      modifies this
      ensures body == Rewritten(old(body), max, fn)
    {
      var t := ReadLimited(body, LimitFor(max));
      if t.err || |t.raw| > max {
        body := Multi(t.raw, t.rest);
        return;
      }
      var out := fn(t.raw);
      body := Stream(out, Eof);
      contentLength := |out|;
    }

    // The body offered to Cache.Put, if any.
    method MaybeStoreImage(caches: Caches, r: Request) returns (put: Option<Bytes>)
      modifies this
      ensures if ImageClass(caches, r) && old(contentLength) <= caches.imageMax.value
        then put == Peek(old(body), caches.imageMax.value).whole && body == Peek(old(body), caches.imageMax.value).body
        else put == None && body == old(body) && contentLength == old(contentLength)
      ensures put.None? ==> contentLength == old(contentLength)
      ensures put.Some? ==> contentLength == |put.value|
    {
      if !ImageClass(caches, r) || contentLength > caches.imageMax.value {
        return None;
      }
      var max := caches.imageMax.value;
      var t := ReadLimited(body, LimitFor(max));
      if t.err {
        body := Multi(t.raw, t.rest);
        return None;
      }
      if |t.raw| > max {
        body := Multi(t.raw, t.rest);
        return None;
      }
      body := Stream(t.raw, Eof);
      contentLength := |t.raw|;
      return Some(t.raw);
    }

    method MaybeStoreLibrary(caches: Caches, r: Request) returns (put: Option<Bytes>)
      modifies this
      ensures if LibraryClass(caches, r) && !(old(contentLength) > caches.libraryMax.value && old(contentLength) > 0)
        then
          && put == Peek(old(body), caches.libraryMax.value).whole
          && body == Peek(old(body), caches.libraryMax.value).body
        else put == None && body == old(body)
    {
      if !LibraryClass(caches, r) {
        return None;
      }
      if contentLength > caches.libraryMax.value && contentLength > 0 {
        return None;
      }
      var max := caches.libraryMax.value;
      var t := ReadLimited(body, LimitFor(max));
      if t.err {
        body := Multi(t.raw, t.rest);
        return None;
      }
      if |t.raw| > max {
        body := Multi(t.raw, t.rest);
        return None;
      }
      body := Stream(t.raw, Eof);
      contentLength := |t.raw|;
      return Some(t.raw);
    }
  }

  // Limits as validation and practice leave them: the sum max+1 does not wrap.
  predicate Sane(caches: Caches) {
    && (caches.imageMax.Some? ==> -1 <= caches.imageMax.value < MAX_INT64)
    && (caches.libraryMax.Some? ==> -1 <= caches.libraryMax.value < MAX_INT64)
  }

  datatype Rewrite = Keep | Buffer(max: int, fn: Bytes -> Bytes)

  // What the client should read once the rewrite has had its chance.
  function Expected(s: Stream, rw: Rewrite): (Bytes, bool) {
    if rw.Buffer? && s.end.Eof? && |s.data| <= rw.max then (rw.fn(s.data), false) else Readable(s)
  }

  // ModifyResponse of the reverse proxy, the part that handles the body: for every
  // body and read error the client reads the backend's bytes (or their rewrite),
  // and what a cache is given is that whole body.
  method ModifyResponse(caches: Caches, r: Request, res: Response, rw: Rewrite)
      returns (image: Option<Bytes>, library: Option<Bytes>)
    requires Sane(caches) && (rw.Buffer? ==> -1 <= rw.max < MAX_INT64)
    modifies res
    ensures Readable(res.body) == Expected(old(res.body), rw)
    ensures image.Some? ==> Expected(old(res.body), rw) == (image.value, false)
    ensures library.Some? ==> Expected(old(res.body), rw) == (library.value, false)
  {
    if rw.Buffer? {
      RewriteConserves(res.body, rw.max, rw.fn);
      res.BufferAndRewrite(rw.max, rw.fn);
    }
    if caches.imageMax.Some? {
      PeekConserves(res.body, caches.imageMax.value);
    }
    image := res.MaybeStoreImage(caches, r);
    if caches.libraryMax.Some? {
      PeekConserves(res.body, caches.libraryMax.value);
    }
    library := res.MaybeStoreLibrary(caches, r);
  }

  /* The coalesced path */

  // coalesceReadLimit
  function CoalesceReadLimit(caches: Caches, r: Request): int {
    if IsLibraryRequest(r.verb, r.path) && caches.libraryMax.Some? then LimitFor(caches.libraryMax.value)
    else if caches.imageMax.Some? then LimitFor(caches.imageMax.value)
    else 4 * 1024 * 1024 + 1
  }

  // What a coalesced hop gives: the body for every waiter (None is a 503) and the
  // bodies offered to the two caches.
  datatype Outcome = Outcome(delivered: Option<Bytes>, image: Option<Bytes>, library: Option<Bytes>)

  function Coalesced(caches: Caches, r: Request, imageClass: bool, libraryClass: bool, s: Stream): Outcome {
    var t := ReadLimited(s, CoalesceReadLimit(caches, r));
    if t.err then Outcome(None, None, None)
    else Outcome(Some(t.raw),
                 if imageClass && caches.imageMax.Some? && |t.raw| <= caches.imageMax.value then Some(t.raw) else None,
                 if libraryClass && caches.libraryMax.Some? && |t.raw| <= caches.libraryMax.value then Some(t.raw)
                 else None)
  }

  // The leader's function of proxyCoalesced after the (rewritten) hop.
  method CoalescedHop(caches: Caches, r: Request, res: Response) returns (out: Outcome)
    requires Sane(caches)
    modifies res
    ensures out == Coalesced(caches, r, res.ImageClass(caches, r), res.LibraryClass(caches, r), old(res.body))
  {
    var t := ReadLimited(res.body, CoalesceReadLimit(caches, r));
    if t.err {
      return Outcome(None, None, None);
    }
    res.body := Stream(t.raw, Eof);
    res.contentLength := |t.raw|;
    if caches.imageMax.Some? {
      PeekConserves(res.body, caches.imageMax.value);
    }
    if caches.libraryMax.Some? {
      PeekConserves(Stream(t.raw, Eof), caches.libraryMax.value);
    }
    var image := res.MaybeStoreImage(caches, r);
    assert res.body == Stream(t.raw, Eof);
    var library := res.MaybeStoreLibrary(caches, r);
    return Outcome(Some(t.raw), image, library);
  }

  // Every waiter gets exactly the first limit bytes: the whole body if and only
  // if it is no longer than the limit, that is MaxObject+1.
  lemma CoalescedDeliversPrefix(caches: Caches, r: Request, imageClass: bool, libraryClass: bool, s: Stream)
    requires Sane(caches)
    ensures var limit, d := CoalesceReadLimit(caches, r), Coalesced(caches, r, imageClass, libraryClass, s).delivered;
      && 0 <= limit
      && (d.Some? ==> d.value == s.data[..if |s.data| <= limit then |s.data| else limit])
      && (d.Some? ==> (d.value == s.data <==> |s.data| <= limit))
      && (d.None? ==> s.end.Fails? && |s.data| <= limit)
      && (s.end.Eof? ==> d.Some?)
  {
  }

  // image is stored by Cache.Put (which refuses the empty body) only if whole.
  ghost predicate OnlyWhole(stored: Option<Bytes>, s: Stream) {
    stored.Some? && stored.value != [] ==> stored.value == s.data && s.end.Eof?
  }

  // The library cache never stores a proper prefix, exactly unless the hop alone, by the
  // path of the backend's URL, is a library request and the limit read for the client's
  // own path is the smaller one.
  lemma LibraryStoresWholeExactlyWhen(caches: Caches, r: Request, imageClass: bool)
    requires Sane(caches)
    ensures (forall s :: OnlyWhole(Coalesced(caches, r, imageClass, true, s).library, s)) <==>
      !(&& !IsLibraryRequest(r.verb, r.path) && caches.libraryMax.Some?
        && 0 < CoalesceReadLimit(caches, r) <= caches.libraryMax.value)
  {
    var limit := CoalesceReadLimit(caches, r);
    if !IsLibraryRequest(r.verb, r.path) && caches.libraryMax.Some? && 0 < limit <= caches.libraryMax.value {
      var s := Stream(seq(limit + 1, i => 0), Eof);
      var stored := Coalesced(caches, r, imageClass, true, s).library;
      assert stored == Some(s.data[..limit]);
      assert !OnlyWhole(stored, s);
    }
  }

  /* The warm hop after a login */

  function WarmOffer(status: int, contentType: string, max: int, s: Stream): Option<Bytes> {
    var t := ReadLimited(s, LimitFor(max));
    if status != 200 || t.err || |t.raw| > max || !Contains(ToLower(contentType), "json") then None else Some(t.raw)
  }

  // warmOne from the answer on: the body it offers to the library cache.
  method WarmOne(res: Response, max: int) returns (put: Option<Bytes>)
    modifies res
    ensures put == WarmOffer(res.status, res.contentType, max, old(res.body))
  {
    if res.status != 200 {
      return None;
    }
    var t := ReadLimited(res.body, LimitFor(max));
    res.body := t.rest;
    if t.err || |t.raw| > max {
      return None;
    }
    if !Contains(ToLower(res.contentType), "json") {
      return None;
    }
    return Some(t.raw);
  }

  // A warm hop offers a body exactly when it is a complete JSON answer within the
  // limit; with the limit at the largest int64 the sum wraps and only the empty body,
  // which Cache.Put refuses, is ever offered.  A proper prefix is never stored.
  lemma WarmStoresWhole(status: int, contentType: string, max: int, s: Stream)
    requires -1 <= max <= MAX_INT64
    ensures OnlyWhole(WarmOffer(status, contentType, max, s), s)
    ensures WarmOffer(status, contentType, max, s) ==
      if status != 200 || !Contains(ToLower(contentType), "json") then None
      else if max == MAX_INT64 then Some([])
      else if s.end.Eof? && |s.data| <= max then Some(s.data) else None
  {
    if max < MAX_INT64 {
      PeekConserves(s, max);
    } else {
      assert LimitFor(max) == MIN_INT64;
    }
  }

  // The image cache never stores a proper prefix, exactly unless the client's path is a
  // library path too, both caches are on and the library limit is the smaller one.
  lemma ImageStoresWholeExactlyWhen(caches: Caches, r: Request, libraryClass: bool)
    requires Sane(caches)
    ensures (forall s :: OnlyWhole(Coalesced(caches, r, true, libraryClass, s).image, s)) <==>
      !(&& IsLibraryRequest(r.verb, r.path)
        && caches.imageMax.Some? && caches.libraryMax.Some?
        && 0 <= caches.libraryMax.value < caches.imageMax.value)
  {
    if IsLibraryRequest(r.verb, r.path) && caches.imageMax.Some? && caches.libraryMax.Some?
       && 0 <= caches.libraryMax.value < caches.imageMax.value {
      PrefixIsStored(caches, r, libraryClass);
    }
  }

  lemma PrefixIsStored(caches: Caches, r: Request, libraryClass: bool)
    requires Sane(caches) && IsLibraryRequest(r.verb, r.path) && caches.imageMax.Some? && caches.libraryMax.Some?
    requires 0 <= caches.libraryMax.value < caches.imageMax.value
    ensures exists s :: !OnlyWhole(Coalesced(caches, r, true, libraryClass, s).image, s)
  {
    var n := caches.libraryMax.value + 1;
    var s := Stream(seq(n + 1, i => 0), Eof);
    assert CoalesceReadLimit(caches, r) == n;
    var stored := Coalesced(caches, r, true, libraryClass, s).image;
    assert stored == Some(s.data[..n]);
    assert !OnlyWhole(stored, s);
  }

  // Such requests exist: every lower-case path without a 'u' that starts with
  // "/items/latest" and contains "/images/", like "/items/latest/images/".
  lemma BothClassesExist(path: string, k: nat)
    requires ToLower(path) == path && 'u' !in path
    requires OccursAt(path, "/items/latest", 0) && OccursAt(path, "/images/", k)
    ensures IsItemImagePath(path) && IsLibraryPath(path)
  {
    LatestIsItems(path);
    NoUsers(path);
    assert Index(path, "/items/") == 0;
    assert path[0..] == path;
    assert Contains(path, "/images/");
    assert Contains(path, "/items/latest");
  }

  predicate Plain(s: string) {
    forall i :: 0 <= i < |s| ==> s[i] == '/' || 'a' <= s[i] <= 't'
  }

  lemma PlainIsLower(s: string)
    requires Plain(s)
    ensures ToLower(s) == s && 'u' !in s
  {
  }

  // This one.
  lemma LatestImagesIsOfBoth(path: string)
    requires path == "/items/latest" + "/images/"
    ensures IsItemImagePath(path) && IsLibraryPath(path)
  {
    PlainIsLower(path);
    assert path[0..13] == "/items/latest" && path[13..21] == "/images/";
    BothClassesExist(path, 13);
  }

  lemma NoUsers(path: string)
    requires 'u' !in path
    ensures !Contains(path, "/users/")
  {
    var users := "/users/";
    forall i | 0 <= i <= |path| - |users| ensures !OccursAt(path, users, i) {
      var part := path[i..i + |users|];
      assert part[1] == path[i + 1] && path[i + 1] in path;
    }
  }

  lemma LatestIsItems(path: string)
    requires OccursAt(path, "/items/latest", 0)
    ensures OccursAt(path, "/items/", 0)
  {
    var latest, items := "/items/latest", "/items/";
    assert latest[..7] == items;
    assert path[0..7] == path[0..13][..7];
  }
}
