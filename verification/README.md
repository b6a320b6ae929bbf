# HAPudding: caches, affinity and parsing, verified

HAPudding (HAP) is a reverse proxy in front of several Jellyfin servers. This project models its
stateful core in Dafny and proves what that core promises. `dafny verify dfyconfig.toml` checks everything.

Every piece comes in two layers. The first is a specification on values: functions from an old state
and an input to a new state, about which the theorems are stated, for all inputs and all runs. The
second is the code in the form the source has it: classes that update lists, indexes, counters, tables
and files in place, and loops over indices. Each method of that layer is proved equal to the function
that specifies it, so the theorems hold of both.

| part | specification and theorems | as it runs |
|---|---|---|
| recency lists shared by all three caches | `Recency` | |
| two-tier image cache, restart, crashes, failed writes | `ImgModel`, `ImgProofs`, `ImgRuns`, `ImgOrder`, `ImgCrash`, `ImgSurvival`, `ImgOrphans`, `ImgFaults` | `Files.Directory`, `ImgCache.Cache` |
| library JSON cache and its invalidation protocol | `CacheKeys`, `LibModel`, `LibRuns`, `LibProtocol` | `LibCache.Cache` |
| library semaphore | `LibSem` | `LibSem.Semaphore` |
| response bodies, rewrites and coalescing | `Bodies` | `Bodies.Response` |
| storage lifetime | `CacheControl` | its loops |
| authorization header | `AuthHeader`, `HeaderRoundTrip`, `Identifiers`, `WarmHeader`, `Text` | its scanner loops |
| auth-failure window | `Health` | `Health.Monitor` |
| affinity store | `Store`, `StoreRows` | `SqlStore.SQLStore` |
| operator flags | `Flags` | `Flags.Flags` |
| routing | `RouterModel`, `RouterProofs`, `Names` | `Router.Router` |
| affinity of whole runs, login fail-over | `AffinityModel`, `AffinityRuns`, `Retries`, `Lifetimes`, `LoginProofs`, `AffinityExamples` | `Handler.Handler` |

The main theorems:

- **Image cache.** Over every run of stores, lookups and restarts, a lookup answers nothing or a copy of
  the latest accepted store that has not expired (`GetAnswersLatestPut`). Both tiers stay in the order of
  last use, which a restart starts afresh from its directory listing (`RunStaysOrdered`), and a store evicts
  exactly the shortest least recently used suffix (`RunPutEvictsExactly`). With crashes between and inside
  file operations an answer stems from the key's last completed store or from crashed ones since, and is an
  exact copy of one of them unless a crash fell between the two renames (`AnswersSurviveCrashes`). A crash
  costs no entry of another key that the completed operation would have kept (`OthersSurviveCrash`,
  `LastPutSurvives`). Without crashes the directory holds nothing but the files of indexed entries
  (`CleanRunsLeaveNoStray`); with crashes it can hold any number of others, whatever the budget
  (`OrphansPileUp`). After a disk write that failed, a restart answers the store before it, exactly as
  `StaleAfterFailedWriteExactlyWhen` says.
- **Library cache.** In every interleaving of hops, stores, mutations and drops a hit is younger than the
  TTL and belongs to the same backend, token, method, query and path as its hop named it (`HitIsFresh`). It is
  an answer to the request asked exactly when the hop was a warm one or the backend's URL has no path
  (`HitIsOwnExactlyWhen`); otherwise proxied answers are stored where their own requests never look
  (`OneHopIsFound`). A hit older than a drop of its token happens exactly when the drop fell between that
  body's fetch and its store (`StaleIffDropBetweenFetchAndStore`). With atomic handling no hit is older than an
  invalidating mutation of its own token (`AtomicRunsAreCoherent`), and every other mutation, another token's
  included, leaves the old answer (`UnseenMutationStaysStale`).
- **Affinity.** Once a row binds a token to a backend, every later non-login request with the token is
  forwarded there or refused, in every interleaving of arrivals and responses, until expiry, a
  force_reauth drop, a successful logout, an unpin or a login that issues the token again (`TokenEpoch`,
  `IssuedTokenStays`).
- **Routing.** No decision forwards to a disabled backend, or to an unhealthy one except for a bound
  client under pin_unhealthy (`ForwardingSafety`), and no decision depends on the order of the
  configured backends (`DecideIgnoresOrder`).
- **Login.** A login succeeds exactly when some candidate lets the user in and every earlier one is silent or
  answers 401 (`LoginSucceedsExactlyWhen`); the order matters exactly when one eligible backend accepts and
  another answers something else (`PreferenceMattersExactlyWhen`).

Where the documentation promises more than the code does, the code is modelled and the promise gets its
exact condition.

- `docs/affinity.md:13`: a token issued by one server is never sent to another. Until its epoch ends that holds.
  Afterwards, as after a force_reauth drop, no live row binds it, and a request that is no login is forwarded
  exactly where its device row, cookie, address, anonymous row or placement leads (`RowlessRoute`,
  `RetryMovesExactlyWhen`). A client without DeviceId is refused again while its anonymous row lives
  (`RetryIsRefusedAgain`); one without such a row is placed anew.
- `docs/affinity.md:15`: no existing token is forwarded on login retries. A login hop copies the request's headers
  (`internal/proxy/proxy.go:204`). For every login that carries a token, which backends it is sent to has its exact
  condition: `LoginSendsTokenElsewhere` while a live row binds the token, `RowlessLoginSendsToken` otherwise.
- `docs/affinity.md:31`: under fail_closed the binding is kept and the token works again when its backend recovers.
  Refused requests do not refresh the row, so this holds exactly until the TTL after the last use
  (`FailClosedKeepsExactlyWhen`); then the token goes where its guide leads.
- `docs/affinity.md:8`: the cookie counts only for a backend with a live row. A row that has lapsed and was not looked
  up since counts too (`CookieDecides`, `LapsedRowIsFollowed`).

`AffinityExamples` has runs from the empty store for the first three.

Assumptions, each a parameter or a precondition of the statements that need it: SHA-256 separates keys
and meta files decode to what was encoded (`ImgModel.Ideal`); one validated configuration per run
(`ImgModel.Validated`, unique backend names); listings of the cache directory are complete
(`IsListing`); clocks, backend answers, store read faults and probe results are inputs.

## Model

| member | source | states |
|---|---|---|
| Recency.InsertKeeps | internal/imgcache/cache.go:155-176 | a store keeps a recency list free of duplicate keys and its bytes within the budget |
| Recency.FitEvictsExactly | internal/imgcache/cache.go:159-163 | eviction removes exactly the shortest least recently used suffix that makes room |
| Recency.InsertEvictsExactly | internal/imgcache/cache.go:155-176 | the same for a whole store, the replaced entry of that key aside |
| Recency.InsertOrdered | internal/imgcache/cache.go:155-176 | a store puts its key first and leaves the others in their order of last use |
| Recency.FrontOrdered | internal/imgcache/cache.go:116-145 | a hit puts its key first and leaves the others in their order of last use |
| Recency.AgreeRemove | internal/imgcache/cache.go:221-232 | removal keeps index, list and byte counter in agreement, and the counter never goes below zero |
| Recency.AgreePush | internal/imgcache/cache.go:171-176 | PushFront keeps the three in agreement |
| Recency.AgreeLookup | internal/imgcache/cache.go:118-122 | the index finds exactly the cell the list holds under the key |
| Files.Directory.RenameFile | internal/imgcache/disk.go:262-268 | a rename replaces the target whole and removes the source, or does nothing |
| ImgCache.Cache.constructor | internal/imgcache/cache.go:100-110 | New recovers from the directory exactly what loading specifies, within budget |
| ImgCache.Cache.LoadDisk | internal/imgcache/disk.go:49-96 | recovery reads every listed meta file, deletes what does not read back, and trims to the disk budget |
| ImgCache.Cache.LoadFile | internal/imgcache/disk.go:61-85 | one meta file is indexed or its files are removed |
| ImgCache.Cache.AddDiskIndex | internal/imgcache/disk.go:98-105 | the disk entry replaces any of the same key, at the front |
| ImgCache.Cache.GetDisk | internal/imgcache/disk.go:107-171 | a disk hit returns the stored entry, moves it to the front and promotes it; anything unreadable or expired is dropped with its files |
| ImgCache.Cache.PutMemoryLocked | internal/imgcache/disk.go:173-197 | promotion stores like Put but refuses what does not fit |
| ImgCache.Cache.PutDiskLocked | internal/imgcache/disk.go:199-240 | a disk store forgets the old entry, evicts with files, writes and indexes |
| ImgCache.Cache.EvictDisk | internal/imgcache/disk.go:211-220 | the loop always leaves room, so the refusal after it is unreachable |
| ImgCache.Cache.WriteDiskFiles | internal/imgcache/disk.go:242-270 | both temporaries are written before the two renames, body first; each of the four operations may fail, a write after any part of its data, and is cleaned up after as the code does |
| ImgCache.Cache.DropDiskKey | internal/imgcache/disk.go:272-281 | the disk entry of the key goes, with its four files |
| ImgCache.Cache.RemoveDiskIndex | internal/imgcache/disk.go:283-297 | index, list and counter lose exactly this entry |
| ImgCache.Cache.RemoveDiskFiles | internal/imgcache/disk.go:299-308 | all four files of a hash go, nothing for the empty hash |
| ImgCache.Cache.RemoveLocked | internal/imgcache/cache.go:221-232 | exactly this entry leaves list, index and counter; the clamp at zero is never needed |
| ImgCache.Cache.EvictMemory | internal/imgcache/cache.go:159-170 | the memory loop always leaves room, so the refusal after it is unreachable |
| ImgCache.Cache.Put | internal/imgcache/cache.go:147-181 | the whole new state of both tiers, also when the disk write fails; budgets and agreement are kept |
| ImgCache.Cache.Get | internal/imgcache/cache.go:116-145 | the whole new state and the answer, from either tier; budgets and agreement are kept |
| ImgProofs.PutShape | internal/imgcache/cache.go:147-181 | Put keeps both tiers duplicate-free and within their budgets |
| ImgProofs.GetShape | internal/imgcache/cache.go:116-145 | so does Get, promotion included |
| ImgProofs.LoadShape | internal/imgcache/disk.go:49-96 | so does recovery from any directory |
| ImgProofs.PutKeeps | internal/imgcache/cache.go:147-181 | after an accepted Put both tiers and the files hold copies of latest puts only |
| ImgProofs.GetKeeps | internal/imgcache/cache.go:116-145 | Get keeps that, and answers exactly when a tier holds the key unexpired |
| ImgProofs.LoadKeeps | internal/imgcache/disk.go:49-96 | so does a restart |
| ImgProofs.RestartKeepsDisk | internal/imgcache/disk.go:49-96 | a clean restart keeps every indexed entry that is not expired |
| ImgProofs.ReadBack | internal/imgcache/disk.go:125-160 | a complete pair of files reads back as exactly the entry written |
| ImgRuns.GetAnswersLatestPut | internal/imgcache/cache.go:116-181 | over every run of Put, Get and restart, Get answers nothing or an unexpired copy of the latest accepted Put, and answers exactly while a tier holds the key |
| ImgRuns.PutIsAnswered | internal/imgcache/cache.go:147-181 | an accepted Put is answered right after it and, with a disk tier, after a restart |
| ImgRuns.StaleBeyondDiskLimit | internal/config/config.go:459-475 | without the validated limits an oversized overwrite brings the old entry back at the next restart |
| ImgRuns.PutEvictsExactly | internal/imgcache/disk.go:207-236 | in each tier a Put evicts the shortest suffix of an ordered list that makes room and keeps the rest in order |
| ImgRuns.StepStaysOrdered | internal/imgcache/disk.go:164-196 | a Put or Get that finds both lists in the order of last hit or store leaves them so |
| ImgOrder.LoadedInListingOrder | internal/imgcache/disk.go:56-86 | recovery leaves the entries in the reverse order of the directory listing, whatever was used last before |
| ImgOrder.RunStaysOrdered | internal/imgcache/cache.go:116-176 | at every moment of every run, restarts included, both lists stand in the order of last hit or store, which after a restart starts from the listing |
| ImgOrder.RunPutEvictsExactly | internal/imgcache/disk.go:207-236 | so after every run a Put evicts exactly the shortest least recently used suffix of each tier |
| ImgOrder.RestartForgetsOrder | internal/imgcache/disk.go:49-96 | a restart can put the entry stored first before the one stored last |
| ImgCrash.CrashInWrite | internal/imgcache/disk.go:242-270 | what each crash point of the write leaves readable, for this hash and for all others |
| ImgCrash.CrashOnFreshKey | internal/imgcache/disk.go:242-270 | with no earlier files, recovery finds nothing or exactly the written entry, the latter exactly after both renames |
| ImgCrash.CrashOnOverwrite | internal/imgcache/disk.go:207-210 | overwriting: old entry, new entry, nothing, or old metadata with the new body, the last exactly between the renames with equal lengths |
| ImgCrash.CrashKnown | internal/imgcache/disk.go:199-308 | wherever an operation is cut, every file left is a whole file of a put of its key, and meta and body of one put unless the cut fell between the renames |
| ImgCrash.AnswersSurviveCrashes | internal/imgcache/disk.go:49-240 | over every run with crashes an answer stems from the last completed Put of its key or crashed ones since, with metadata and body of equal length; it is an exact copy of one of them unless a crash fell between the renames of this key since its last completed Put |
| ImgCrash.LastPutAlone | internal/imgcache/disk.go:199-240 | without a crashed Put of the key since, its last completed Put is the only one an answer can stem from |
| ImgSurvival.CrashRunSound | internal/imgcache/disk.go:49-308 | at every moment of every run with crashes both tiers agree with the files: every indexed entry has its two files, every meta file is indexed |
| ImgSurvival.OthersSurviveCrash | internal/imgcache/disk.go:49-308 | a crash anywhere inside an operation costs no entry of another key that the completed operation would have kept on disk: it is answered after the restart exactly while not expired |
| ImgSurvival.LastPutSurvives | internal/imgcache/disk.go:199-240 | so the last completed Put of a key is answered after the crash of an operation that neither stores the key nor evicts it |
| ImgSurvival.LoadAnswers | internal/imgcache/disk.go:49-96 | a restart answers exactly the whole, unexpired pairs, beside any files that do not read back |
| ImgOrphans.CleanRunsLeaveNoStray | internal/imgcache/disk.go:199-308 | without crashes every file in the directory is one of the two of an indexed entry |
| ImgOrphans.OrphansPileUp | docs/config.md:68 | with crashes any number of body files can pile up that no entry accounts for and no restart removes, whatever the budget |
| ImgOrphans.EntrySurvivesBesideOrphan | internal/imgcache/disk.go:242-270 | such a run: a stored entry is answered after the Put of another key was cut between its renames |
| ImgFaults.FailedWriteLeaves | internal/imgcache/disk.go:242-270 | a failed write leaves the old pair of files, or after a failed last rename the old meta file alone, and other hashes as they were |
| ImgFaults.AnswerAfterFailedPut | internal/imgcache/disk.go:199-240 | what a restart answers after it, from any sound state |
| ImgFaults.StaleAfterFailedWriteExactlyWhen | internal/imgcache/cache.go:147-181 | over every run: the Put is accepted and answered from memory, but a restart answers the Put before it, exactly when that was still on disk, is not expired and the failure came before the last rename |
| CacheKeys.LibraryKeySeparates | internal/libcache/cache.go:78-80 | library keys are equal exactly when all components are, up to method case, for arbitrary paths |
| CacheKeys.ImageKeySeparates | internal/imgcache/cache.go:112-114 | the same for image keys |
| CacheKeys.FamiliesNeverCollide | internal/proxy/proxy_perf.go:184-193 | image and library keys never meet in the shared flight group |
| CacheKeys.PrefixIsToken | internal/libcache/cache.go:148-168 | the prefix test of DropToken finds exactly the keys of this backend and token |
| LibModel.PutEvictsExactly | internal/libcache/cache.go:118-141 | a Put evicts the shortest suffix of an ordered list that makes room and keeps the rest in order |
| LibModel.HitIsMostRecent | internal/libcache/cache.go:82-108 | a hit becomes the most recent entry, the others keep their order |
| LibModel.PutInShape | internal/libcache/cache.go:110-146 | Put stays within the byte budget without duplicates |
| LibModel.GetInShape | internal/libcache/cache.go:82-108 | so does Get |
| LibModel.DropInShape | internal/libcache/cache.go:148-168 | so does DropToken |
| LibModel.DropIsExact | internal/libcache/cache.go:148-168 | DropToken removes an entry exactly when its components are this backend and token hash |
| LibModel.KeptInOrder | internal/libcache/cache.go:148-168 | the entries DropToken leaves keep their order |
| LibRuns.RunKeeps | internal/libcache/cache.go:82-168 | over every run of Put, Get and DropToken the cache is within budget without duplicates and in the order of last hit or store |
| LibRuns.RunPutEvictsExactly | internal/libcache/cache.go:118-141 | so after every run a Put evicts exactly the shortest least recently used suffix |
| LibCache.Cache.Get | internal/libcache/cache.go:82-108 | the new list and the answer; index and counter stay in agreement |
| LibCache.Cache.Put | internal/libcache/cache.go:110-146 | the new list and whether it stored; the clamp and the late refusal are unreachable |
| LibCache.Cache.DropToken | internal/libcache/cache.go:148-168 | the loop over the list leaves exactly the entries of other tokens |
| LibCache.Cache.RemoveLocked | internal/libcache/cache.go:207-218 | exactly this entry leaves list, index and counter |
| LibCache.Cache.MaybeInvalidate | internal/proxy/proxy_perf.go:164-175 | a 2xx answer to an invalidating request with a token drops that token's entries, any other answer nothing |
| LibProtocol.RunKeeps | internal/proxy/proxy_perf.go:84-175 | in every interleaving each cached entry has a fetch and a store behind it and no drop since the store |
| LibProtocol.HitIsFresh | internal/proxy/proxy_perf.go:84-162 | a hit replays an answer to a request of the same backend, token, method and query that its hop named by this path, stored within the TTL and not before the last drop |
| LibProtocol.HitIsOwnExactlyWhen | internal/proxy/proxy_perf.go:88-160 | that request is the one asked exactly when the hop was a warm one or the backend's URL has no path of its own |
| LibProtocol.OneHopIsFound | internal/proxy/proxy.go:293 | with such a path a proxied and stored request is not found when it comes again, and one that spells out the path gets its answer |
| LibProtocol.StaleIffDropBetweenFetchAndStore | internal/proxy/proxy_perf.go:118-175 | a hit is older than a drop of its token exactly when the drop fell between its fetch and its store |
| LibProtocol.StaleIffMutationBetweenFetchAndStore | internal/proxy/proxy_perf.go:118-175 | a hit is older than an invalidating mutation of its token exactly when mutation and answer both fell between its fetch and its store |
| LibProtocol.StaleHitHappens | internal/proxy/proxy_perf.go:331-383 | such a run exists for every storable answer and every invalidating mutation |
| LibProtocol.AtomicRunsAreCoherent | internal/proxy/proxy_perf.go:164-175 | with atomic handling no hit after an invalidating mutation of its own token and backend was fetched or stored before it |
| LibProtocol.UnseenMutationStaysStale | internal/proxy/proxy_perf.go:164-175 | after any other mutation, one of another token or backend or outside the code's test, the old body is still answered, even with atomic handling |
| LibProtocol.PatchIsUnseen | internal/libcache/cache.go:256-279 | no PATCH invalidates, whatever its path |
| LibSem.Semaphore.constructor | internal/proxy/proxy_perf.go:391-396 | at least one slot per backend |
| LibSem.Semaphore.Acquire | internal/proxy/proxy_perf.go:409-418 | takes one slot of this backend, or none when cancelled, by the same step as the protocol |
| LibSem.Semaphore.Release | internal/proxy/proxy_perf.go:420-427 | gives one slot back, or takes the default branch on an empty channel, by the same step as the protocol |
| LibSem.HoldersAreSlots | internal/proxy/proxy_perf.go:292-304 | in every interleaving the handlers inside a library hop are exactly the taken slots, never more than max |
| LibSem.ReleaseFindsToken | internal/proxy/proxy_perf.go:420-427 | the default branch of release is unreachable |
| LibSem.OthersTakeNoSlot | internal/proxy/proxy.go:256-262 | cancelled waits and other paths take no slot |
| LibSem.SlotsComeBack | internal/proxy/proxy_perf.go:195-197 | once every holder has released, all slots are free |
| Bodies.PeekConserves | internal/proxy/proxy.go:408-431 | peeking leaves the client's stream as it was and sees exactly the complete bodies within the limit |
| Bodies.PeekConservesExactlyWhen | internal/proxy/proxy.go:408-431 | with the limit at the largest int64 the sum wraps and only the empty body survives |
| Bodies.RewriteConserves | internal/proxy/origin.go:267-282 | a rewrite applies to complete bodies within the limit; every other body passes byte for byte |
| Bodies.Response.BufferAndRewrite | internal/proxy/origin.go:267-282 | the new body of the response |
| Bodies.Response.MaybeStoreImage | internal/proxy/proxy.go:387-437 | what is offered to the image cache and what is left to read |
| Bodies.Response.MaybeStoreLibrary | internal/proxy/proxy_perf.go:118-162 | what is offered to the library cache and what is left to read |
| Bodies.ModifyResponse | internal/proxy/proxy.go:311-317 | for every body and read error the client reads the backend's body or its rewrite, and a cache is only given that whole body |
| Bodies.CoalescedHop | internal/proxy/proxy_perf.go:193-214 | the leader's body and the two stores |
| Bodies.CoalescedDeliversPrefix | internal/proxy/proxy_perf.go:202-213 | every waiter gets exactly the first limit bytes, the whole body exactly when it is no longer than MaxObject+1 |
| Bodies.LibraryStoresWholeExactlyWhen | internal/proxy/proxy_perf.go:255-263 | the library cache never stores a proper prefix of a coalesced body, exactly unless only the hop's path is a library path and the limit read for the client's is the smaller |
| Bodies.WarmOne | internal/proxy/proxy_perf.go:355-383 | what a warm hop offers to the library cache |
| Bodies.WarmStoresWhole | internal/proxy/proxy_perf.go:359-383 | a warm hop offers a body exactly when it is a complete JSON answer within the limit, and never a proper prefix, also where the limit wraps |
| Bodies.ImageStoresWholeExactlyWhen | internal/proxy/proxy_perf.go:255-263 | nor does the image cache, exactly unless the client's path is a library path too and the library limit is the smaller |
| Bodies.BothClassesExist | internal/libcache/cache.go:232-247 | every lower-case path of the stated form is of both classes |
| Bodies.LatestImagesIsOfBoth | internal/libcache/cache.go:232-247 | one such path |
| CacheControl.CacheControlForbids | internal/imgcache/cache.go:291-300 | true exactly when some list member is no-store, private or no-cache |
| CacheControl.CacheControlMaxAge | internal/imgcache/cache.go:302-316 | the first max-age member decides, malformed or not |
| CacheControl.StoreTTL | internal/imgcache/cache.go:271-289 | the lifetime granted or refused |
| CacheControl.SplitCovers | internal/imgcache/cache.go:291-300 | the members are the whole header: none is lost or cut |
| CacheControl.SplitJoin | internal/imgcache/cache.go:291-300 | a printed list of comma-free directives has exactly those members |
| CacheControl.DirectiveListForbids | internal/imgcache/cache.go:291-300 | one no-store, private or no-cache in a printed list, in any case and at any place, refuses storage (section 5.2.2 of RFC 9111) |
| CacheControl.GrantedWithinCap | internal/imgcache/cache.go:275-283 | for every max-age, wrapping products included, a granted lifetime is positive and within the cap |
| CacheControl.IntendedExactlyWhen | internal/imgcache/cache.go:275-283 | exactly when 64-bit arithmetic gives min(max-age, cap), or the refusal it should |
| CacheControl.SmallMaxAge | internal/imgcache/cache.go:275-283 | every max-age up to 9223372036 seconds behaves as intended |
| CacheControl.FirstWrappedMaxAge | internal/imgcache/cache.go:275-283 | the next one is refused |
| CacheControl.HeaderLifetime | internal/imgcache/cache.go:271-316 | for a whole header whose first max-age reads as n: the lifetime is min(n seconds, cap) exactly when 64-bit arithmetic allows, and whatever is granted is positive and within the cap |
| CacheControl.DefaultLifetime | internal/imgcache/cache.go:284-316 | without max-age, or with a malformed or overflowing first one, the default lifetime counts |
| CacheControl.PrintedMaxAge | internal/imgcache/cache.go:302-316 | a printed max-age=n is read back as n when n is an int64 and ignored when it is not |
| AuthHeader.ParseNamedValues | internal/authheader/parse.go:101-165 | the index-driven scanner terminates on every input with the specified map |
| AuthHeader.ParseQuoted | internal/authheader/parse.go:125-146 | escapes and the closing quote, from any position |
| HeaderRoundTrip.UnescapeEncode | internal/authheader/parse.go:152-158 | form percent-encoding (section 2.1 of RFC 3986, plus '+') is undone for every byte string |
| HeaderRoundTrip.ScanPrinted | internal/authheader/parse.go:101-165 | scanning a printed list collects its pairs, from any starting map |
| HeaderRoundTrip.RoundTrip | internal/authheader/parse.go:101-165 | printing key="value" pairs with arbitrary byte-string values and parsing gives back exactly those pairs |
| HeaderRoundTrip.CollectDistinct | internal/authheader/parse.go:101-165 | with distinct keys each pair is in the result and nothing else |
| Identifiers.ParseMediaBrowser | internal/authheader/parse.go:84-97 | only MediaBrowser and Emby schemes are read |
| Identifiers.ApplyParts | internal/authheader/parse.go:66-82 | non-empty parts overwrite, absent ones leave the field |
| Identifiers.Choose | internal/authheader/parse.go:22-64 | each identifier comes from the first carrier that has one |
| Identifiers.Parse | internal/authheader/parse.go:22-64 | the same from the raw headers |
| WarmHeader.WarmHeaderCarriesToken | internal/proxy/proxy_perf.go:339 | for every token: the header HAP sends itself parses back to it exactly when it has no quote, no backslash and nothing form decoding would change |
| Health.Monitor.RecordAuthFailure | internal/health/health.go:304-311 | one more failure in this backend's log, or nothing when passive checks are off |
| Health.Monitor.RecentFails | internal/health/health.go:313-325 | the log keeps exactly the failures inside the window, and their number is returned |
| Health.Monitor.Probe | internal/health/health.go:170-237 | the state after a probe, from its layers and the count |
| Health.LogIsHistory | internal/health/health.go:304-325 | however many probes pruned the log, it counts like the full history |
| Health.ProbeCountsFullHistory | internal/health/health.go:209-235 | with all layers up a probe reports degraded exactly when the full-history count reaches the threshold |
| Health.ClockMatters | internal/health/health.go:313-325 | with a clock that goes back a failure can be missed |
| SqlStore.SQLStore.LookupToken | internal/store/store.go:232-249 | an expired row is deleted and not returned |
| SqlStore.SQLStore.LookupDevice | internal/store/store.go:292-313 | the same for device rows |
| SqlStore.SQLStore.LookupAnon | internal/store/store.go:315-339 | the same for anonymous rows |
| SqlStore.SQLStore.BindToken | internal/store/store.go:341-362 | the row moves to the backend and keeps what the bind left empty |
| SqlStore.SQLStore.BindDevice | internal/store/store.go:364-374 | the same, with the sticky client |
| SqlStore.SQLStore.BindAnon | internal/store/store.go:376-390 | the anonymous row moves to the backend |
| SqlStore.SQLStore.TouchToken | internal/store/store.go:392-400 | only the activity columns of an existing row change |
| SqlStore.SQLStore.TouchDevice | internal/store/store.go:402-408 | only last_seen of an existing row changes |
| SqlStore.SQLStore.DeleteToken | internal/store/store.go:418-424 | only this token's row goes |
| SqlStore.SQLStore.DeleteClient | internal/store/store.go:434-439 | only this client's token and device rows go |
| SqlStore.SQLStore.CountsByBackend | internal/store/store.go:593-623 | for every backend the exact numbers of rows, zero for absent ones |
| SqlStore.SQLStore.DeletePinsByUsername | internal/store/store.go:441-521 | the numbers returned are exactly the rows removed |
| SqlStore.UnpinnedTokens | internal/store/store.go:441-546 | removed tokens are those matching name or ids, else the identity-less ones; the others are untouched |
| SqlStore.UnpinnedDevices | internal/store/store.go:441-521 | removed devices are exactly those on the backends of removed tokens |
| StoreRows.NextIsStatement | internal/store/store.go:341-400 | a statement about one token changes that row as the fold says and no other row |
| StoreRows.RowIsHistory | internal/store/store.go:341-400 | each sticky field is the last non-empty value supplied, creation is the first bind, the backend the last, and the row was seen at the last event |
| StoreRows.SeenIsLastUse | internal/store/store.go:341-400 | in every run, lookups included, a row was last seen when it was last bound or touched |
| StoreRows.NextDeviceIsStatement | internal/store/store.go:364-408 | the same for one device's statements |
| StoreRows.DeviceRowIsHistory | internal/store/store.go:364-408 | existence, client, creation, backend and last_seen of a device row as the same fold of its history |
| StoreRows.ExpiryBounds | internal/store/store.go:673-678 | with last_seen cut to seconds a row lives at least TTL - 1s and at most TTL after its last use |
| StoreRows.BusyRowSurvives | internal/store/store.go:232-249 | a row never left alone for more than TTL - 1s is found by every lookup |
| StoreRows.IdleRowIsGone | internal/store/store.go:232-249 | a row left alone for longer than TTL is not |
| StoreRows.BusyDeviceSurvives | internal/store/store.go:292-313 | a device row never left alone for more than TTL - 1s is found by every lookup |
| StoreRows.IdleDeviceIsGone | internal/store/store.go:292-313 | a device row left alone for longer than TTL is not |
| Flags.Flags.constructor | internal/router/flags.go:18-27 | the last configured switch of each name counts |
| Flags.Flags.Load | internal/router/flags.go:29-44 | the disabled rows join the overlay, or nothing when the table cannot be read |
| Flags.Flags.SetRuntime | internal/router/flags.go:73-93 | table and overlay change together, and not at all when the write fails |
| Flags.OverlayIsLastWish | internal/router/flags.go:29-93 | over every run of switches and restarts the overlay disables a backend exactly when that was the last successful wish and the last restart could read it |
| Names.SortSorts | internal/router/router.go:309-321 | the name list is sorted and a permutation |
| Names.SortIgnoresOrder | internal/router/router.go:309-321 | sorting forgets the order given |
| Names.Sum32 | internal/router/router.go:309-321 | the loop computes 32-bit FNV-1a |
| Names.FnvVectors | internal/router/router.go:309-321 | it agrees with published FNV-1a values |
| Names.HashName | internal/router/router.go:309-321 | the hash picks one of the given names |
| Names.HashIgnoresOrder | internal/router/router.go:309-321 | whatever their order |
| Router.Router.constructor | internal/router/router.go:36-44 | by-name table and flags built from the configuration and the flag table |
| Router.Router.EligibleNow | internal/router/router.go:290-307 | the eligible backends, in configured order |
| Router.Router.HashOf | internal/router/router.go:309-321 | the hashed name, "" for no names |
| Router.Router.LeastLoaded | internal/router/router.go:256-268 | the scan finds the backend the specification calls lightest |
| Router.Router.Pick | internal/router/router.go:240-269 | hint, then DeviceId hash, then least loaded |
| Router.Router.PickNewFor | internal/router/router.go:221-238 | under pin_unhealthy the whole pool is hashed, otherwise the eligible backends are picked from |
| Router.Router.BoundTo | internal/router/router.go:184-219 | the decision for a bound client under each policy |
| Router.Router.FollowSessionOf | internal/router/router.go:119-141 | the cookie counts when any token or device row names its backend, expired ones included; else the address glue |
| Router.Router.Decide | internal/router/router.go:61-110 | the decision and the store after its lookups, read faults included |
| Router.Router.CandidatesFor | internal/router/router.go:273-288 | the login candidates |
| Router.IsGraylisted | internal/router/router.go:157-171 | request or stored client class, or path |
| Router.PathMatches | internal/config/config.go:652-663 | a configured or implied prefix, without regard to case |
| RouterProofs.EligibleIsFilter | internal/router/router.go:290-307 | exactly the configured backends that take new clients, none twice |
| RouterProofs.PickIsEligible | internal/router/router.go:240-269 | a placement goes to an eligible backend and fails exactly when there is none |
| RouterProofs.CookieDecides | internal/router/router.go:119-141 | media without identifiers follows the cookie to a backend that takes new clients exactly when some row that was not deleted yet names it |
| RouterProofs.LapsedRowIsFollowed | docs/affinity.md:8 | also when the only such row has lapsed |
| RouterProofs.ForwardingSafety | internal/router/router.go:61-110 | for every input a decision to forward names a configured, enabled backend, unhealthy only when bound under pin_unhealthy |
| RouterProofs.LiveTokenDecides | internal/router/router.go:87-89 | a live token row alone decides where the request may go; when exactly it is dropped or refused |
| RouterProofs.LightestIsLeast | internal/router/router.go:256-268 | the least-loaded pick is strictly below every other eligible backend in (tokens+devices, name) |
| RouterProofs.PlacementIsLeastLoaded | internal/router/router.go:240-269 | without DeviceId and usable hint that unique minimum is the placement |
| RouterProofs.DecideIgnoresOrder | internal/router/router.go:61-110 | reordering the configured backends changes no decision and no store state |
| RouterProofs.CandidatesPermuteEligible | internal/router/router.go:273-288 | candidates are the eligible backends, each once, the preferred one first when eligible |
| AffinityRuns.BoundTokenRoute | internal/proxy/proxy.go:84-123 | a request with a bound token is forwarded to the row's backend or refused |
| AffinityRuns.ArrivalElsewhere | internal/proxy/proxy.go:84-123 | a request leaves the rows of all other tokens as they were |
| AffinityRuns.StepKeepsPin | internal/proxy/proxy.go:84-123 | an event that is none of the five ends leaves the token's row on its backend |
| AffinityRuns.TokenEpoch | internal/router/router.go:61-92 | in every interleaving a bound token is forwarded to its backend or refused until its epoch ends |
| AffinityRuns.IssuedTokenStays | internal/proxy/proxy.go:488-492 | from the login that issued it on, a token is forwarded to its issuer only, until its epoch ends |
| AffinityRuns.EndsForget | internal/proxy/proxy.go:318-320 | each of the five ends really ends the epoch |
| AffinityRuns.DropNeedsForceReauth | internal/router/router.go:195-211 | a drop needs force_reauth and an enabled, unhealthy backend, and the request is then not forwarded |
| Retries.RowlessRoute | internal/router/router.go:61-141 | the exact route of a request whose token no live row binds, read faults and lapsed rows included: forwarded exactly when its device row, cookie, address, anonymous row or placement can be read and leads to a backend that serves it under its class's policy, to that backend, and bound there |
| Retries.RetryMovesExactlyWhen | internal/proxy/proxy.go:88-90 | after a force_reauth drop any later non-login request with the token, under any later health, is forwarded exactly where that guide leads; while the old backend is down, to another one exactly when the guide is not the old one |
| Retries.RetryIsRefusedAgain | internal/router/router.go:97-106 | while the anonymous row its last request left is live, a client without DeviceId is refused again, unless its class is under pin_unhealthy |
| Retries.RowlessLoginSendsToken | internal/proxy/proxy.go:204 | for a token without live row, as after a drop: a login sends it to a backend other than a exactly when its guide leads somewhere, another backend is eligible, and a, if tried first, is silent or answers 401 |
| Retries.ForwardLeavesAnonRow | internal/proxy/proxy.go:106-112 | a forwarded request without DeviceId leaves that row |
| AffinityExamples.RetryMovesAwayHappens | docs/affinity.md:13 | a run from the empty store: login at the first backend, it goes down, the token is refused once and then forwarded to the second |
| AffinityExamples.RetryIsRefusedAgainHappens | internal/proxy/proxy.go:106-112 | the same run with one forwarded request before: refused twice |
| AffinityExamples.LoginSendsTokenHappens | docs/affinity.md:15 | a run from the empty store: a login that carries the first backend's token is refused there, and the hop to the second carries that token |
| AffinityExamples.DroppedLoginSendsTokenHappens | docs/affinity.md:15 | a run from the empty store: after the drop the client logs in with its old token, and the hop to the second backend carries it |
| AffinityExamples.OutageMovesTokenHappens | docs/affinity.md:31 | a run from the empty store under fail_closed: the client keeps trying while its backend is down and is refused; past the TTL its token is forwarded to the second backend |
| Lifetimes.RunSeen | internal/store/store.go:341-424 | over every run of arrivals, answers, logins and unpins a token's row was last seen at the last forwarded request, answered hop or login with it, to the second |
| Lifetimes.RowlessInRuns | internal/store/store.go:232-249 | so a request is decided without the row exactly when that use is too long ago |
| Lifetimes.FailClosedKeepsExactlyWhen | docs/affinity.md:31 | during an outage under fail_closed the token goes to its backend as soon as that serves, and to no other, exactly until the TTL after its last use; after that where its guide leads |
| AffinityRuns.GraySurvives | internal/router/router.go:157-171 | a token's gray-list class survives every later request that names no client |
| AffinityRuns.DeviceClassSurvivesLogout | internal/router/router.go:157-171 | a device's gray-list class survives logouts and later logins |
| LoginProofs.LoginEndIs | internal/proxy/proxy.go:134-181 | for arbitrary answers the first candidate that is neither silent nor answers 401 decides; without one the client sees 401 if some candidate refused, else 503 |
| LoginProofs.LoginSucceedsExactlyWhen | internal/proxy/proxy.go:134-181 | a login succeeds exactly when some candidate lets the user in and every earlier one is silent or answers 401 |
| LoginProofs.PreferenceMattersExactlyWhen | internal/proxy/proxy.go:566-578 | success does not depend on the preferred backend, exactly unless one eligible backend accepts and another answers neither 2xx nor 401 |
| LoginProofs.LoginVerdict | internal/proxy/proxy.go:134-181 | when no eligible backend blocks in that way, success, 401 or 503 follow from what the eligible backends say, whatever the order |
| LoginProofs.OrderMatters | internal/proxy/proxy.go:134-181 | with one broken and one accepting backend the order decides |
| LoginProofs.LoginSendsTokenElsewhere | internal/proxy/proxy.go:204 | a login with a live token sends that token to another backend exactly when it is let through, another backend is eligible, and the token's own is not eligible, silent or answers 401 |
| Handler.Handler.ServeHTTP | internal/proxy/proxy.go:75-123 | decision, drop and bindings, in that order, as one step on the store |
| Handler.Handler.Respond | internal/proxy/proxy.go:318-325 | a successful logout deletes the token row only; token and device are touched |
| Handler.Handler.PeekLogin | internal/proxy/proxy.go:459-500 | token, session device and address are bound to the backend that answered |
| Handler.Handler.Login | internal/proxy/proxy.go:125-182 | hops go to a beginning of the candidates with the request's own token, none twice, all eligible; only the answering backend binds and only on success; which failures are charged |
| AffinityModel.PathUserIDIsSegment | internal/proxy/proxy.go:580-615 | the user id of a path is exactly the GUID between /users/, in any case, and the next slash or the end |

## Left out

- HTTP plumbing (reverse proxy, transports, timeouts, cookies, forwarded headers, WebSocket, Expect: 100-continue, unreadable request bodies): a hop is an arbitrary answer.
- SQL text, drivers, migrations and failing writes: a statement is its effect on the tables; failing reads are inputs of the router.
- Hash collisions: rows are keyed by token, address and User-Agent themselves.
- Atomicity: a request's decision and bindings are one step. Responses may interleave with other requests at will.
- JSON: meta files, login bodies and their usernames are abstract values; the user_affinity hint is an input of the login.
- Statistics, metrics, logging, status server, UI, and the overriding of health states by operators.
- Allocation and aliasing: list elements and entries are values; a copy on the way in or out is therefore not visible.
- Sums of sizes are unbounded integers, as no budget comes near 2^63; products and limits that can wrap are 64-bit.
- Disk: unreadable files and directories, removals that fail, power loss without fsync, and unlocked reads that race with writers. Failing writes are part of Put, but not of the runs that `GetAnswersLatestPut` and the crash theorems range over.
- Upper and lower case beyond ASCII, except where the header scheme is compared.
- Coalescing: that waiters get the leader's result, since the flight group hands it over unchanged.
- Rewriting of URLs, playlists and System/Info: rewrites are arbitrary functions on bodies.
- FreshFor and etag matching; readiness; listing of tokens; configuration loading and defaults.
- Warm-up scheduling: a warm hop is one more fetch in the library protocol.
- SqlStore.SQLStore.BindToken: the session_id column. No caller supplies it, so it is always the first 16 digits of the row's own key.
- LibProtocol.HitIsFresh: backend URLs with a query of their own, which would also change the query a proxied answer is stored under.
- CacheControl.StoreTTL: the header text is the first Cache-Control line; further lines of the same name are never read by the source.
- Health.Monitor.Probe: the network checks behind its layers are inputs.
- Router.Router.Decide: the deletion of an expired row always succeeds.
