# Verified model of memecdn's stateful core

memecdn (the Go repository `myzerossl`) splits TLS termination in two: edges hold only public certificate
chains and a disposable response cache, and a signer holds the private keys. This Dafny project models the
parts of it that carry state, and proves what they keep over whole runs:

* **The edge's response cache.** `Recency` gives each cache operation as a function on the recency sequence (most
  recently used entry first). `CacheHeap` and `ResponseCaching` are the cache itself: a doubly linked ring of
  elements, an index map, a byte counter, and entries that own their arrays, all updated in place and proved to
  compute those functions; `CacheIsolation` is a client that overwrites everything it shares with the cache. `LruStack`
  proves the stack theorem and the freshness of hits over whole runs of lookups and stores. `Exchanges` is the request
  handler with any number of requests between their lookup and the origin's reply, and `Overlaps` what that overlapping
  costs. `CachePolicy` holds the rules for what is cached, under which key and for how long. `Backends` is the rewriting
  of a request on its way to the origin, and `Rewriting` what it costs that replies are stored under the rewritten
  request; `SmallWorld` has the one-byte objects with which the failing runs are built.
* **The signer's rate limiter and revoker.** `Signing` says what one call of `authenticate`, `allowed` and `record`
  does; `AuthManagement` is the `authManager` class, proved to do that. `SignerRuns` is the signer as a transition
  system in which every critical section is a step of its own, any number of requests are in flight, and the
  clock may advance at any point. `SignerLimits`, `SignerRecovery`, `SignerExtremes`, `SignerErrors`,
  `SignerRevocation` and `SignerLeaks` prove exact bounds and conditions, with the runs that attain them; `SignerTokens`
  says who gets a signature, and that the log accounts for each.
* **Edge enrollment.** `ConsoleFiles` has the console's handlers as functions of its two files. `Enrollment` proves what
  every run of calls keeps when the console can die, or fail to write, between the two writes of an approval;
  `ConsoleServing` is the console, each handler proved to be one call of such a run. `EdgeRuns` adds the edges with their
  token files, crashes on both sides, and reports that arrive late or never; `LostEdges` says exactly when an edge can
  never get its token any more, and `OutsideCalls` which calls of others are harmless to the edges.
* **Text files.** `RevokedFiles` (the revoked-ids file), `EnvFiles` (the wizard's environment files), `ShellWords` (the
  install script's quoting).
* **Certificate choice.** `Certificates`.

`Text` has the string functions of the Go standard library that the code calls; `Options` the optional value.

A run is a sequence of steps; a step that is not possible in a state leaves the state alone, so theorems about runs
quantify over every sequence of steps. Randomness, clocks, requests, replies and write failures are parameters.

## Where the code and its documentation differ

The model follows the code.

* `docs/abuse-monitoring.md:64-65` says requests over the error threshold are denied. `allowed` never looks at the error
  counter (`Signing.AllowedIgnoresErrors`); only `record` does, by changing the audit result and perhaps revoking. So
  `authenticate` turns such a client away, in every run, if and only if it is configured with `auto_revoke`
  (`SignerErrors.AuthenticateRefusesIff`), and none of its requests is admitted, in every run, if and only if besides that
  it has at most one at a time between `authenticate` and `record` (`SignerErrors.ErrorThresholdDeniesIff`). Otherwise it
  goes on to get signatures (`SignerErrors.OverLimitIsSigned`).
* `docs/abuse-monitoring.md:60-61` says signing is rejected until the next minute window. `allowed` does not roll the
  window, so a client that used up its minute is denied once more in a later, empty minute (`Signing.StaleDenialIff`,
  `SignerRecovery.OneStaleDenialPerMinute`); that happens in some run of every client with a limit
  (`SignerExtremes.NeverStaleIff`).
* An issued signature can be audited as denied: when two requests are in flight and there is a limit on signatures, or
  when there is one on errors (`SignerErrors.AuditIsTruthfulIff`).
* Requests are looked up in the cache as they arrive, and replies are stored under the request that went to the backend,
  into which the reverse proxy of `cmd/edgeproxy/main.go:133` has put the path and the query of the backend's URL. With a
  backend such as `http://127.0.0.1:8080/app`, the reply to `/x` is served to whoever asks for `/app/x`
  (`Rewriting.WrongContent`), and a second request for `/x` misses (`Rewriting.SecondMissReplaces`). Lookup and store agree
  if and only if the URL has neither, a path of `/` alone counting as none (`Backends.KeepsKeyIff`); then, and only then,
  is the right content served (`Rewriting.RightContentIff`). A visitor can also keep Accept-Encoding from going to the
  backend, by listing it in the Connection header; such requests too are stored under another key.
* `README.md:307-310` says an install is reported as verified after the signer has validated the token. The edge
  reports first (`cmd/edgeproxy/main.go:118-124`); the model has no validation step before the report.
* `docs/signer-console.md:79` says an approved edge may fetch its token once. The JSON form repeats until the install is
  verified; only the shell form is one-shot (`Enrollment.UsedIsNeverHandedOut`).
* `README.md:93` says GET and HEAD responses are cached. HEAD is answered from the cache but never fills it.
* A lifetime of more than 9223372036 seconds wraps around (`CachePolicy.LifetimeIsHonouredIff`), and a cacheable reply
  longer than the object bound plus one byte is cut off on its way to the visitor
  (`ResponseCaching.ResponseCache.ModifyResponse`).
* With two requests in the handler at once, or a backend that rewrites, a larger cache can miss where a smaller one hits,
  although nothing expires and no reply changes (`Overlaps.HitsAreKeptIff`); and of two overlapping misses of one key the
  one that finishes last is cached, whichever was asked first (`Exchanges.LastFinishWins`).
* An approval that dies between its two writes (`LostEdges.DeadApprovalLosesEdge`), or a rejection after an approval
  (`LostEdges.LateRejectionLosesEdge`), strands the edge for good (`Enrollment.StrandedForever`, `LostEdges.ObtainableIff`).

## Model

| member | source | states |
|---|---|---|
| Recency.EvictionIsMinimal | cmd/edgeproxy/main.go:1103-1105 | eviction keeps exactly the longest most-recent prefix within the byte bound: the victims are the shortest least-recent suffix that restores it, zero-size entries included |
| Recency.NewEntrySurvivesIffItFits | cmd/edgeproxy/main.go:1097-1105 | the entry just stored is still cached afterwards if and only if its size is at most the bound; otherwise the whole cache is empty |
| Recency.GetKeepsBounded | cmd/edgeproxy/main.go:1059-1069 | a lookup keeps keys unique and the bytes within the bound |
| Recency.StoreKeepsBounded | cmd/edgeproxy/main.go:1097-1105 | a store restores both from any sequence with unique keys |
| LruStack.StackOrdersByLastRequest | cmd/edgeproxy/main.go:1068-1101 | the ideal recency stack lists exactly the requested keys, once each, by their last request: its meaning independent of its construction |
| LruStack.PromoteCommutesWithFitting | cmd/edgeproxy/main.go:1068-1105 | moving a key to the front and cutting off at the bound commute, wherever the key was |
| LruStack.StackTheorem | cmd/edgeproxy/main.go:1051-1106 | after every steady read-through run the cache's keys are exactly the longest fitting prefix of the ideal recency stack |
| LruStack.HitIffReuseFits | cmd/edgeproxy/main.go:1051-1070 | a visit hits if and only if its key was requested before and the keys down to it in the stack fit into the bound |
| LruStack.LargerCacheKeepsHits | cmd/edgeproxy/main.go:1051-1106 | raising the byte bound never turns a hit of any steady run into a miss, and cache contents are nested |
| LruStack.HitsServeLatestStore | cmd/edgeproxy/main.go:1051-1106 | over every run of lookups and stores in any order, a hit is the latest entry stored for that key, and not expired |
| LruStack.TouchedStackTheorem | cmd/edgeproxy/main.go:1051-1106 | the stack theorem for lookups and stores in any order: while sizes are fixed and nothing expires, the cache is exactly the longest fitting prefix of the stack of touched keys |
| CachePolicy.CacheKeyIsInjective | cmd/edgeproxy/main.go:1198-1200 | without NULs in host and URI, equal keys mean equal host, URI and Accept-Encoding |
| CachePolicy.PlainDirectiveIsReadBack | cmd/edgeproxy/main.go:1183-1196 | in any comma-separated list, the first directive of a name with a positive decimal int64 is read back as that number; one with another number is passed over for the later ones |
| CachePolicy.CacheableIff | cmd/edgeproxy/main.go:1147-1170 | a reply may be cached if and only if it is a 200 to a GET without Authorization, sets no cookie and no Authorization, nowhere says private, no-store or no-cache, and somewhere says public or has a comma-separated part that sets s-maxage or max-age to a positive int64, quoted or not |
| CachePolicy.SharedReplyIsAdmitted | cmd/edgeproxy/main.go:1147-1196 | so such a reply is admitted as soon as any entry of its list is public, or max-age or s-maxage in plain positive decimal |
| CachePolicy.SharedLifetimeFirst | cmd/edgeproxy/main.go:1172-1181 | in a list that sets both, s-maxage gives the lifetime wherever it stands; max-age does if nothing sets s-maxage |
| CachePolicy.LifetimeIsHonouredIff | cmd/edgeproxy/main.go:1172-1181 | the origin's lifetime is used unchanged if and only if its seconds are at most 9223372036; beyond that the nanoseconds wrap around modulo 2^64 |
| Exchanges.Taken | cmd/edgeproxy/main.go:1076-1080 | what is read of a body is a prefix of it: all of it if and only if it is at most one byte longer than an object may be, otherwise exactly that many bytes |
| Exchanges.TakenIsRead | cmd/edgeproxy/main.go:1076-1083 | that, and whether the read fails, is what reading the limited body byte by byte brings |
| Exchanges.CacheIsBounded | cmd/edgeproxy/main.go:139-166 | however lookups and replies of different requests interleave, keys stay unique and the bytes within the bound |
| Exchanges.AnsweredIff | cmd/edgeproxy/main.go:1051-1070 | at every moment of every run a request is answered from the cache if and only if the cache is on, it is a GET or a HEAD, and there is an entry for its key that has not expired; HEAD gets the answer GET gets, and any other method leaves the cache alone |
| Exchanges.OnlyCacheableRepliesFill | cmd/edgeproxy/main.go:139-145 | in every interleaving, what fills the cache is the reply to a request that found nothing when it was looked up earlier in the run, cacheable and read to its end |
| Exchanges.HitsComeFromCacheableReplies | cmd/edgeproxy/main.go:139-166 | in every interleaving a hit is the reply of the request that was the last to fill its key, within its lifetime |
| Exchanges.OnlySharedContentIsServed | cmd/edgeproxy/main.go:1147-1170 | in every interleaving, whatever is served from the cache is the origin's complete, unbroken answer to a GET that went out without Authorization, with status 200, no cookie, none of the forbidding words, and public or a positive lifetime; and that GET asked for the host, URI and encodings of the request that is served |
| Exchanges.ReplacedEntryIsYounger | cmd/edgeproxy/main.go:1097-1099 | for a request that is stored under the key it was looked up with: an entry that its reply replaces was itself stored after that lookup, so only overlapping misses replace what is cached |
| Exchanges.LastFinishWins | cmd/edgeproxy/main.go:1051-1107 | such misses happen: both fill the key, and the one that finishes last wins, whichever was asked first |
| Exchanges.HandlerStackTheorem | cmd/edgeproxy/main.go:139-166 | the stack theorem for the handler with overlapping requests |
| Exchanges.OneAtATimeIsInTurn | cmd/edgeproxy/main.go:157-167 | with one request at a time, the handler does what its requests do one after the other, for every reply and every rule |
| Exchanges.LargerHandlerKeepsHits | cmd/edgeproxy/main.go:139-166 | with one request at a time, each stored under the key it was looked up with, a larger bound keeps every hit of every steady read-through run, whatever the rules |
| Backends.KeepsKeyIff | cmd/edgeproxy/main.go:129-162 | a request is stored under the key it was looked up with if and only if the backend's URL has neither a path, other than /, nor a query and the visitor does not list the Accept-Encoding it sends in its Connection header |
| Backends.RewrittenIs | cmd/edgeproxy/main.go:133 | what the backend is asked for: its own path, one slash and the rest of the visitor's path, and its own query before the visitor's |
| Rewriting.RightContentIff | cmd/edgeproxy/main.go:133-165 | in every interleaving, what is served answered the very question that the origin would be asked for the request, if and only if the backend's URL has neither a path nor a query |
| Rewriting.WrongContent | cmd/edgeproxy/main.go:133-165 | the failing run: after /x, whoever asks for the URI that /x is rewritten to gets the answer to /x |
| Rewriting.ReplacesYoungerIff | cmd/edgeproxy/main.go:133-165 | only overlapping misses replace what is cached, in every run, if and only if the same |
| Rewriting.RewritingLosesHit | cmd/edgeproxy/main.go:133-165 | with any other backend, a run of four requests one at a time whose last hit a larger cache loses |
| Overlaps.HitsAreKeptIff | cmd/edgeproxy/main.go:133-166 | with the edge's own rules, for every backend: a larger bound keeps every hit of every steady read-through run with at most k requests in the handler if and only if k is zero, or one and the backend's URL has neither a path nor a query |
| Overlaps.OverlapLosesHit | cmd/edgeproxy/main.go:139-166 | the run with two requests at once whose last hit the larger cache loses, with a backend that rewrites nothing |
| CacheHeap.CloneHeader | cmd/edgeproxy/main.go:1244-1250 | an equal header whose value lists are all fresh |
| CacheHeap.CacheEntry.Clone | cmd/edgeproxy/main.go:1119-1128 | an equal entry, without its key, in fresh arrays |
| CacheHeap.RecencyList.Remove | cmd/edgeproxy/main.go:1109-1117 | unlinking one element of the ring leaves the others linked in their order |
| CacheHeap.RecencyList.MoveToFront | cmd/edgeproxy/main.go:1068 | the element moves to the front, the others keep their order |
| ResponseCaching.IndexFinds | cmd/edgeproxy/main.go:1059-1062 | list and index are in bijection: a key is in the index if and only if it is in the list, and leads to its element |
| ResponseCaching.Response.Drain | cmd/edgeproxy/main.go:1076-1083 | the reply afterwards carries what was read, with its length, and the read error is reported exactly when the read reached it |
| ResponseCaching.ResponseCache.constructor | cmd/edgeproxy/main.go:1037-1045 | an empty, consistent cache |
| ResponseCaching.ResponseCache.Get | cmd/edgeproxy/main.go:1051-1070 | a hit if and only if the cache is on, the request is a GET or a HEAD and there is a live entry for it; the hit is a fresh copy of that entry, and the cache changes as the recency sequence says |
| ResponseCaching.ResponseCache.Store | cmd/edgeproxy/main.go:1072-1107 | changes the cache as the recency sequence says, keeps the heap invariant and the byte bound, leaves the reply with what was read of it, and shares no array with it |
| ResponseCaching.ResponseCache.RemoveElement | cmd/edgeproxy/main.go:1109-1117 | list, index and byte counter lose exactly that entry; null is a no-op |
| ResponseCaching.ResponseCache.Insert | cmd/edgeproxy/main.go:1095-1106 | replaces the key's entry, puts the new one in front, and evicts |
| ResponseCaching.ResponseCache.Trim | cmd/edgeproxy/main.go:1103-1105 | the eviction loop terminates, never reaches for an element of an empty list, and computes the minimal eviction |
| ResponseCaching.ResponseCache.Serve | cmd/edgeproxy/main.go:157-167 | one request through the handler: the answer from the cache, or the origin's reply to the outgoing request; it fails if and only if that reply is offered and its read breaks off, and the visitor gets the whole body if and only if the reply is not offered, has no body, or is read without an error and fits the object bound plus one byte |
| ResponseCaching.ResponseCache.ModifyResponse | cmd/edgeproxy/main.go:139-151 | a reply is offered exactly when the rules allow it for the outgoing request, and marked as a miss; it fails if and only if it is offered and its read breaks off; its body passes unchanged under the condition above and no other, and is otherwise cut to the object bound plus one byte, with that length |
| CacheIsolation.WriteAndLookAgain | cmd/edgeproxy/main.go:1069-1128 | a client that overwrites the reply it stored and the entry it was handed, in any way, gets the same answers and leaves the same cache as one that overwrites nothing |
| Signing.AllowedIgnoresErrors | internal/keyless/auth.go:204-223 | allowed gives the same answer whatever the error counter and its limit |
| Signing.StaleDenialIff | internal/keyless/auth.go:204-213 | for every client: a denial although the current minute is empty happens if and only if an older window was used up, by either limit, and is still open |
| Signing.ShadowedIff | internal/keyless/auth.go:211-221 | the sign threshold revokes in allowed at no count if and only if it is off, does not revoke, or is not below a rate limit that is on |
| Signing.AuditedOkIff | internal/keyless/auth.go:170-201 | the audit line of a sign attempt says ok if and only if a signature was issued and no limit is exceeded, this attempt included |
| Signing.RecordingIs | internal/keyless/auth.go:154-202 | record in one formula, for both actions: the new counters, the result, whether it revokes, and the reason of the last limit that is exceeded |
| AuthManagement.LoadClients | internal/keyless/auth.go:85-103 | the clients file is refused if and only if an entry lacks its trimmed id or its token; otherwise exactly its trimmed ids are loaded, each with its last entry |
| AuthManagement.LoadedClientsAreNamed | internal/keyless/auth.go:94-101 | loaded clients have ids and tokens that are not empty, so the empty id never names one |
| AuthManagement.AuthManager.constructor | internal/keyless/auth.go:64-123 | with the loaded clients: all counters at zero, and the revoked set is what the file names |
| AuthManagement.AuthManager.Authenticate | internal/keyless/auth.go:125-152 | with a shared token: ok if and only if there is none or it matches; otherwise, in whatever order the clients are searched: the id of a client with that token, ok if and only if it is neither disabled nor revoked, and why not; bad token if no client has it |
| AuthManagement.AuthManager.Allowed | internal/keyless/auth.go:204-223 | decision, counters, revoked set and revoked file as one critical section; all other clients untouched |
| AuthManagement.AuthManager.Record | internal/keyless/auth.go:154-202 | the same for record, with the audit line it writes |
| AuthManagement.AuthManager.AppendRevoked | internal/keyless/auth.go:225-239 | the id is in the set, and the file has grown by its line only if it was new and the disk took it |
| AuthManagement.AuthManager.PersistedIsRevoke | internal/keyless/auth.go:225-239 | while the disk works, set and file move together as the ledger does whose reload is characterised below |
| SignerTokens.OnlyRightTokens | internal/keyless/server.go:46-118 | in every run every request that has been authenticated, or has got a signature, presented the right token: the shared one if there is one, or that of the client in whose name it goes |
| SignerTokens.RightTokenIsLetInIff | internal/keyless/auth.go:125-152 | a request is authenticated as somebody if and only if it presents that token and the client is neither disabled nor revoked |
| SignerTokens.EverySignatureIsLogged | internal/keyless/server.go:73-118 | at every moment of every run the signatures made in a client's name are as many as the log has for it plus those not yet recorded: none is lost or counted twice |
| SignerTokens.RecordIs | internal/keyless/server.go:46-118 | what the record of a request does to its client, to the revoked set and to the log, whatever came of the request |
| SignerRuns.RateBound | internal/keyless/server.go:73-118 | with at most k admitted requests of a client in flight, every interleaving keeps signs plus in flight at most Limit - 1 + k, where Limit, the tighter of the two limits of allowed, is at most ratePerMinute |
| SignerRuns.CountersRefineLog | internal/keyless/auth.go:163-175 | in every run both counters equal the whole log's counts for the minute of the client's window |
| SignerRuns.MinuteBound | internal/keyless/auth.go:204-213 | no minute of any run records more than Limit - 1 + k signatures |
| SignerRuns.SlidingBound | internal/keyless/auth.go:163-169 | any sixty seconds, aligned or not, hold at most twice that |
| SignerLimits.WorstRun | internal/keyless/server.go:73-118 | the bound is attained: for every client with a limit, whatever its two thresholds, and every k some run records exactly Limit - 1 + k signatures in one minute |
| SignerLimits.LeastBoundIff | internal/keyless/auth.go:204-213 | a number bounds the signatures of every minute of every run with at most k in flight if and only if the client has a limit and the number is at least Limit - 1 + k |
| SignerLimits.SignThresholdIsSilentIff | internal/keyless/auth.go:180-188 | with the threshold not below the rate, no run with at most k in flight makes the sign threshold fire, denying or revoking, in allowed or in record, if and only if ratePerMinute - 1 + k does not exceed it; so never when requests come one at a time |
| SignerLimits.SignThresholdNeverRevokesIff | internal/keyless/auth.go:184-188 | the same for the revocation of a client with autoRevoke |
| SignerRecovery.OneStaleDenialPerMinute | internal/keyless/auth.go:163-213 | with requests one at a time, each minute of any run of any client has at most one denial caused by an older window |
| SignerRecovery.RecordedDenialGivesRoom | internal/keyless/auth.go:163-213 | the record of that denial gives the client a fresh minute and disables nobody: the client is welcome afterwards if and only if it was before |
| SignerRecovery.NextRequestIsAdmitted | internal/keyless/auth.go:125-213 | so the next request of a client that was welcome is authenticated and admitted |
| SignerExtremes.NeverStaleIff | internal/keyless/auth.go:204-213 | with requests one at a time, no run has a denial caused by an older window if and only if the client has no limit at all |
| SignerExtremes.SlidingBoundIsAttained | internal/keyless/auth.go:163-213 | some run has exactly twice Limit - 1 + k signatures in sixty seconds, for every client with a limit, whatever its two thresholds, and every k |
| SignerExtremes.LeastSlidingBoundIff | internal/keyless/auth.go:163-213 | a number bounds the signatures of every sixty seconds of every run with at most k in flight if and only if the client has a limit and the number is at least twice Limit - 1 + k |
| SignerErrors.OverLimitIsRefusedIff | internal/keyless/auth.go:189-196 | in every run, a client over its error limit is disabled if and only if it is configured with autoRevoke, and refused by the next authenticate if and only if that, or it was disabled or revoked from the start |
| SignerErrors.AuthenticateRefusesIff | internal/keyless/auth.go:125-196 | that authenticate turns clients over the error limit away holds in every run if and only if autoRevoke is set |
| SignerErrors.ErrorThresholdDeniesIff | internal/keyless/auth.go:189-223 | that no request of a client over the error limit is admitted holds in every run with at most k of its requests between authenticate and record if and only if autoRevoke is set and k is at most one |
| SignerErrors.OverLimitIsSigned | internal/keyless/server.go:73-118 | otherwise, a run in which a client over its error limit in the current minute, and revoked for it if it has autoRevoke, is admitted and given a signature |
| SignerErrors.AuditIsTruthfulIff | internal/keyless/auth.go:176-201 | audit lines tell issued from not issued in every run with at most k in flight if and only if there is no limit on errors, and none on signatures or k is at most one |
| SignerRevocation.RevocationIsPermanent | internal/keyless/auth.go:183-196 | in every run auto-disabled clients are in the revoked set, and neither mark ever goes away |
| SignerRevocation.LeakIsBounded | internal/keyless/server.go:46-118 | after a revocation only requests already past authentication at that moment ever get a signature in that name, so at most that many |
| SignerLeaks.LeastLeakIff | internal/keyless/server.go:46-118 | with at most k requests past authentication when a client is revoked, a number bounds the signatures that still get through in every run if and only if it is at least k, or nothing ever revokes the client: autoRevoke or both thresholds are off |
| SignerRevocation.NoSignatureAfterRevocation | internal/keyless/server.go:46-57 | with distinct tokens, a request that presents a revoked client's token and authenticates later is never signed, in anyone's name |
| RevokedFiles.LineIdsIsTrimmed | internal/keyless/auth.go:115-121 | scanner, trim and comment rule together, on any line |
| RevokedFiles.AppendAddsIff | cmd/signer-console/main.go:825-845 | for every text and id: appending adds exactly that id if and only if it is there already, or it is a proper entry and the last line is blank |
| RevokedFiles.AppendedIdIsReadIff | cmd/signer-console/main.go:843 | a newly appended id is read back under that same condition and no other |
| RevokedFiles.RemoveKeepsTheRest | cmd/signer-console/main.go:847-859 | removing leaves exactly the other ids in order, for every text and id, an empty list included |
| RevokedFiles.ReloadRestoresIff | internal/keyless/auth.go:225-239 | after any run of appends a reload gives back the in-memory set if and only if nothing new was revoked, or the loaded file ended blank and all ids are proper entries |
| RevokedFiles.RevokedFile.Read | cmd/signer-console/main.go:781-799 | the scanning loop returns the ids of the text in order |
| RevokedFiles.RevokedFile.Append | cmd/signer-console/main.go:825-845 | the file afterwards |
| RevokedFiles.RevokedFile.Remove | cmd/signer-console/main.go:847-859 | the file afterwards |
| ConsoleServing.Console.RegisterEdge | cmd/signer-console/main.go:313-383 | each answer and the files it leaves; a valid install token is registered as it was sent, and only a blank one is replaced; after a 202 a pending registration of the id holds it, and no other registration has changed; it is one call of the runs, and keeps their invariant |
| ConsoleFiles.ValidTextIsTrimmed | cmd/signer-console/main.go:319-332 | an id or install token that passes validation is not changed by the trimming before it, so an edge polls with the very token that was stored |
| ConsoleServing.Console.Approve | cmd/signer-console/main.go:477-529 | each answer, and both files after every combination of write failures, each of which keeps the invariant |
| ConsoleServing.Console.Reject | cmd/signer-console/main.go:530-537 | the first registration of the id is rejected whatever its status |
| ConsoleServing.Console.InstallEdge | cmd/signer-console/main.go:543-612 | who is handed which token, and what each form writes; "client not found" is never answered |
| ConsoleServing.Console.VerifyInstall | cmd/signer-console/main.go:643-679 | the first approved registration with the token becomes used and verified |
| ConsoleServing.Console.EditClient | cmd/signer-console/main.go:385-438 | disable, enable and limits change exactly the clients with that id, as they say, or nothing |
| Enrollment.ApproveKeepsSound | cmd/signer-console/main.go:491-523 | an approval keeps both files sound at each of its two writes, and its reset of the use mark never clears one |
| Enrollment.RunsAreSound | cmd/signer-console/main.go:313-679 | in every run with crashes: client ids distinct, at most one pending and one approved registration per id, every approved or used one has a client; ids, tokens, uses and frozen install tokens never change back |
| Enrollment.ApprovedAtMostOnce | cmd/signer-console/main.go:491-515 | each id is approved at most once in any run, and statuses are unique per id |
| Enrollment.ApprovedIsDeliverable | cmd/signer-console/main.go:564-592 | the "client not found" answer never happens; an approved unused registration always yields its client's token |
| Enrollment.UsedIsNeverHandedOut | cmd/signer-console/main.go:576-611 | a used or verified registration is never handed out again in either form, so the shell form at most once |
| Enrollment.StrandedForever | cmd/signer-console/main.go:342-347 | a client without an approved registration stays without one in every continuation, and its token is never handed out |
| Enrollment.DeadApprovalStrands | cmd/signer-console/main.go:516-520 | an approval that dies between its writes leads there, from every console without such a client |
| Enrollment.LateRejectionStrands | cmd/signer-console/main.go:530-537 | so does a rejection after an approval |
| EdgeRuns.NoTokenIsLost | cmd/edgeproxy/main.go:85-122 | with token files and fixed own install tokens, in every run with crashes on both sides, reports that arrive late or never, and any other use of the open endpoints: used or verified means the edge's file holds its client's token; approved and unused means the edge's poll still gets it |
| EdgeRuns.TokenStaysOnFile | cmd/edgeproxy/main.go:85-110 | in every run, whatever anybody does: an edge with its token on file never asks for it again, and nothing changes the file |
| EdgeRuns.StartIs | cmd/edgeproxy/main.go:896-921 | an edge without a token on file registers its own id and install token, which are pending then unless the id has a client, and polls with that token |
| EdgeRuns.PollIs | cmd/edgeproxy/main.go:922-966 | a poll waits on while no approved registration has the token, takes its client's token if it is unused, and gives up if it is used |
| EdgeRuns.RestartRecovers | cmd/edgeproxy/main.go:896-942 | from every such state with an approved registration, restarting both sides and enrolling again, and nothing else, puts the token on file |
| LostEdges.ObtainableIff | cmd/edgeproxy/main.go:896-942 | at every moment of every such run, an edge has or can still get its token if and only if it is not left out: nothing on file or fetched, its client exists, and no approved registration of its id on disk or about to be written |
| LostEdges.DeadApprovalLosesEdge | cmd/signer-console/main.go:516-520 | from every beginning, a run that leaves any edge out: the console dies between the two writes of its approval |
| LostEdges.LateRejectionLosesEdge | cmd/signer-console/main.go:530-537 | from every beginning, another one: the registration is rejected before the edge has fetched its token |
| OutsideCalls.HarmlessIff | cmd/signer-console/main.go:313-679 | from every beginning, whatever edges and clients there are: a call by an outsider costs no edge its token, in every run around it, if and only if it does not pair an edge's id or install token with another token or id and does not use an edge's token up, or registers an id that has a client already |
| LostEdges.NoTokenFileLosesToken | cmd/edgeproxy/main.go:102-122 | for every edge without a token file there is a run that reports verified and then has lost the token |
| LostEdges.DrawnInstallTokenLosesToken | cmd/edgeproxy/main.go:898-900 | for every edge that draws an install token at each start there is a run in which it polls for a token no registration has |
| EnvFiles.TwoPassesAreOne | cmd/setup-wizard/main.go:306-308 | the two replacement passes escape every character exactly once |
| EnvFiles.QuotedIsReadBackIff | cmd/setup-wizard/main.go:306-308 | a quoted value is read back in front of any text, unless the reader expands and finds a $ or a backquote |
| EnvFiles.EnvRoundTripIff | cmd/setup-wizard/main.go:278-290 | the file reads back as the map that was written if and only if no key holds an = or a newline and no value holds what the reader expands |
| EnvFiles.InsertionSort | cmd/setup-wizard/main.go:298-302 | the in-place loops leave a sorted permutation |
| EnvFiles.LessIff | cmd/setup-wizard/main.go:298-302 | sorted means: where two keys part, the first ends or has the smaller character |
| EnvFiles.SortedKeys | cmd/setup-wizard/main.go:292-304 | exactly the map's keys, each once, sorted, whatever order the map gives them in |
| EnvFiles.SortedKeysAreUnique | cmd/setup-wizard/main.go:292-304 | there is only one such list, so the file does not depend on the map's order |
| EnvFiles.WriteEnv | cmd/setup-wizard/main.go:278-290 | the text written is that of the sorted keys, and reads back as the map under exactly the condition of the round trip |
| ShellWords.QuotedWordIsTheValue | cmd/signer-console/main.go:940-942 | under sections 2.2.2 and 2.2.3 of the POSIX Shell Command Language every quoted value evaluates to itself |
| Certificates.WildcardMatchesIff | cmd/edgeproxy/main.go:383-392 | a wildcard accepts exactly the names ending in a dot and its domain, any number of labels deep |
| Certificates.CleanHostIs | cmd/edgeproxy/main.go:846-852 | a name counts without the blanks around it, the port behind it and its case |
| Certificates.NamePatterns | cmd/edgeproxy/main.go:361-381 | the DNS names and the common name, cleaned, each once and none empty, in an order left open |
| Certificates.SelectCertificate | cmd/edgeproxy/main.go:345-358 | the least certificate with a DNS name or common name that accepts the cleaned server name, and none if and only if that name is empty or no certificate has one, whatever order the patterns come in |
| Certificates.FirstOwnerIsLeast | cmd/edgeproxy/main.go:345-358 | it is the least certificate owning the name, and none exactly if nobody does |
| Certificates.HostSetMatches | cmd/edgeproxy/main.go:854-864 | true if and only if some pattern of the set accepts the host |

## Left out

- HTTP serving, TLS, QUIC, proxying, WebSocket and SOCKS plumbing, gzip streaming: library I/O. The cache stores the uncompressed entry before compression starts.
- Cryptography, PEM and X.509 parsing, JSON and base64 codecs, console login and sessions: keys, tokens and decoded requests are values.
- `loadClientKeys`, `keyForRequest`, `validatePayload`, the request encoding and the sign handler's error answers: they only branch, and every failure is the same `Failed` step. The private-key fields of a client are not modelled.
- Races between the signer and the console writing the same files as separate processes: the code takes no cross-process lock, and the model gives each file one writer.
- Torn writes: a file write happens as a whole or not at all.
- Read and JSON errors of the signer's files, which keep it from starting; lines of the revoked file beyond bufio.Scanner's 64 KiB limit; read errors of the console's files, which make a handler answer 500 without changing anything.
- The shell form's script text beyond its quoting; `tailLines`, path parsing, environment and flag reading.
- Time arithmetic of `now.Add` beyond int64, and wall clocks that go backwards: the signer's clock never decreases.
- Lower-casing of characters outside ASCII in Cache-Control headers and host names.
- What the visitor gets when the handler fails: the reverse proxy's error page (502) is library code; ResponseCaching.ResponseCache.Serve says exactly when it fails.
- ResponseCaching.ResponseCache.Store: requires that the reply shares no array with the cache; callers cannot break this, since the cache only ever hands out fresh copies.
- LruStack.StackTheorem: is about runs of whole requests in which every key keeps its size and nothing expires; overlapping requests are covered by LruStack.TouchedStackTheorem, and runs with expiry and changing sizes by LruStack.HitsServeLatestStore and Exchanges.CacheIsBounded.
- Backends.Rewritten: takes the path of the backend's URL in escaped form and its query as given; parsing that URL, and the headers that the reverse proxy adds, are library code.
- EdgeRuns.NoTokenIsLost: assumes that outsiders do not pair an edge's id or install token with another token or id, and do not use an edge's token up; OutsideCalls.HarmlessIff shows that nothing less will do, but for registrations that are refused, and Enrollment.RunsAreSound holds without it.
- Enrollment.RunsAreSound: takes the trimmed and validated id and install token of a registration; ConsoleServing.Console.RegisterEdge states the trimming and the validation.
- Audit reasons in SignerRuns: the transition system logs whether a line says ok; AuthManagement.AuthManager.Record states the reason texts.
