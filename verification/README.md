# seclib: a verified model

This project models the stateful core of seclib, a Rust security library, and proves what its protocols and
algorithms keep. `dafny verify dfyconfig.toml` checks it. Where the source changes things in place, the model is
a class or a method with a loop, proved against a specification; where many tasks run at once, it is a step
machine with one step per access to shared state, and the theorems are about every interleaving.

- `Store.dfy`, `StoreLaws.dfy`: `MemoryStore`. Every operation reads the clock several times and purges lazily; it is
  shown to be indistinguishable from a map that forgets each entry the moment it lapses, and what callers see is
  stated in terms of their calls.
- `Rotation.dfy`, `RotationInvariant.dfy`, `RotationTheorems.dfy`, `Revocation.dfy`, `Deadlines.dfy`, `Alarms.dfy`:
  refresh-token rotation as a step machine over that map, with any number of concurrent rotations and a clock that
  moves between any two store calls. Its inductive invariant yields one heir per token, detection of every reuse, one
  identity per family, how far a revocation with a finite time to live reaches, how long everything lasts, and what
  causes a revocation.
- `Issuer.dfy`: `JwtIssuer` itself, running over the lazily purged store with other tasks active at every await.
  Each call is a rotation of the step machine, so its theorems hold of the code.
- `BoundedCache.dfy`, `CacheTraces.dfy`, `StackDistance.dfy`: the TTL and LRU cache against an eager specification,
  theorems on whole runs, and its whole behaviour in terms of its calls.
- `Breaker.dfy`: the circuit breaker under all interleavings of begins and completions.
- `SafeIp.dfy`, `HttpClient.dfy`, `RequestLaws.dfy`: the address check, the pinning resolver, and the redirect and
  retry loops inside the breaker of the host, while other requests keep changing the pins and use the same breaker.
- `RateLimit.dfy`, `RateBound.dfy`: the fixed-window limiter and the exact number of requests it can let through in
  a stretch of any length.
- `Bits.dfy`, `Base32.dfy`, `Base32Theorems.dfy`, `Base32Numbers.dfy`: Base32 through an unmasked `u32`, against the
  bit regrouping of section 6 of RFC 4648 and as a change of base.
- `Jwks.dfy`: the double-checked refresh of a JWKS cache, as a step machine and as the client that drives it.
- `Encryption.dfy`: associated data and framing over an ideal AEAD.
- `Filename.dfy`, `ZipScan.dfy`: file name sanitizing and the zip scan.
- `Wrappers.dfy`, `Time.dfy`, `Words.dfy`, `Arithmetic.dfy`: an option type, clock readings, machine words and facts on
  division.

At five points the code does not do what one might expect of it. The model follows the code, shows a counterexample
and gives the exact condition:

- Revoking a family is not final when a rotation of it is in flight. A rotation that read the mark before it was
  written may still register an heir, which outlives the mark (`Revocation.RevocationCanBeOutlived`). Revocation
  is final if and only if no rotation is in flight (`Revocation.RevocationFinalIff`), it always covers the tokens
  registered by then (`Revocation.RevocationCoversMembers`), and it covers everything when rotations do not
  overlap (`Revocation.RevocationIsForEver`).
- A lost compare-and-set is reported as a replay, but it can also mean that the token lapsed while it was being
  rotated (`Alarms.LapseRaisesAlarm`, and `Alarms.SwapIsLostIff` for exactly when one is lost). No family is revoked
  for any other reason (`Alarms.RevokedForACause`), and the false alarm does no harm (`Alarms.LapsedFamilyIsOver`).
- `base32_decode` tests the upper-case form of a character but computes with the character as given, so letter
  case can matter (`Base32Theorems.CaseMatters`, and `Base32Theorems.CaseInsensitiveIff` for exactly when).
- A compare-and-set can find an entry alive and replace it after it has lapsed, so that no single instant explains
  it (`SessionStore.CompareAndSetSpansTime`, and `SessionStore.CompareAndSetInstantIff` for exactly when one does).
- A comment in the breaker has 5xx statuses trip it, but `execute_with_retry` returns a last 5xx as an answer, which
  counts as a success (`HttpClient.ServerErrorsDoNotTrip`, and `HttpClient.CompletionIff` for exactly what trips it).

A success while the circuit breaker is closed does not reset its failure count; the breaker's theorems are
stated accordingly.

## Model

| member | source | states |
|---|---|---|
| `SessionStore.MemoryStore.Get` | crates/seclib-core/src/store.rs:59-68 | answers as a map that forgets each entry the moment it lapses would, at one of its own clock readings, and leaves a map that cannot be told from that one afterwards |
| `SessionStore.MemoryStore.Set` | crates/seclib-core/src/store.rs:70-81 | the same for a write; the new deadline counts from a reading taken during the call |
| `SessionStore.MemoryStore.Delete` | crates/seclib-core/src/store.rs:83-87 | the same for a removal |
| `SessionStore.MemoryStore.CompareAndSet` | crates/seclib-core/src/store.rs:89-127 | the same although the clock is read once per purged entry, once for the comparison and once for the deadline: the comparison is as of one reading, the deadline from a later one |
| `SessionStore.Retain` | crates/seclib-core/src/store.rs:73 | purging with a reading per entry drops only lapsed entries, and every one that had lapsed before it began |
| `SessionStore.LazyMapIsIdeal` | crates/seclib-core/src/store.rs:59-127 | after any run of calls the lazily purged map shows a reader exactly what the ideal map does |
| `SessionStore.LazyRunIsIdeal` | crates/seclib-core/src/store.rs:59-127 | in any run every reply is the reply of the ideal map after the calls before it: the store linearizes in the order the lock was held |
| `StoreLaws.ReadsLastWrite` | crates/seclib-core/src/store.rs:59-127 | a value set or swapped in is found by every later call, until another write, if and only if it reads the clock less than the given number of seconds (365 days if none) after the deadline was computed, to the nanosecond |
| `StoreLaws.ReadsNothing` | crates/seclib-core/src/store.rs:59-127 | a key that was removed, or never written, is not found |
| `SessionStore.CompareAndSetSpansTime` | crates/seclib-core/src/store.rs:97-122 | a swap of an entry that lapses between its readings: no instant between them explains both its reply and the deadline it leaves behind |
| `SessionStore.CompareAndSetInstantIff` | crates/seclib-core/src/store.rs:97-122 | some instant between its readings explains a compare-and-set if and only if it is not a swap whose entry lapses between them and which writes a value that outlives the call |
| `RotationInvariant.StepKeepsInv` | crates/seclib-core/src/auth/issuer.rs:275-342 | every store call of every rotation, and every login, keeps the invariant: one parent chain per family, only its newest token possibly unused, one winner per compare-and-set, deadlines within one time to live |
| `RotationInvariant.RunKeepsInv` | crates/seclib-core/src/auth/issuer.rs:275-342 | so does every interleaving of any number of rotations |
| `RotationInvariant.StepGrows` | crates/seclib-core/src/auth/issuer.rs:234-342 | no step takes back a minted token, a registered token or a revocation mark, nor clears `used` |
| `RotationTheorems.OneHeirPerToken` | crates/seclib-core/src/auth/issuer.rs:301-333 | in every reachable state no two registered tokens name the same parent |
| `RotationTheorems.FamilyIsOneChain` | crates/seclib-core/src/auth/issuer.rs:301-333 | the registered tokens of a family are exactly one chain of `parent_id` links, without repetition, all but the newest used |
| `RotationTheorems.ExactlyOneRight` | crates/seclib-core/src/auth/issuer.rs:301-333 | (tokens last written as unused) + (rotations between a won compare-and-set and the registration of the heir) is exactly one per family, always |
| `RotationTheorems.ReuseIsDetected` | crates/seclib-core/src/auth/issuer.rs:283-321 | two completed rotations of one token that both found its metadata did not both succeed, and the family has been marked as revoked |
| `RotationTheorems.RotationKeepsIdentity` | crates/seclib-core/src/auth/issuer.rs:203-342 | a rotation succeeds only for a minted refresh token, and its two new tokens carry the user, tenant and roles of the login the family stems from |
| `TokenRotation.KeysDistinct` | crates/seclib-core/src/auth/issuer.rs:281-289 | the keys `rt:{jti}` and `rt_family:{id}:revoked` are injective and never coincide |
| `Revocation.RevocationCoversMembers` | crates/seclib-core/src/auth/issuer.rs:283-321 | once the mark is written, no rotation that has yet to read it ever succeeds with a token registered by then, even after the mark has lapsed or if it lapses between the read and the compare-and-set |
| `Revocation.BeatenForEver` | crates/seclib-core/src/auth/issuer.rs:289-321 | the expiry-ordering argument over whole runs: a mark outlives every unused token it covers, so a rotation that finds it lapsed finds its token lapsed too |
| `Revocation.MarkKillsUnlessInFlight` | crates/seclib-core/src/auth/issuer.rs:295-321 | right after the mark is written the family is dead if and only if no rotation of it is past its read of the mark with a compare-and-set won or still winnable |
| `Revocation.DeadForEver` | crates/seclib-core/src/auth/issuer.rs:275-342 | a dead family never gets another member and no further rotation in it succeeds |
| `Revocation.RevocationFinalIff` | crates/seclib-core/src/auth/issuer.rs:283-333 | some rotation begun after the mark can still succeed in the family if and only if a rotation was in flight when the mark was written |
| `Revocation.RevocationIsForEver` | crates/seclib-core/src/auth/issuer.rs:283-321 | when rotations do not overlap, the mark ends the whole family for ever |
| `Revocation.RevocationCanBeOutlived` | crates/seclib-core/src/auth/issuer.rs:283-333 | a reachable run in which revocation is outlived: a rotation wins, a concurrent one loses and marks the family, and a third one begun after the mark succeeds once it lapses |
| `Revocation.LoneRotationSucceeds` | crates/seclib-core/src/auth/issuer.rs:275-342 | liveness: an undisturbed rotation of a live unused token in an unmarked family succeeds |
| `Revocation.OwedHeirOutlivesMark` | crates/seclib-core/src/auth/issuer.rs:323-333 | an heir registered after the mark outlives it and can be rotated |
| `Revocation.FreshIds` | crates/seclib-core/src/auth/issuer.rs:154-214 | identifiers never run out, so no step of the machine is ever disabled for want of one |
| `Deadlines.TokenIsFoundFor` | crates/seclib-core/src/auth/issuer.rs:234-257 | until it is used, a token is found for one time to live from its registration, and not an instant longer, whatever happens in between |
| `Deadlines.TokenCanBeRotatedFor` | crates/seclib-core/src/auth/issuer.rs:275-342 | and for as long an undisturbed rotation of it in an unmarked family succeeds |
| `Deadlines.UseIsFoundFor` | crates/seclib-core/src/auth/issuer.rs:305-314 | a used token is found to be used for one time to live from the winning compare-and-set, which renews its deadline, and not found from then on |
| `Deadlines.ReplayIsRecognised` | crates/seclib-core/src/auth/issuer.rs:283-321 | for as long an undisturbed rotation of a used token in an unmarked family ends as a detected replay and writes the mark, with a deadline of its own |
| `Deadlines.MarkStandsFor` | crates/seclib-core/src/auth/issuer.rs:290-298 | for one time to live from its writing a mark refuses every rotation that reads it, of a used token too; if it is not renewed, not an instant longer |
| `Deadlines.RefusedAtTheDoor` | crates/seclib-core/src/auth/issuer.rs:259-280 | a rotation gets as far as the store exactly with an unexpired refresh token that was minted; which error each other token gets |
| `Deadlines.EntryLasts` | crates/seclib-core/src/auth/issuer.rs:234-342 | what is written for a token, with its deadline, is changed by nothing but its use |
| `Alarms.SwapIsLostIff` | crates/seclib-core/src/auth/issuer.rs:301-321 | a compare-and-set is lost if and only if another rotation has used the token up or the token has lapsed since its metadata was read |
| `Alarms.RevokedForACause` | crates/seclib-core/src/auth/issuer.rs:283-321 | over every run: a family is marked only after a rotation reported a replay of a token whose metadata it had found, and which another rotation had used up, or which had lapsed unused by the time the mark was written |
| `Alarms.LapseRaisesAlarm` | crates/seclib-core/src/auth/issuer.rs:316-320 | a reachable false alarm: a lone rotation of a token that lapses under it reports a replay and marks the family |
| `Alarms.LapsedFamilyIsOver` | crates/seclib-core/src/auth/issuer.rs:275-342 | the false alarm is harmless: once its unused token has lapsed, a family gets no other member and no rotation in it succeeds, marked or not |
| `Alarms.RunKeepsKnown` | crates/seclib-core/src/auth/issuer.rs:283-321 | in every interleaving each used token has a winner, each alarm a cause and each mark an alarm |
| `Issuer.JwtIssuer.RotateRefreshToken` | crates/seclib-core/src/auth/issuer.rs:275-342 | the code over `MemoryStore`, with other tasks running at every await, performs exactly one rotation of the machine from start to finish and returns its outcome |
| `Issuer.JwtIssuer.RotateDecoded` | crates/seclib-core/src/auth/issuer.rs:279-341 | the branches: missing metadata, revoked family, used token, lost compare-and-set, success |
| `Issuer.JwtIssuer.FetchMetadata` | crates/seclib-core/src/auth/issuer.rs:283-288 | the read of the metadata is the machine's step |
| `Issuer.JwtIssuer.FamilyIsRevoked` | crates/seclib-core/src/auth/issuer.rs:290-293 | the read of the mark is the machine's step |
| `Issuer.JwtIssuer.RevokeFamily` | crates/seclib-core/src/auth/issuer.rs:295-298 | the write of the mark is the machine's step |
| `Issuer.JwtIssuer.MarkUsed` | crates/seclib-core/src/auth/issuer.rs:301-314 | the compare-and-set, which also renews the parent's time to live, is the machine's step |
| `Issuer.JwtIssuer.IssueHeir` | crates/seclib-core/src/auth/issuer.rs:323-341 | minting and registering the heir is the machine's step; user and tenant come from the claims, roles and family from the metadata |
| `Issuer.JwtIssuer.RegisterRefreshToken` | crates/seclib-core/src/auth/issuer.rs:234-257 | the store cannot be told from one in which exactly this unused token was registered |
| `Issuer.JwtIssuer.Login` | crates/seclib-core/src/auth/issuer.rs:203-257 | a login is one step of the machine: it mints a fresh token for this user and tenant, registers it unused with these roles, and founds a family |
| `Issuer.JwtIssuer.DecodeRefreshToken` | crates/seclib-core/src/auth/issuer.rs:259-273 | under ideal signatures, decoding is decided by what was minted |
| `Issuer.JwtIssuer.SwapValue` | crates/seclib-core/src/store.rs:89-127 | a compare-and-set on the lazily purged store succeeds exactly when the never purged machine store shows the expected value |
| `BoundedCache.Cache.Get` | crates/seclib-core/src/http.rs:175-187 | as the eager cache: expired entries are gone, a hit is refreshed |
| `BoundedCache.Cache.Insert` | crates/seclib-core/src/http.rs:191-205 | as the eager cache: something is evicted only for a new key when `max_entries` live keys exist, and then a least recently used one |
| `BoundedCache.Cache.GetOrInsertWith` | crates/seclib-core/src/http.rs:209-223 | as the eager cache, with the factory's value only when the key is not alive |
| `BoundedCache.Cache.MakeRoom` | crates/seclib-core/src/http.rs:228-248 | expired entries go first; at most one live entry is evicted, the least recently used |
| `BoundedCache.Cache.LeastRecentlyUsed` | crates/seclib-core/src/http.rs:236-240 | the scan finds a least recently used key |
| `BoundedCache.Cache.constructor` | crates/seclib-core/src/http.rs:163-171 | a capacity of zero becomes one; `len <= max_entries` holds from then on |
| `CacheTraces.LazyRunIsEager` | crates/seclib-core/src/http.rs:175-248 | every run of the lazily purged cache is, reply for reply, a run of the eager one |
| `CacheTraces.LazinessUnobservable` | crates/seclib-core/src/http.rs:175-248 | with strictly increasing times the replies are the only ones the eager LRU map can give: lazy purging is unobservable |
| `CacheTraces.LargerHoldsMore` | crates/seclib-core/src/http.rs:175-248 | LRU inclusion: on the same calls the live keys of a smaller cache are among those of any larger one, last used at the same instants |
| `CacheTraces.LargerCacheHoldsMore` | crates/seclib-core/src/http.rs:175-248 | the same of the lazily purged caches themselves, at any later time |
| `CacheTraces.LargerAnswersAlike` | crates/seclib-core/src/http.rs:175-205 | for runs of `get` and `insert`, whatever the smaller cache answers the larger one answers too |
| `CacheTraces.RecentEntrySurvives` | crates/seclib-core/src/http.rs:129-135 | an entry just used stays, with its value, through any run within its time to live that does not overwrite it and touches fewer other keys than the cache can hold: a burst of fewer new hosts never loses an open breaker |
| `StackDistance.CacheFindsIff` | crates/seclib-core/src/http.rs:175-248 | the whole behaviour in terms of calls: a call finds what the last use of its key left, if and only if that was no longer ago than the time to live and fewer than `max_entries` other keys have been used since; a hit is a use |
| `StackDistance.CacheFindsNothing` | crates/seclib-core/src/http.rs:175-223 | a key never used is not found |
| `StackDistance.RunFits` | crates/seclib-core/src/http.rs:146-171 | never more than `max_entries` entries are live |
| `Breaker.AsyncCircuitBreaker.Begin` | crates/seclib-core/src/http.rs:328-343 | when an operation may start, and what that does to the state |
| `Breaker.AsyncCircuitBreaker.CompleteOk` | crates/seclib-core/src/http.rs:345-352 | only a half-open breaker closes; a success while closed leaves the count alone |
| `Breaker.AsyncCircuitBreaker.CompleteErr` | crates/seclib-core/src/http.rs:353-388 | which failures trip, and that the `u32` count never overflows |
| `Breaker.CountIsTrips` | crates/seclib-core/src/http.rs:328-390 | in every interleaving of begins and completions the count is the number of tripping failures since the breaker last became closed, and stays below max(1, threshold) |
| `Breaker.OpenedAtLatestTrip` | crates/seclib-core/src/http.rs:367-385 | while the breaker is open, `opened_at` is the time of the latest tripping failure |
| `Breaker.OpensOnNeeded` | crates/seclib-core/src/http.rs:367-385 | a closed breaker opens on exactly the max(1, threshold)-th tripping failure since it closed |
| `Breaker.StaysOpen` | crates/seclib-core/src/http.rs:333-343 | nothing but an admitted start ends the open state |
| `Breaker.NoTripsNoOpening` | crates/seclib-core/src/http.rs:345-388 | without tripping failures a breaker stays closed with a count of zero, in every interleaving |
| `Breaker.NoEarlyStart` | crates/seclib-core/src/http.rs:333-343 | no operation starts while the breaker is open within the recovery timeout of any tripping failure since it opened |
| `Breaker.AfterTrip` | crates/seclib-core/src/http.rs:367-385 | after any run, a tripping failure leaves a breaker that is not closed open from that failure on, a failed probe included, and a closed one open on the max(1, threshold)-th |
| `Breaker.AfterSuccess` | crates/seclib-core/src/http.rs:345-352 | a success closes a half-open breaker and changes nothing otherwise |
| `Breaker.AfterNoTrip` | crates/seclib-core/src/http.rs:355-367 | failures that do not trip, and rejections, change nothing |
| `Breaker.StartIff` | crates/seclib-core/src/http.rs:333-343 | a start is admitted if and only if the breaker is not open or opened longer ago than the recovery timeout, and leaves an open one half open |
| `Breaker.OnlySuccessCloses` | crates/seclib-core/src/http.rs:345-352 | in every run, only a success of a half-open breaker closes one that was not closed |
| `SafeIp.SafeV4Iff` | crates/seclib-core/src/http.rs:63-86 | the tests on octets reject exactly the addresses of thirteen address blocks |
| `SafeIp.SafeV6Iff` | crates/seclib-core/src/http.rs:45-61 | as 128-bit numbers: an IPv6 address that wraps an IPv4 one is judged as that one, any other is safe exactly outside ff00::/8, fc00::/7 and fe80::/10 |
| `SafeIp.LoopbackIff` | crates/seclib-core/src/http.rs:104 | what counts as loopback, and that none of it is safe by itself |
| `SafeIp.WrappingChangesNothing` | crates/seclib-core/src/http.rs:45-61 | an IPv4 address wrapped in IPv6, mapped or compatible, is judged as the IPv4 address |
| `HttpClient.FirstOf` | crates/seclib-core/src/http.rs:109-126 | one forbidden address among those resolved refuses the URL; otherwise the first is used |
| `HttpClient.AllOf` | crates/seclib-core/src/http.rs:272-291 | the resolver hands out all resolved addresses if all are permitted, and none otherwise |
| `HttpClient.SecureClient.ResolveAndVerify` | crates/seclib-core/src/http.rs:92-127 | which URLs pass, with which address, and with which error each other one is refused; a host name passes if and only if it has addresses and all of them are permitted, and then with the first |
| `HttpClient.SecureClient.Resolve` | crates/seclib-core/src/http.rs:256-303 | every address handed out is permitted, whatever other requests pinned or evicted; a live pin is used as it stands |
| `HttpClient.SecureClient.Await` | crates/seclib-core/src/http.rs:483-488 | other requests, which check before they pin, keep every live pin permitted |
| `HttpClient.SecureClient.ExecuteWithRetry` | crates/seclib-core/src/http.rs:542-596 | one to three attempts, one if the request may not be repeated; tried again after exactly the network and 5xx failures; a last 5xx is returned as an answer; retries are never reported as exhausted |
| `HttpClient.SecureClient.GetBreaker` | crates/seclib-core/src/http.rs:446-453 | the live breaker of the host if there is one, otherwise a new one that opens on the fifth failure for thirty seconds |
| `HttpClient.SecureClient.Request` | crates/seclib-core/src/http.rs:455-540 | the whole call: nothing is sent if the breaker of the host rejects it; otherwise it begins and completes under that breaker, whatever other requests do to it meanwhile, and what it does in between is a chain of hops each checked, pinned and cleared before it is sent |
| `HttpClient.SecureClient.Follow` | crates/seclib-core/src/http.rs:474-537 | the loop: what is done and returned, each hop leading to where the one before was redirected |
| `HttpClient.CompletionIff` | crates/seclib-core/src/http.rs:345-368 | a request counts against the breaker if and only if it returns an error: no answer, or a redirection not followed, as far as its hops got |
| `HttpClient.ServerErrorsDoNotTrip` | crates/seclib-core/src/http.rs:353-365 | a 5xx answer that outlasts its retries never trips the breaker, and closes one that was half open |
| `HttpClient.SentOnlyWhenChecked` | crates/seclib-core/src/http.rs:472-539 | every attempt of every request is preceded by the check, the pin and the allow-list clearance of that very URL, with only earlier attempts at it in between, and could connect to permitted addresses only |
| `HttpClient.FewAttempts` | crates/seclib-core/src/http.rs:472-596 | one request makes at most twelve attempts, four if it may not be repeated |
| `HttpClient.HopsLawful` | crates/seclib-core/src/http.rs:472-534 | at most three redirections are followed, and every hop before them was lawful |
| `RequestLaws.HopIsChecked` | crates/seclib-core/src/http.rs:478-495 | each hop goes to an http or https URL whose host is on the allow-list if there is one, and has an address that is safe, or loopback where allowed |
| `RequestLaws.HopIsTried` | crates/seclib-core/src/http.rs:560-594 | there is another attempt exactly after one with no answer or a 5xx, if the request may be repeated and fewer than three were made; all to the hop's URL and to permitted addresses |
| `RequestLaws.HopFollows` | crates/seclib-core/src/http.rs:507-533 | the first hop goes to the URL asked for, each other one to the location of the 3xx answer before it |
| `RequestLaws.RequestEnds` | crates/seclib-core/src/http.rs:498-537 | when a request ends after a hop, and with what; it goes on otherwise |
| `RequestLaws.RefusedBecause` | crates/seclib-core/src/http.rs:479-495 | why a URL is refused before anything is sent to it, and in which order |
| `RequestLaws.EventsOfHop` | crates/seclib-core/src/http.rs:483-505 | in the order of events each hop is its check, its pin, its clearance and its attempts |
| `RateLimit.MemoryRateLimitStore.Increment` | crates/seclib-core/src/store.rs:143-158 | counts as a counter that never purges and ignores lapsed windows |
| `RateLimit.RateLimiter.Handle` | server/seclib-server/src/rate_limit.rs:26-57 | a request is let through exactly when its count is within the limit |
| `RateBound.CountsAreWindowed` | crates/seclib-core/src/store.rs:143-158 | whatever is purged when, each key's requests are counted in that key's own windows |
| `RateBound.CountIsOrdinal` | crates/seclib-core/src/store.rs:143-158 | each returned count is the ordinal of the request since one that was counted 1 and opened a window still open |
| `RateBound.OpenersApart` | crates/seclib-core/src/store.rs:143-158 | two windows of one key never overlap |
| `RateBound.AdmittedBound` | server/seclib-server/src/rate_limit.rs:26-57 | in any half-open stretch of length L at most limit * (ceil(L/W) + 1) - 1 requests for a key are let through, over any run, and only limit * ceil(L/W) if L is one more than a multiple of W |
| `RateBound.SpentAndBudget` | server/seclib-server/src/rate_limit.rs:26-57 | the invariant behind it: what was let through plus what the open window and the windows to come can still give never exceeds the bound |
| `RateBound.BoundAttained` | server/seclib-server/src/rate_limit.rs:26-57 | the bound is exact for every length, window and limit: some run lets just as many requests through |
| `RateBound.ZeroLimit` | server/seclib-server/src/rate_limit.rs:46-49 | a limit of zero lets nothing through |
| `Base32.Encode` | crates/seclib-core/src/auth/mfa.rs:31-51 | the encoding is the unpadded regrouping of the input's bits, although the `u32` buffer is never masked and old bits are shifted off its top |
| `Base32.Decode` | crates/seclib-core/src/auth/mfa.rs:9-29 | what decoding yields in bits, for every string: a lower-case letter sets the bit before its own five unless that bit has already left the buffer |
| `Base32.PushSymbols` | crates/seclib-core/src/auth/mfa.rs:40-44 | the inner loop emits the whole groups of at most twelve pending bits |
| `Base32.PushOctet` | crates/seclib-core/src/auth/mfa.rs:23-26 | a byte leaves as soon as eight bits are pending |
| `Base32.AlphabetOrder` | crates/seclib-core/src/auth/mfa.rs:32 | the alphabet of section 6 of RFC 4648 |
| `Base32Theorems.DecodeEncode` | crates/seclib-core/src/auth/mfa.rs:9-51 | decoding the encoding of any byte string gives it back |
| `Base32Theorems.EncodedLength` | crates/seclib-core/src/auth/mfa.rs:31-51 | the encoding of n bytes has ceil(8n/5) characters |
| `Base32Numbers.EncodingIsTheNumber` | crates/seclib-core/src/auth/mfa.rs:31-51 | the encoding, read in base 32 by the alphabet of RFC 4648, is the number the input is in base 256, shifted left by the spare bits of the last symbol |
| `Base32Numbers.DecodingIsTheNumber` | crates/seclib-core/src/auth/mfa.rs:9-29 | any string of upper-case symbols decodes to the whole bytes of the number it is, whatever its leftover bits |
| `Base32Numbers.DecodesIff` | crates/seclib-core/src/auth/mfa.rs:10-20 | decoding fails exactly if, before the equals signs at the end, some character is neither a letter nor a digit from 2 to 7 |
| `Base32Numbers.PaddingIsIgnored` | crates/seclib-core/src/auth/mfa.rs:10 | equals signs at the end make no difference |
| `Base32Theorems.EncodeDecodeIff` | crates/seclib-core/src/auth/mfa.rs:9-51 | a string that decodes is its own re-encoding if and only if it is canonical: upper case, fewer than five bits left over, and those zero |
| `Base32Theorems.StreamBit` | crates/seclib-core/src/auth/mfa.rs:16-21 | each bit the decoder sees: the letter's own, or the spill of the next letter's case |
| `Base32Theorems.CaseInsensitiveIff` | crates/seclib-core/src/auth/mfa.rs:15-21 | decoding ignores letter case if and only if no lower-case letter's high bit spills into a kept bit that was not set |
| `Base32Theorems.CaseMatters` | crates/seclib-core/src/auth/mfa.rs:16-17 | it does not always: "mz" and "MZ" decode differently |
| `Jwks.CacheOfIsLastUsable` | crates/seclib-core/src/auth.rs:131-137 | a response gives a key for exactly the kids with a usable key, the last one published |
| `Jwks.JwksClient.UpdateCache` | crates/seclib-core/src/auth.rs:124-142 | the cache is replaced as a whole, with expiry one hour after it was computed |
| `Jwks.JwksClient.GetKey` | crates/seclib-core/src/auth.rs:67-106 | one call, with other callers running at every await, is one caller of the protocol from its arrival to its answer |
| `Jwks.JwksClient.FirstLook` | crates/seclib-core/src/auth.rs:68-77 | the first look at the cache is the protocol's step |
| `Jwks.JwksClient.SecondLook` | crates/seclib-core/src/auth.rs:82-92 | so is the second one, under the lock |
| `Jwks.JwksClient.FetchKey` | crates/seclib-core/src/auth.rs:94-145 | so are the fetch, the replacement of the cache and the final read, which ignores expiry |
| `Jwks.JwksClient.AcquireLock` | crates/seclib-core/src/auth.rs:79-80 | whoever holds the lock can always go on until it is released |
| `Jwks.StepKeepsInv` | crates/seclib-core/src/auth.rs:67-145 | at most one caller is past the lock, and the cache is always that of the response last installed |
| `Jwks.StepKeepsSpaced` | crates/seclib-core/src/auth.rs:67-145 | a caller that begins a fetch for a kid does so only after the key from the fetch before has expired |
| `Jwks.FetchesApart` | crates/seclib-core/src/auth.rs:67-145 | if fetches succeed and keep publishing a usable key for a kid, two fetches triggered by requests for it are at least an hour apart, in any interleaving of callers |
| `Jwks.ReturnedKeyIsInstalled` | crates/seclib-core/src/auth.rs:67-106 | every returned key is the last usable one for its kid in the response installed at that moment |
| `Jwks.LookEndsIff` | crates/seclib-core/src/auth.rs:67-92 | a look at the cache ends the call if and only if the installed response has a usable key for the kid and less than an hour has passed since its expiry was computed; otherwise the caller waits, or fetches |
| `Jwks.RespondInstalls` | crates/seclib-core/src/auth.rs:108-145 | a usable response is installed as a whole; after an unusable one the cache is as it was and the call is over |
| `Jwks.ReadBackIff` | crates/seclib-core/src/auth.rs:96-105 | after a fetch the caller gets a key if and only if the response has a usable one for its kid |
| `Jwks.OneAtATime` | crates/seclib-core/src/auth.rs:79-80 | no two callers are past the lock at once |
| `Encryption.AadInjective` | crates/seclib-core/src/crypto.rs:77-78 | `len:tenant:field` determines tenant and field, whatever colons and digits they contain |
| `Encryption.DecimalDenotes` | crates/seclib-core/src/crypto.rs:78 | the length in front is the decimal numeral of the number, without leading zeros |
| `Encryption.BigEndianValue` | crates/seclib-core/src/crypto.rs:90 | the version in front has its most significant byte first |
| `Encryption.DecryptionErrors` | crates/seclib-core/src/crypto.rs:106-146 | how decryption fails, and in which order |
| `Encryption.EncryptData` | crates/seclib-core/src/crypto.rs:61-94 | what is sealed under which associated data, and how it is framed; a key that is not 32 bytes long is refused |
| `Encryption.DecryptsIff` | crates/seclib-core/src/crypto.rs:96-149 | an encrypted payload decrypts if and only if tenant, field, expected version and key are the ones it was encrypted with, and then to what was encrypted |
| `Encryption.DecryptedWasSealed` | crates/seclib-core/src/crypto.rs:96-149 | nothing else decrypts: a payload that does is the frame of something sealed for this tenant and field, under the key of the version in front |
| `Filename.SanitizeFilename` | crates/seclib-core/src/files.rs:19-45 | the loop of replacements terminates and collapses every run of dots to a single one |
| `Filename.ReplaceCollapses` | crates/seclib-core/src/files.rs:34-37 | replacing pairs of dots from left to right never changes what the runs collapse to |
| `Filename.ReplaceShrinks` | crates/seclib-core/src/files.rs:34-37 | as long as there is a pair of dots, a replacement shortens the name |
| `Filename.SanitizedIsSafe` | crates/seclib-core/src/files.rs:19-45 | the result is not empty, has only allowed characters, no two dots in a row and no dot in front |
| `Filename.SanitizedTwice` | crates/seclib-core/src/files.rs:19-45 | sanitizing again changes nothing |
| `Filename.SanitizedFrom` | crates/seclib-core/src/files.rs:19-45 | what becomes of a name: its last component, masked and collapsed, marked if it would begin with a dot, or a name of its own if there is nothing |
| `Filename.MaskedAt` | crates/seclib-core/src/files.rs:26-33 | which characters stay and which become underscores |
| `Filename.CollapseCons` | crates/seclib-core/src/files.rs:34-37 | collapsing drops exactly the dots that are followed by a dot |
| `Filename.FileNameOfPath` | crates/seclib-core/src/files.rs:20-24 | what precedes a slash does not count, nor do slashes and single dots at the end; two dots are no name |
| `ZipScan.CheckZipBomb` | crates/seclib-core/src/files.rs:166-225 | with reads cut off, the scan accepts exactly the archives an unlimited scan would, inflates at most 200 MiB + 1 bytes of any archive, and each refusal is for its own reason |
| `ZipScan.InflatedSnoc` | crates/seclib-core/src/files.rs:194-203 | what counts towards the total |

## Left out

- Postgres and Redis stores and the session manager: their behaviour lives in SQL and Lua engines.
- Failures of the store, of serialization and of signing: store calls always succeed. Metadata is stored as the
  value it encodes, so a comparison of metadata stands for the comparison of its JSON text.
- Signatures are ideal: a token decodes exactly if its claims were signed by this issuer. Whether `exp` has passed
  is read off another clock than the store's, so it is a parameter of each decoding; issuer, audience, `iat` and
  `exp` are not fields of the modelled claims, and neither are MFA challenge tokens.
- UUIDs never repeat; they are drawn from a counter.
- Other callers of `register_refresh_token`: the model's logins register the token they just generated, for the same
  user and tenant, without parent or family. All tasks share one issuer configuration. An heir becomes known
  only once it is registered, so minting and registering it is one step; minting the access token after it is
  folded into that step.
- Issuer.JwtIssuer.Await: what other tasks do is constrained by its contract (steps of the machine, none of them
  of the caller's own rotation) and not carried out by its body.
- Jwks.JwksClient.Await: likewise; and a call that fails returns no key, without the kind of failure.
- Overflow of instants, poisoned locks and dropped futures: instants are natural numbers, lock
  sections are atomic and every call runs to its end.
- The width of the rate limiter's counter and the store's error path in its middleware; `window_secs` is taken to
  be at least one in the bound.
- HttpClient.SecureClient.Request: what other requests do to its breaker while its loop runs comes after the loop, which
  does not touch the breaker; what they do to other breakers meanwhile is not modelled. An error made by sending is
  taken to carry no status.
- HttpClient.SecureClient.ResolveAndVerify: parsing of URLs and addresses and the name server's answers are arbitrary.
- HttpClient.SecureClient.Send: connections kept alive from earlier requests, request bodies, delays between
  attempts and the contents of responses other than status and location are not modelled.
- JWKS expiries are compared on a wall clock, taken here to be monotone; the spacing theorem needs every fetch to
  succeed. Token verification and claims validation are not modelled.
- AES-GCM is an ideal AEAD that opens exactly what it sealed, with the nonce and the new ciphertext given as
  inputs; text is compared as characters, not as UTF-8 bytes.
- The compression ratio of the zip scan is compared exactly, not in floating point; opening an archive and reading
  errors in the middle of an entry are not modelled.
- `is_alphanumeric` outside ASCII is an arbitrary predicate; file names are taken apart as on Unix.
- Quarantine, antivirus scan, PDF and XLSX parsing, MIME sniffing, HTTP routing, CSRF and CORS, password hashing,
  webhooks, TOTP and recovery codes, logging, configuration and the Python bindings.
