# gorp: a verified model

gorp is a reverse proxy. Under its I/O sit small state machines and transformations: a lock-free circuit
breaker, counting limiters, a rate limiter, backend selectors, AWS request canonicalisation, a certificate
cache, a server lifecycle, a retrying transport, a SOCKS5 handshake, peek-and-replay connections,
configuration checks and routing. This project models them in Dafny and proves what they keep, on every
input, every run and every interleaving. `dafny verify dfyconfig.toml` checks all of it.

How the code is rendered:

- Objects that the code updates in place are classes (`Backend`, `Limiter`, `RoundRobin`,
  `CertificateCache`, `Conn`, ...). Each method is proved against a function on values, and the theorems are
  lemmas about those functions over whole runs.
- Concurrent protocols are state machines over their atomic operations or critical sections. A run is a
  sequence of scheduler moves by any number of goroutines; theorems hold for every such sequence. For the
  breaker both levels exist, and a call that nobody interrupts is proved to have exactly the effect of the
  atomic call. A hook runs only for a goroutine that `Available` let in and whose request has not ended; the
  request may also be dropped before any hook. After a response that switches protocols the error hook may
  still follow the response hook, since the standard proxy calls it when the upgrade fails.
- Clocks, random numbers, chunk sizes, map orders, context cancellation, signing and base round trips are
  parameters or free choices. `filepath.Match`, `path.Base`, `SplitHostPort`/`ParseIP` and white-space folding
  are function parameters.

What the proofs say about the code, beyond what its documentation promises:

- The breaker's thirty-second spacing of probes holds for uninterrupted calls (`BreakerRuns.GrantsAreSpaced`,
  `BreakerProbes.SerialProbesAreSpaced`) but not under every interleaving. There are three windows, each with a
  run that grants two probes at one instant: an asker between the deadline and its swap
  (`BreakerProbes.StaleAskerCoincides`), a response hook that wipes the deadline of a circuit opened after it
  closed it (`BreakerProbes.LateClearCoincides`), and an `openCircuit` that stores a deadline from an old clock
  reading (`BreakerProbes.StaleClockCoincides`). `BreakerProbes.GuardedProbesAreSpaced` says when spacing holds
  on a run. Its two guards are exact: at every grant, `BreakerProbes.NextProbeIsSpacedIff` over the continuations
  in which no deadline is wiped late; at every late wipe, `BreakerProbes.LateClearGrants`. Over all continuations
  no grant is safe (`BreakerProbes.NoGrantIsSafe`). The documentation says "about 30 seconds".
- A half-open circuit at rest can be closed again if and only if somebody still has a request on it in hand
  (`BreakerProbes.RestingStateRecoversIff`). A probe that is dropped before a hook runs, because of a CONNECT
  tunnel or a middleware that answers, strands its backend for good
  (`BreakerProbes.DroppedProbeStrands`).
- `Available` is no on a half-open circuit, and selectors that scan all backends turn every due backend
  half-open while using one. The others stay out of service until some request on them ends
  (`Selectors.ScanStrandsTheOthers`).
- The middleware reads the clock before the lock is taken (pkg/routing/builtin_rate_limiter.go:87-88), so calls may
  reach the limiter out of time order. For calls in time order it lets at most `2 * max(1, max_requests) - 1`
  calls of a key through any window, and that bound is met. More generally the bound holds as long as every call
  of the key finds its live bucket and is not older than it (`RateLimiter.WindowBound`); it fails on a call older
  than the last purge (`RateLimiter.LateCallIsForgiven`) and on one older than its bucket
  (`RateLimiter.OlderCallBreaksBound`). `RateLimiter.PurgingShowsIff`, `RateLimiter.KeysInterfereIff` and
  `RateLimiter.KeptIff` say exactly when purging shows, when one key's calls change another's answers, and when a
  bucket is held after its end.
- At 32-bit `int`, the default of the Dockerfile, a hash in the upper half can give a negative home index.
  `Affinity.NeverPanicsIff` has the exact condition; for every pool of two or more backends one of the cookie
  values "b" and "c" makes the selector panic (`Affinity.PanicsAt32Bits`).
- The unstable sort may decide between routes with prefixes of one length, such as routes by host alone:
  `Routing.MayChooseIffBest`, `Routing.HostRoutesDependOnSort`. That is what the documentation of the sort
  permits; present Go keeps the order of slices as short as those of the example.
- A host with a `|` in it escapes the address-conflict check: `Validate.BarsHideCollisions`; the exact
  acceptance condition is the contract of `Validate.Validate`.
- A limited connection that is closed twice gives its slot back twice: `Slots.ConnectionsAreExact`. The only
  users of the limited listener (pkg/server/server.go:764 and 789) hand connections to a handler that closes
  each of them once (pkg/listener/tcp.go:141-143), so in this program the counter is exact.

## Model

| member | source | states |
|---|---|---|
| `Breaker.Backend.Available` | pkg/backend/backend.go:287-305 | checked or closed: whether healthy; open: yes from the deadline on, and then half-open and healthy; half-open: no; a refusal changes nothing |
| `Breaker.Backend.OpenCircuit` | pkg/backend/backend.go:326-333 | opens, unhealthy, counter zero, deadline thirty seconds ahead |
| `Breaker.Backend.Complete` | pkg/backend/backend.go:161-203 | a response passed by its modifiers with a status below 500 resets the counter and closes a half-open circuit; a transport error, a rejected response or a status of 500 and more changes nothing if checked or open, opens a half-open circuit for thirty seconds, and otherwise counts one, the fifth of which opens |
| `Breaker.Backend.SetHealth` | pkg/backend/backend.go:391-407 | the effect of a health check verdict |
| `BreakerRuns.CounterIsStreak` | pkg/backend/backend.go:168-201 | in every run the counter is the failures since the last success or transition while closed, zero otherwise, below five; healthy exactly when not open |
| `BreakerRuns.TripsOnFifthFailure` | pkg/backend/backend.go:192-201 | the breaker leaves closed exactly on the fifth failure of a streak, and then it opens |
| `BreakerRuns.OpenUntilDeadline` | pkg/backend/backend.go:192-201 | from the call that opens a circuit until the next grant no call changes it, so its deadline is thirty seconds after that call; the next grant is the first ask from then on |
| `BreakerRuns.HalfOpenIsDecided` | pkg/backend/backend.go:173-195 | a half-open circuit closes exactly on a success and opens exactly on a failure |
| `BreakerRuns.OpenOutlastsGrants` | pkg/backend/backend.go:326-333 | an open circuit's deadline is at least thirty seconds after every earlier grant |
| `BreakerRuns.GrantsAreSpaced` | pkg/backend/backend.go:292-304 | any two half-open grants of a run are at least thirty seconds apart, also across a close |
| `BreakerRuns.AnswerIsExact` | pkg/backend/backend.go:287-305 | after any run `Available` is yes exactly when closed, or open and due |
| `BreakerRuns.HalfOpenIsStranded` | pkg/backend/backend.go:292-304 | asking, however often and whenever, never moves a half-open circuit nor gets a yes from it |
| `BreakerRuns.CheckedFollowsLastCheck` | pkg/backend/backend.go:287-290 | with a health check path, availability and state follow the verdict of the last check, in every run |
| `BreakerThreads.EveryInterleaving` | pkg/backend/backend.go:172-177 | under every interleaving: a suspicious state (not open, unhealthy) has a goroutine about to repair it; the counter is at most four plus the goroutines about to reset it; trips, grants, closes and reopenings balance |
| `BreakerThreads.QuiescentIsSound` | pkg/backend/backend.go:287-333 | no resting state is wedged: not open implies healthy, the counter is below five, every trip but an open one granted one probe |
| `BreakerThreads.OpenCircuitIgnoresErrors` | pkg/backend/backend.go:193-200 | an error hook that loads open returns with the memory unchanged |
| `BreakerThreads.OnlyProbesGetIn` | pkg/backend/backend.go:295-304 | under every interleaving, callers let in through an open circuit, and those about to be, are as many as the probes granted |
| `BreakerThreads.SoloIsAtomic` | pkg/backend/backend.go:287-333 | a call run without interruption has exactly the atomic effect, admits its caller exactly on the atomic yes, and disturbs no other goroutine |
| `BreakerThreads.QuiescentAnswer` | pkg/backend/backend.go:287-305 | from every reachable resting state the next caller is let through exactly when closed, or open and due |
| `BreakerProbes.SoloIsRun` | pkg/backend/backend.go:287-333 | uninterrupted calls are among the interleavings |
| `BreakerProbes.RestingStateRecoversIff` | pkg/backend/backend.go:172-177 | a reachable resting state can be closed again by an orderly continuation if and only if it is not half-open or some goroutine still has a request on it in hand |
| `BreakerProbes.StrandedForGood` | pkg/backend/backend.go:292-304 | half-open with no request in hand: every continuation leaves the memory as it is and admits nobody |
| `BreakerProbes.DroppedProbeStrands` | pkg/routing/route.go:82-94 | a run to a resting state that nothing can close, by a granted probe whose hooks never run |
| `BreakerProbes.GuardedProbesAreSpaced` | pkg/backend/backend.go:292-304 | under every interleaving with a nondecreasing clock, secure grants, and no wipe of the deadline of an open or opening circuit within thirty seconds of a probe, any two probes are thirty seconds apart |
| `BreakerProbes.SerialProbesAreSpaced` | pkg/backend/backend.go:292-304 | calls that do not overlap space their probes, however long each of them takes |
| `BreakerProbes.NextProbeIsSpacedIff` | pkg/backend/backend.go:296-299 | at every reachable grant, all orderly continuations keep the next probe thirty seconds away if and only if no goroutine stands where it can undercut the deadline |
| `BreakerProbes.LateClearGrants` | pkg/backend/backend.go:173-175 | every such wipe can be followed by a probe at that very instant, less than thirty seconds after the last one |
| `BreakerProbes.NoGrantIsSafe` | pkg/backend/backend.go:172-177 | after every grant some continuation with a proper clock grants again at the same instant |
| `BreakerProbes.StaleAskerCoincides` | pkg/backend/backend.go:296-299 | a run with two probes at one instant through a stale asker, without a late wipe |
| `BreakerProbes.LateClearCoincides` | pkg/backend/backend.go:173-175 | a run with two probes at one instant through a late wipe, with every grant secure |
| `BreakerProbes.StaleClockCoincides` | pkg/backend/backend.go:329-330 | a run with two probes at one instant through an old clock reading, without a late wipe |
| `Slots.SlotsAreExact` | pkg/backend/backend.go:51-71 | under every interleaving the counter is the number of holders, between zero and the limit; refusal exactly when full; a holder's check in `Release` always succeeds |
| `Slots.RoomIsGiven` | pkg/backend/backend.go:55-63 | an uninterrupted caller gets a slot exactly when there is one; a swap is lost only if the counter moved |
| `Slots.AlwaysBalanced` | pkg/server/server.go:379-396 | the accounting invariant of all three limiters, kept by every load, swap and subtraction |
| `Slots.ConnectionsAreExact` | pkg/server/server.go:439-476 | the counter is accepts in progress plus open connections less repeated closes, so exact if and only if nothing is closed twice |
| `Slots.ClosingTwiceOverAdmits` | pkg/server/server.go:470-476 | a run with two connections under a limit of one, after a double close |
| `Slots.UnlimitedNeverCounts` | pkg/backend/backend.go:51-54 | without a positive limit nobody is refused and the counter stays zero |
| `RateLimiter.Limiter.constructor` | pkg/routing/builtin_rate_limiter.go:26-37 | the limiter starts empty, with the clamped cleanup interval |
| `RateLimiter.Limiter.Purge` | pkg/routing/builtin_rate_limiter.go:44-48 | the deleting loop keeps exactly the buckets that have not run out, in any map order |
| `RateLimiter.Limiter.Allow` | pkg/routing/builtin_rate_limiter.go:39-63 | one call: answer and new buckets are those of the step function |
| `RateLimiter.PurgingIsInvisible` | pkg/routing/builtin_rate_limiter.go:39-63 | for every sequence of calls none of which is older than the last purge, so for all calls in time order, the answers are those of a never-purged counter of the calling key alone |
| `RateLimiter.SortedNoneLate` | pkg/routing/builtin_rate_limiter.go:43-50 | calls in time order are never older than the last purge |
| `RateLimiter.PurgingShowsIff` | pkg/routing/builtin_rate_limiter.go:43-62 | as long as no call of the key has found its live bucket purged, the answer to its next call, at any time, differs from the counter's if and only if that call does and the bucket was used up |
| `RateLimiter.ForgottenIff` | pkg/routing/builtin_rate_limiter.go:43-50 | after calls none of which is older than the last purge, a call finds its live bucket purged if and only if it is older than that purge and the purge came after the end of the bucket |
| `RateLimiter.LateCallIsForgiven` | pkg/routing/builtin_rate_limiter.go:87-88 | such a call, for every window up to a minute; it also breaks the window bound |
| `RateLimiter.BucketBoundInAnyOrder` | pkg/routing/builtin_rate_limiter.go:52-62 | calls in any order: no bucket lets through more than max(1, maxRequests) |
| `RateLimiter.NoStaleBuckets` | pkg/routing/builtin_rate_limiter.go:43-50 | unless a call a whole window older than the last purge has opened a bucket, no bucket is held that ran out a cleanup interval ago, at any time at which no purge is due |
| `RateLimiter.KeptIff` | pkg/routing/builtin_rate_limiter.go:43-50 | no bucket that had run out by the last purge is ever held if and only if there was no such call |
| `RateLimiter.LateCallLeavesStale` | pkg/routing/builtin_rate_limiter.go:52-58 | such a call, and the bucket it leaves |
| `RateLimiter.KeysInterfereIff` | pkg/routing/builtin_rate_limiter.go:39-63 | two limiters that saw the same calls of a key and purged no live bucket of them answer its next call, at any time, differently if and only if its bucket is used up and just one of them has purged it |
| `RateLimiter.KeysAreIndependent` | pkg/routing/builtin_rate_limiter.go:39-63 | if no call is older than the last purge, in particular in time order, two limiters that saw the same calls of a key answer its next call alike |
| `RateLimiter.LateCallTellsKeysApart` | pkg/routing/builtin_rate_limiter.go:43-48 | a call older than the last purge whose answer depends on another key's call |
| `RateLimiter.BucketBound` | pkg/routing/builtin_rate_limiter.go:52-62 | if every call of the key finds its live bucket and is not older than it, in particular in time order, one bucket lets through at most max(1, maxRequests) calls |
| `RateLimiter.WindowBound` | pkg/routing/builtin_rate_limiter.go:52-62 | if every call of the key finds its live bucket and is not older than it, any half-open interval of one window lets through at most 2 * max(1, maxRequests) - 1 calls of the key |
| `RateLimiter.SortedIsRegular` | pkg/routing/builtin_rate_limiter.go:52-62 | calls in time order do so |
| `RateLimiter.OlderCallBreaksBound` | pkg/routing/builtin_rate_limiter.go:52-62 | calls of one key, none older than the last purge, of which four pass where the bound is three |
| `RateLimiter.WindowBoundIsMet` | pkg/routing/builtin_rate_limiter.go:52-62 | for every limit and window of at least two ticks there are calls that meet that bound |
| `SigV4.UnescapeEncode` | pkg/backend/auth_aws.go:129-145 | query decoding undoes the encoding on every byte string |
| `SigV4.UnescapeIff` | pkg/backend/auth_aws.go:102-109 | decoding gives `t` exactly when the text spells `t` byte by byte: as itself, `+` for a space, or `%` and two hexadecimal digits of either case |
| `SigV4.EncodedBytes` | pkg/backend/auth_aws.go:129-145 | encoded text has unreserved bytes and `%` only |
| `SigV4.EncodeByteIsExact` | pkg/backend/auth_aws.go:132-143 | an unreserved byte stands for itself, any other is `%` and the two upper-case hexadecimal digits of its value |
| `SigV4.EncodeConcat` | pkg/backend/auth_aws.go:132-143 | the encoding of a concatenation is the concatenation of the encodings |
| `SigV4.AwsUrlEncode` | pkg/backend/auth_aws.go:129-145 | the byte loop computes the encoding |
| `SigV4.ParseQueryString` | pkg/backend/auth_aws.go:95-127 | split, decode, encode, sort and join compute the canonical form, or the error |
| `SigV4.DecodeIff` | pkg/backend/auth_aws.go:97-113 | a query stands for `ps` exactly when it is pieces joined by `&`, of which those not empty are, in order, `name=value` cut at the first `=`, or a name alone, decoding to the pairs |
| `SigV4.CanonicalAscends` | pkg/backend/auth_aws.go:115-126 | the canonical string is the pairs as encoded `name=value` joined by `&`, names ascending by their first differing byte, and values among equal names |
| `Bytes.LeqIsByteOrder` | pkg/backend/auth_aws.go:115-120 | the order of the sort is ascending byte order |
| `SigV4.CanonicalOrder` | pkg/backend/auth_aws.go:115-126 | the canonical string joins exactly the decoded pairs, encoded, in ascending order of encoded name and then value |
| `SigV4.SameCanonicalIffSamePairs` | pkg/backend/auth_aws.go:95-127 | two well-formed queries have one canonical string if and only if their decoded pairs are equal as multisets |
| `SigV4.CanonicalIsIdempotent` | pkg/backend/auth_aws.go:95-127 | a canonical string is its own canonical string |
| `SigV4.OrderDoesNotMatter` | pkg/backend/auth_aws.go:95-127 | reordering the pieces changes nothing, for malformed queries too |
| `SigV4.DecodeJoined` | pkg/backend/auth_aws.go:115-127 | encoding and joining any list of pairs is undone by decoding |
| `SigHeaders.SignedHeaders` | pkg/backend/auth_aws.go:177-193 | the signed list is the sorted listing of exactly the signed names |
| `SigHeaders.CanonicalHeaders` | pkg/backend/auth_aws.go:148-174 | one line for each signed name in order, with a value of that header; the text is the block of the order in which the map was walked |
| `SigHeaders.NamesAreRight` | pkg/backend/auth_aws.go:177-200 | a name is listed exactly if it is `host`, or a header in lower case that is not `authorization` nor a forwarding header; the list ascends in byte order |
| `SigHeaders.SignedListNamesTheBlock` | pkg/backend/auth_aws.go:147-193 | the signed list names exactly the lines of the canonical block |
| `SigHeaders.LinesAre` | pkg/backend/auth_aws.go:166-172 | a line is `name:value` and a line break, and the block its lines in order |
| `SigHeaders.LowerIs` | pkg/backend/auth_aws.go:153 | lower case changes A to Z and nothing else |
| `SigHeaders.BlockIsDeterminedIff` | pkg/backend/auth_aws.go:152-173 | the text of the block is the same for all orders of walking the map if and only if headers that differ in case only agree in value |
| `SigHeaders.LinesInjective` | pkg/backend/auth_aws.go:166-172 | the text of a block determines the values in it |
| `Sorting.SortedIsUnique` | pkg/backend/auth_aws.go:115-120 | for a total order any sorted permutation is the same sequence, so the unstable sort is harmless |
| `Selectors.RoundRobin.Select` | pkg/selector/selector_roundrobin.go:15-32 | the loop returns the first available backend around the circle, and sets index and breakers accordingly |
| `Selectors.OneProbePerSelection` | pkg/selector/selector_roundrobin.go:21-31 | one selection moves at most one breaker, that of the backend it returns, from open to half-open |
| `Selectors.ChoosesFirstAvailable` | pkg/selector/selector_affinity.go:27-33 | the choice is the first around the circle that answers yes; failure exactly when none does |
| `Selectors.SelectionRotates` | pkg/selector/selector_roundrobin.go:21-31 | with fixed availability a selection takes the head of the cycle and moves it to the end; with none available the index ends where it began |
| `Selectors.RoundRobinCycles` | pkg/selector/selector_roundrobin.go:15-32 | from any index consecutive selections read off the available backends in cyclic order |
| `Selectors.RoundRobinIsFair` | pkg/selector/selector_roundrobin.go:15-32 | a full turn of selections returns each available backend exactly once and no other |
| `Selectors.TurnLength` | pkg/selector/selector_roundrobin.go:15-32 | a full turn is as many selections as there are available backends |
| `Selectors.Available` | pkg/selector/helpers.go:7-15 | the scan asks every backend and returns exactly those that answered yes |
| `Selectors.ScanStrandsTheOthers` | pkg/selector/helpers.go:7-15 | a scan turns every due backend half-open, and each refuses every later caller until a request on it ends |
| `Selectors.Lightest` | pkg/selector/selector_leastconnection.go:28-37 | the loop collects exactly the candidates of least load |
| `Selectors.LeastConnections` | pkg/selector/selector_leastconnection.go:18-42 | the choice has least load among the available; all expired breakers have moved; the empty-candidates error is unreachable |
| `Selectors.HomeSticks` | pkg/selector/selector_affinity.go:27-33 | a key whose home answers yes stays there, whatever the others do |
| `Affinity.Probe` | pkg/selector/selector_affinity.go:27-34 | the probing loop, including the panic on a negative index |
| `Affinity.Select` | pkg/selector/selector_affinity.go:15-34 | header index if it names a backend, else the hash, then the cyclic probe; a request with the key of an available backend gets it |
| `Affinity.HashIndexInRange` | pkg/selector/factory.go:37-44 | the home index is in range for every key at 64 bits; at 32 bits if and only if one backend, lower-half hash, or complement a multiple of the count |
| `Affinity.HomeOfKey` | pkg/selector/selector_affinity.go:20-24 | a request with the key of backend i has home i, whatever its hash |
| `Affinity.HomeByHash` | pkg/selector/selector_affinity.go:19-26 | any other request has the remainder of its hash as home, at 32 bits with the sign of the hash |
| `Affinity.NamesBackendIff` | pkg/selector/selector_header.go:26-33 | a header value names backend i exactly if it is the prefix and a decimal number, perhaps signed, that is i, and there is such a backend |
| `Affinity.EveryPoolHasABadKey` | pkg/selector/factory.go:37-44 | for every number of backends above one, a one-letter key with a negative home at 32 bits; no such key at 64 bits |
| `Affinity.PanicsAt32Bits` | pkg/selector/selector_affinity.go:19-28 | `Select` itself panics on that key, whatever the state of the backends |
| `Affinity.NeverPanicsIff` | pkg/selector/selector_affinity.go:19-28 | the exact condition under which a request has a usable home |
| `Affinity.KeyLeadsHome` | pkg/selector/selector_header.go:15-34 | a request that carries the key of backend i has home i for every i below n, and none past it |
| `Decimal.DigitsOfItoa` | pkg/selector/selector_header.go:15-17 | reading a written number gives it back |
| `Decimal.DigitsAre` | pkg/selector/selector_header.go:32 | decimal places and digits have their usual values |
| `CertCache.CertificateCache.DropIfUnchanged` | pkg/helper/tls.go:315-322 | deletes only the entry that was seen |
| `CertCache.CertificateCache.FindOldest` | pkg/helper/tls.go:352-359 | the loop with its empty-name sentinel finds an entry of least creation time, in any map order |
| `CertCache.CertificateCache.Store` | pkg/helper/tls.go:350-363 | a full cache loses one oldest entry, then the new entry is filed |
| `CertCache.EveryInterleaving` | pkg/helper/tls.go:304-365 | the cache invariant under every interleaving of handshakes |
| `CertCache.ServesTheRightHost` | pkg/helper/tls.go:304-365 | never more than 1024 entries; every certificate served is for the host asked for and unexpired when checked |
| `CertCache.DropsOnlyWhatExpired` | pkg/helper/tls.go:315-322 | the step of the conditional delete removes exactly the entry this handshake saw expire, never a newer one |
| `CertCache.BeginsWithItsHost` | pkg/helper/tls.go:305-308 | a handshake asks for its normalised server name, and is refused without one |
| `CertCache.DotIsDropped` | pkg/helper/tls.go:305 | the name in lower case, less one trailing dot |
| `CertCache.LiveEntryIsServed` | pkg/helper/tls.go:309-314 | in every run, a handshake that finds its host in the cache and looks at the clock before the expiry is served that very certificate, and changes nothing |
| `CertCache.IssuesOnlyWhatIsMissing` | pkg/helper/tls.go:312-324 | in every run, a certificate is issued only after its handshake found none, or an expired one |
| `CertCache.NewCertificateIs` | pkg/helper/tls.go:328-349 | a new certificate is for the host and good for 24 hours; without a signature the handshake is refused |
| `CertCache.NewCertificateIsFiled` | pkg/helper/tls.go:350-364 | it is filed with its expiry and served; fewer than 1024 entries all stay, of a full cache one oldest goes |
| `Lifecycle.NothingLeaks` | pkg/server/server.go:172-232 | in every interleaving the body runs once and `done` closes at most once; before the stop nothing is refused; stopped with the mutex free, every server whose registration has returned is shut down or refused and closed; once a `Shutdown` has returned nothing is left running |
| `Lifecycle.EveryInterleaving` | pkg/server/server.go:260-302 | the invariant behind it, kept by every step of every goroutine |
| `Lifecycle.AcceptedIsFrozen` | pkg/server/server.go:263-269 | after the stop no call ever adds a server |
| `Lifecycle.SomebodyMoves` | pkg/server/server.go:172-302 | no deadlock: while a call is under way some goroutine can step |
| `Retry.Delay` | pkg/backend/transport.go:165-175 | the doubling loop gives min(1s, backoff * 2^k) and never holds more than a second |
| `Retry.Loop` | pkg/backend/transport.go:144-188 | as below, for the loop alone |
| `Retry.FateIsUnique` | pkg/backend/transport.go:144-188 | the contract of the loop determines calls, result, closed bodies and waits, whatever interrupts it |
| `Retry.WaitsAre` | pkg/backend/transport.go:165-178 | one wait after each retry, the backoff doubled each time up to a second; none without a positive backoff |
| `Retry.BodiesAre` | pkg/backend/transport.go:158-160 | the closed bodies are those of the discarded responses |
| `Retry.RoundTrip` | pkg/backend/transport.go:130-204 | other methods pass through; otherwise retries + 1 attempts, or one if the body cannot be sent again; every attempt but the last was an error or a 502, 503 or 504 and undisturbed, and the last one tells the result; all other bodies closed; the final error only for a negative retry count |
| `Socks5.Conn.ReadFull` | pkg/listener/socks5.go:94-97 | takes exactly the bytes asked for, or fails |
| `Socks5.Conn.Negotiate` | pkg/listener/socks5.go:93-124 | greeting, method choice and replies |
| `Socks5.Conn.Authenticate` | pkg/listener/socks5.go:126-157 | the username/password exchange |
| `Socks5.Conn.ReadConnectRequest` | pkg/listener/socks5.go:159-202 | the request, or what is written on a refusal |
| `Socks5.Conn.Handle` | pkg/listener/socks5.go:57-70 | the whole handshake up to the dial: target, bytes left, bytes written |
| `Socks5.DialsIff` | pkg/listener/socks5.go:57-71 | the server dials exactly on streams that begin with an acceptable handshake |
| `Socks5.EncodeIsWire` | pkg/listener/socks5.go:13-26 | the acceptable handshakes, byte by byte: `5 n methods`, `1 n name n password`, `5 1 reserved`, kind 1, 3 or 4 with its address, and the port high byte first |
| `Socks5.PlainClient` | pkg/listener/socks5.go:57-71 | `5 1 0 5 1 r 1 a b c d p q` without users dials that address and port, leaves the rest and answers `5 0` |
| `Socks5.OpenGreeting` | pkg/listener/socks5.go:105-123 | without users method 0 is answered `5 0`, its absence `5 255` |
| `Socks5.PasswordGreeting` | pkg/listener/socks5.go:112-157 | with users method 2 is answered `5 2`, then `1 0` or `1 255`; its absence `5 255` |
| `Socks5.ConnectIsDialled` | pkg/listener/socks5.go:159-202 | after the greeting a CONNECT of any address kind is dialled, with the rest of the stream untouched |
| `Socks5.OtherRequestIsClosed` | pkg/listener/socks5.go:63-66 | another command gets `5 7 0 1 ...` and `5 1 0 1 ...`, an unknown address kind or a broken request only the latter |
| `Socks5.WrongVersionIsClosed` | pkg/listener/socks5.go:95-104 | another version, or a broken greeting, is closed without a word |
| `Socks5.WrongAuthIsClosed` | pkg/listener/socks5.go:127-145 | another version of the password exchange, or a broken one, is closed after `5 2` |
| `Socks5.AcceptableDials` | pkg/listener/socks5.go:57-71 | every acceptable handshake is dialled, to its own target, with the rest of the stream untouched |
| `Socks5.DialledWasAcceptable` | pkg/listener/socks5.go:57-71 | whatever is dialled was asked for, and exactly the handshake bytes were consumed |
| `Socks5.ReplyRoundTrip` | pkg/listener/socks5.go:204-233 | a client reading a reply recovers status, address and port |
| `Socks5.ReplyBytes` | pkg/listener/socks5.go:204-233 | the bytes of a reply, for no address, IPv4 in either form, and IPv6 |
| `Socks5.Conn.ReportDial` | pkg/listener/socks5.go:71-80 | status 0 with the local address after a dial, a general error after a failed one |
| `Socks5.DeniedGetsTwoReplies` | pkg/listener/socks5.go:164-167 | a request that is no CONNECT gets two replies |
| `Replay.PeekedConn.Read` | pkg/httpmulti/main.go:34-49 | one read delivers the next bytes of the original stream |
| `Replay.PeekedConn.Drain` | pkg/httpmulti/main.go:34-49 | any reads over any chunks deliver the original stream in order, and all of it in the end |
| `Replay.Peek` | pkg/httpmulti/main.go:101-128 | the peeked connection stands for the whole stream; none for an empty one |
| `Replay.BufferedConn.Read` | pkg/listener/tcp.go:289-296 | one read delivers the next bytes: the checked ones first |
| `Replay.BufferedConn.Drain` | pkg/listener/tcp.go:289-296 | any reads over any chunks deliver the original stream in order, and all of it in the end |
| `Replay.ValidateInitialBytes` | pkg/listener/tcp.go:260-281 | accepts exactly when every checked position holds an allowed byte, and then stands for the whole stream |
| `Validate.KeyConflictsIff` | pkg/config/validate.go:143-154 | splitting a joined key sees an earlier listener exactly when network and port agree, its host has no bar and the hosts conflict |
| `Validate.FindConflict` | pkg/config/validate.go:143-152 | the loop over the keys, in any map order |
| `Validate.CheckAddresses` | pkg/config/validate.go:131-156 | no problem exactly when the addresses are in order |
| `Validate.CheckNames` | pkg/config/validate.go:118-127 | no problem exactly when the names are present and distinct |
| `Validate.CheckRoute` | pkg/config/validate.go:241-254 | no problem exactly when endpoints exist and there is a service or backends, not both |
| `Validate.CheckAdmin` | pkg/config/validate.go:278-291 | the administration address against the tcp listeners |
| `Validate.Validate` | pkg/config/validate.go:109-297 | the checks modelled accept exactly the configurations in order |
| `Validate.AcceptsIff` | pkg/config/validate.go:109-297 | the accepted configurations in full: names, addresses, paths, collisions, services, routes and administration |
| `Validate.CollideIff` | pkg/config/validate.go:324-337 | a collision: one network by listener type, one port other than zero, one host or any host on either side |
| `Validate.AcceptedDoNotCollide` | pkg/config/validate.go:131-156 | in an accepted configuration two listeners collide only if the earlier host has a bar; socket paths are distinct |
| `Validate.AcceptedAdminDoesNotCollide` | pkg/config/validate.go:278-291 | in an accepted configuration no listener, the last or only one included, collides with the administration address unless its host has a bar |
| `Validate.BarsHideCollisions` | pkg/config/validate.go:143-154 | two listeners on one address with a bar in its host are accepted |
| `Validate.AcceptedRoutesResolve` | pkg/server/builder.go:282-302 | every route of an accepted configuration gets a non-empty backend list, of the one service of its name |
| `Routing.RouteFor` | pkg/routing/router.go:35-47 | the two passes return the first path match, else the first match |
| `Routing.MatchLoop` | pkg/routing/route.go:34-50 | the match loop decides path, prefix, CONNECT and host matches |
| `Routing.MatchPathLoop` | pkg/routing/route.go:52-59 | the path loop |
| `Routing.MatchEndpointLoop` | pkg/routing/route.go:22-32 | the endpoint loop; no endpoints admit all |
| `Routing.MatchIff` | pkg/routing/route.go:22-59 | a match is by a path pattern on the path or its base, a prefix the path begins with, the prefix `/` on a CONNECT, or a host pattern |
| `Routing.RoutesTheLongestPrefix` | pkg/config/loader.go:119-124 | for any result of the sort: nothing chosen exactly when nothing admissible matches; else the longest prefix among path matches, or among all matches when there is no path match |
| `Routing.SortOrderKeepsLength` | pkg/config/loader.go:119-124 | two results of the sort route the same requests, by prefixes of the same length |
| `Routing.MayChooseIffBest` | pkg/config/loader.go:119-124 | the routes that some result of the sort gives a request are exactly its matches with the longest prefix, so its route is settled if and only if there is one of those |
| `Routing.HostRoutesDependOnSort` | pkg/config/loader.go:119-124 | two routes by host alone: the documented sort permits either choice |

## Left out

- HTTP, TLS, QUIC and sockets: foreign code; their effects are events, outcomes and byte streams here.
- Cryptography, X.509, hashing of requests and the rest of the signature: opaque.
- The hot-reload loop, the admin and echo endpoints, metrics, logging, and the header, CORS, delay, tracing and authentication middlewares: settled by reading one branch.
- The random, power-of-two and first-alive selectors: they share the scan that is modelled.
- Memory-model effects below single atomic operations: each atomic is sequentially consistent, as Go's are.
- Integer width of counters and times: failure counter, slot counters and nanosecond times are unbounded; the failure counter is proved to exceed four only by the number of goroutines in flight.
- Breaker.Backend.Complete: the classification of timeouts, which only picks the reply status, is not modelled.
- Slots.SlotsAreExact: speaks of a backend whose limit is set; the route builder never copies `max_connections` from the configuration into the backend.
- CertCache.ServesTheRightHost: server names are lower-cased as ASCII, not as Unicode.
- SigHeaders.CanonicalHeaders: names are lower-cased as ASCII, and white-space folding of values is a parameter.
- Affinity.Select: the key bytes of a request, or the random ones that replace an absent key, are a parameter.
- Selectors.LeastConnections: the random tie-break is a parameter; nothing is said about its distribution.
- Retry.RoundTrip: a context that is done is seen at the points where the code looks, as decided by the environment.
- Socks5.Conn.Handle: writes to the client always succeed, and the dial target is an address and a port, not their text form.
- Replay.PeekedConn.Read: the close of the connection after a failed read is not modelled.
- Replay.Peek: blocked peers, read deadlines and the TLS decision on the first byte are not modelled.
- Validate.Validate: durations, TLS, proxy, middleware, pattern, selector and backend checks are not modelled; they can only reject more.
- Validate.CheckAddresses: parsing an address into host and port is a function parameter.
- Routing.RouteFor: wildcard matching and the base of a path are function parameters.
