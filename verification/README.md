# dnsmon, verified

dnsmon runs one DNS query against many resolvers at once, aggregates the answers, streams them to
clients, and drives monitors from the aggregate. This project models that core in Dafny and proves
what its parts promise. `dafny verify dfyconfig.toml` checks everything.

Each module follows one component of the program:

| module | component |
|---|---|
| `StreamProtocol`, `StreamInvariant`, `StreamSaving`, `StreamTheorems` | the streaming check: workers, coordinator, WebSocket handler and cancellation as one step relation; its invariant; what is stored; what holds over all runs |
| `FanOut` | the blocking fan-out of an ordinary check |
| `Summary`, `SummaryMeaning`, `SummaryLaws` | the aggregation loops against a declarative summary; its figures result by result; laws of the summary |
| `Monitor`, `MonitorLaws` | the monitor evaluator as classes; histories of a monitor; monitor against summary |
| `Limiter`, `LimiterLaws` | the token-bucket limiter as a class; laws over runs with evictions |
| `Cache`, `CachedQuery` | the cache store and key; queries through it, interleaved |
| `Registry`, `ResolverList` | the resolver registry as a class; request validation and the resolver list |
| `Session`, `Auth`, `Settings` | session tokens down to base64url and decimals; login, settings update and request gate over the stored document |
| `Trace` | the delegation walk, with the imperative referral building refined to a simple walk |
| `Permalink`, `Reverse` | base-62 check IDs; PTR names |
| `Collections`, `Text`, `Dns` | shared vocabulary: counting, sums and unions over lists; sorting, joining, splitting, numerals; DNS values |

Concurrent code is a state machine whose steps are the operations other goroutines can observe: taking
a semaphore slot, sending, locking, reading the shared slice and writing it back, and so on. A run is
any sequence of enabled steps, so a theorem about all runs covers every schedule. Panics (a send on or
a close of a closed channel, a negative wait group) are modelled as states and then proved unreachable.
Methods that loop in the program loop here too and are proved against functions or predicates, about
which the laws are proved. Nondeterminism stays: the majority is taken in arbitrary map order, and
evictions, replies and cancellation come at any time.

## Where the code differs from what is said about it

The model follows the code. For each of these there is a lemma with an input that shows it, and a lemma
with the exact condition under which the code does what is said.

- An ETA of zero is documented as "fully propagated" (`internal/dnsclient/result.go:93-95`). It is also
  zero when every diverging answer has TTL 0, in particular when the other responders say NXDOMAIN
  (`SummaryLaws.ZeroEtaWithoutConvergence`, `ZeroEtaExample`).
- With a tie for the majority the ETA can depend on map iteration order (`TieLeavesEtaOpen`). It does
  exactly when one of the tied answer sets outlasts the others, that is, is the only one served with
  the largest TTL (`SummaryIsDeterminedIff`); nothing else in the summary depends on it
  (`SummariesAgree`).
- Answer lists are counted under a comma-joined key. Some values with a comma inside, and the value
  `<empty>`, make different lists share a key (`Summary.KeyConflates`); which ones is
  `Summary.ValueIsAmbiguousIff`. A monitor can then report "not propagated" although the summary of the
  same check shows 100 per cent and the consensus is the expected value
  (`MonitorLaws.ConvergedButNotPropagated`). That cannot happen exactly when no two of the answer lists
  have one key and different values (`ConvergenceSufficesIff`).
- The monitor's consensus and the summary's majority name the empty answer list differently. A TXT
  record with an empty text counts as "no answers" for the monitor only, and `<empty>` for the summary
  only, so the value a monitor shows can be outvoted in the summary of the same check
  (`MonitorLaws.BlankMisleads`, `WordMisleads`; that such answers exist is `SingleBlankOrWord` and
  `EmptyTextIsAmbiguous`; `MajoritiesAgreeIff` says for which answers that cannot happen).
- A change monitor takes an empty baseline for "no baseline yet". A record that disappears and comes
  back with another value raises one alert, not two (`MonitorLaws.ReturnIsSilent`; `ChangedIff` says
  when an alert is raised).
- `setEqual` tells lists with the same set of values apart (`Monitor.RepetitionsCount`): it compares
  multisets (`SetEqualIsMultisetEquality`).
- The limiter keeps its rate only if burst is at most five times the rate per minute. Beyond that the
  eviction of an idle bucket refills it early (`LimiterLaws.EvictionDoublesBurst`; `RateBoundIff` and
  `EvictionUnobservableIff` have the exact condition).
- A username that contains `|` can be stored and can log in, but no session issued for it is ever
  accepted (`Session.RoundTrip`, `Auth.IssuedTokenPasses`).
- Custom resolvers choose their own IDs, and the cache knows a resolver by its ID alone, so a hit may
  return the result of another server (`CachedQuery.HitMayComeFromAnotherServer`). Hits are always the
  queried server's own exactly when the IDs of the cached requests identify their resolvers
  (`HitsAreOwnIff`). Registry entries can break that too: an entry from the file is listed beside the
  built-in one with its ID, not instead of it (`Registry.MergedIsListedBeside`; `ListedIsFoundIff` says
  when listing and lookup agree).
- The client reports timeouts and failures as results, not as error values
  (`internal/dnsclient/client.go:68-74`, `:92-103`), so they are cached like answers and served again
  (`CachedQuery.TimeoutIsServedAgain`; `HitsSucceedIff` says when no hit is a failure).
- Without explicit resolver IDs, custom resolvers are silently cut off beyond 200 entries
  (`ResolverList.CustomIsCutOff`; `CustomsAreKeptIff` says when none is).
- The trace prefers IPv4 for each name server, not over the whole referral, so an IPv6 address can be
  asked although a later name server has IPv4 glue (`Trace.LaterIPv4DoesNotLead`; `IPv4LeadsIff` says
  when an IPv4 address leads).

One more thing needs no lemma: the merged `glue` map in `internal/checker/trace.go:157-164` is never read,
so the model does without it.

## Model

| member | source | states |
|---|---|---|
| StreamProtocol.EffectiveConcurrency | internal/checker/stream.go:52-55 | a positive configuration is kept, otherwise the concurrency is 4 |
| StreamInvariant.StepKeeps | internal/checker/stream.go:48-116 | every step of worker, coordinator, handler, or cancellation keeps: wait group and semaphore count their workers, one worker in the mutex, results conserved as multisets between workers, channel and accumulator, a result dropped only after cancellation, summaries only of complete results |
| StreamInvariant.RunKeeps | internal/checker/stream.go:48-116 | that invariant holds in every state of every run |
| StreamTheorems.NeverPanics | internal/checker/stream.go:48-89 | no send on or close of a closed channel, no negative wait group, at most the configured number of workers between acquire and release, bounded channels |
| StreamTheorems.PublishedIsComplete | internal/checker/stream.go:64-115 | whenever a summary was announced or a check stored, the recorded results are exactly one per resolver and the summary is theirs, whatever was cancelled when |
| StreamSaving.SavedAsAsked | internal/checker/stream.go:103-115 | over every run nothing is stored unless asked for, and at most one check; where saving was asked for, a summary is announced only after an attempt to store it, and if the attempts succeeded exactly the check with it and the recorded results is stored |
| StreamTheorems.FrameOrder | internal/api/v1/stream.go:80-98 | the frames are one total, then results, at most one for each position of a resolver in the list, then at most one done; before a done frame come exactly as many results as announced, a rearrangement of those summarised |
| StreamTheorems.StepDecreases | internal/checker/stream.go:48-116 | every step decreases a measure over worker, coordinator and handler phases |
| StreamTheorems.RunsAreBounded | internal/checker/stream.go:48-116 | no run has more than 12 steps per resolver and 18 |
| StreamTheorems.NoDeadlock | internal/api/v1/stream.go:80-101 | until everything has ended some goroutine can move without anybody cancelling, with the handler draining or gone |
| StreamTheorems.Delivery | internal/api/v1/stream.go:80-98 | if nobody cancels and every write succeeds, a run that has ended has delivered total, one result per resolver, and the summary; and if storing succeeds, the check is stored exactly when that was asked for |
| StreamTheorems.PublishedRearrangesReplies | internal/checker/stream.go:83-96 | the results summarised by a stream are a permutation of the resolvers' replies |
| StreamTheorems.StreamMatchesCheck | internal/checker/checker.go:130-139 | for the same replies the streamed summary and that of the blocking check agree on everything but the ETA, and wholly unless a tied answer set outlasts the others |
| FanOut.ReturnsInListOrder | internal/checker/checker.go:257-285 | whatever the schedule, slot i holds the reply of resolver i and was written once |
| FanOut.QueriesAreBounded | internal/checker/checker.go:263-272 | at most the configured number of queries are in flight, and nothing panics |
| FanOut.FanOutEnds | internal/checker/checker.go:267-284 | at most six steps per resolver and two, and no deadlock before the return |
| Summary.KeyDecidesValues | internal/checker/checker.go:385-395 | for values without a comma and other than the reserved word, equal keys are equal multisets of values |
| Summary.KeySeesOnlyValues | internal/checker/checker.go:385-395 | answer lists with the same multiset of values share their key, whatever the values |
| Summary.KeyConflates | internal/checker/checker.go:385-395 | a comma or the reserved word makes different lists share a key |
| Summary.ValueIsAmbiguousIff | internal/checker/checker.go:385-395 | a value shares its key with another answer list exactly when it is the reserved word or breaks at a comma into two values in sorted order |
| Summary.Tally | internal/checker/checker.go:328-348 | the counting loop counts each status, and each key among the OK results |
| Summary.Majority | internal/checker/checker.go:353-360 | in any iteration order the choice is a key of greatest count |
| Summary.LongestTTL | internal/checker/checker.go:363-377 | the maximum TTL over OK results outside the chosen key, 0 when there is none |
| Summary.RaiseTo | internal/checker/checker.go:372-376 | the maximum of a floor and the TTLs of an answer list |
| Summary.BuildSummary | internal/checker/checker.go:322-383 | the result is a summary of its input in the declarative sense |
| SummaryMeaning.FiguresCountStatuses | internal/checker/checker.go:328-342 | responded, NXDOMAIN, timeouts and errors are the numbers of results with these statuses |
| SummaryMeaning.ConsensusCountsAnswers | internal/checker/checker.go:330-348 | the consensus lists the keys of the OK results with the number of results under each |
| SummaryMeaning.FiguresFollowMajority | internal/checker/checker.go:351-379 | no key outnumbers the majority; the convergence is its share of the responders; the ETA is the largest TTL sent with another key |
| Summary.PercentOfPart | internal/checker/checker.go:361 | the integer percentage is 100 exactly for the whole |
| SummaryLaws.Accounting | internal/checker/checker.go:328-348 | responded + timeouts + errors = total; the consensus counts and NXDOMAIN add up to responded; unique answer sets = number of keys |
| SummaryLaws.ConvergenceIsAgreement | internal/checker/checker.go:351-361 | convergence is at most 100, and 100 exactly when somebody responded and all responders are OK with one key; then the ETA is 0 |
| SummaryLaws.ZeroEtaWithoutConvergence | internal/dnsclient/result.go:93-96 | exactly when the ETA is 0 without full convergence |
| SummaryLaws.ZeroEtaExample | internal/dnsclient/result.go:93-96 | results with ETA 0 and convergence 50 |
| SummaryLaws.SummaryExists | internal/checker/checker.go:322-383 | every result list has a summary |
| SummaryLaws.SummaryIgnoresOrder | internal/checker/checker.go:322-383 | a summary of a list is a summary of each of its permutations |
| SummaryLaws.SummariesAgree | internal/checker/checker.go:322-383 | two summaries of the same results in any orders and tie-breaks differ at most in the ETA, and not at all when no tied answer set outlasts the others |
| SummaryLaws.SummaryIsDeterminedIff | internal/checker/checker.go:353-379 | the results determine the summary, whatever the iteration order, exactly when no answer set tied for the majority is the only one served with the largest TTL |
| SummaryLaws.AbsoluteMajorityIsUnique | internal/checker/checker.go:353-361 | convergence above 50 makes the plurality unique |
| SummaryLaws.TieLeavesEtaOpen | internal/checker/checker.go:353-379 | tied results with two summaries that differ in the ETA |
| Monitor.SetEqualIsMultisetEquality | internal/monitor/monitor.go:167-184 | comparing sorted copies decides multiset equality |
| Monitor.RepetitionsCount | internal/monitor/monitor.go:173-184 | two lists with the same set of values that do not compare equal |
| Monitor.Consensus | internal/monitor/monitor.go:187-206 | the value of the last result with a most frequent key, nil without OK results |
| MonitorLaws.ConsensusMeans | internal/monitor/monitor.go:186-206 | nothing without an OK result, else the sorted values of some OK result |
| Monitor.Evaluator.Run | internal/monitor/monitor.go:54-78 | one event per run; a failed check changes neither baseline nor messages; baselines are stored exactly when they are set; at most one message, on an alert only |
| Monitor.Evaluator.EvaluateChange | internal/monitor/monitor.go:80-105 | baseline capture, change and no change, with the new baseline and the store |
| Monitor.Evaluator.EvaluatePropagation | internal/monitor/monitor.go:107-132 | success exactly when somebody responded and every responder matches; the baseline stays |
| Monitor.Evaluator.MaybeNotify | internal/monitor/monitor.go:135-149 | one message, to the first enabled channel with the bound ID; reported as sent only if there was one |
| Monitor.BoundChannelIs | internal/monitor/monitor.go:143-147 | the target is the channel at the first place that is enabled and has the ID, none exactly when no place is |
| MonitorLaws.AlertReaches | internal/monitor/monitor.go:96-148 | an alert of either kind adds exactly one message, to that channel; without alert, binding or readable settings nothing is sent |
| MonitorLaws.EventMeans | internal/monitor/monitor.go:61-128 | the status of every event by what the check returned, and the baseline after it |
| MonitorLaws.BaselineIsLastSeen | internal/monitor/monitor.go:80-105 | over every history the baseline is, as a multiset, what the last successful check observed |
| MonitorLaws.ChangedIff | internal/monitor/monitor.go:84-104 | a run reports a change exactly when its check succeeded, something was last seen, and the observation differs from it as a multiset |
| MonitorLaws.MessagesAreChanges | internal/monitor/monitor.go:91-104 | over every history no more messages than reported changes |
| MonitorLaws.MessagesReachTheirChannel | internal/monitor/monitor.go:135-149 | over every history each message went to an enabled channel with the bound ID, configured at a run before |
| MonitorLaws.ChangesAreSent | internal/monitor/monitor.go:91-100 | each reported change with such a channel sends exactly one message, other runs none |
| MonitorLaws.ReturnIsSilent | internal/monitor/monitor.go:85-90 | a value that returns different after an absence is not reported |
| MonitorLaws.PropagatedIff | internal/monitor/monitor.go:107-128 | success implies 100 per cent in the check's summary, one answer set, and the expected value as consensus; these imply it back when all responders' values agree |
| MonitorLaws.ConvergenceSufficesIff | internal/monitor/monitor.go:107-128 | for answers drawn from a given set, 100 per cent with the expected value as consensus is success on all results exactly when the summary's keys tell the set's values apart |
| MonitorLaws.PropagatedIffOnPlainValues | internal/monitor/monitor.go:107-128 | for values without comma and reserved word success is 100 per cent with the expected value as consensus |
| MonitorLaws.ConvergedButNotPropagated | internal/monitor/monitor.go:107-128 | results with 100 per cent and the expected value as consensus for which the monitor reports no success |
| MonitorLaws.ConsensusIsPlurality | internal/monitor/monitor.go:186-206 | what the monitor observes is a majority answer set the summary may choose, if both count the same results together |
| MonitorLaws.MajoritiesAgreeIff | internal/monitor/monitor.go:186-206 | for answers drawn from a given set, the monitor's value is a majority of the summary on all results exactly when the set is unambiguous |
| MonitorLaws.BlankMisleads | internal/monitor/monitor.go:194-197 | results in which the monitor mistakes an empty text for no answers and shows a value the summary outvotes |
| MonitorLaws.WordMisleads | internal/checker/checker.go:385-388 | results in which the summary mistakes the reserved word for no answers and outvotes what the monitor shows |
| MonitorLaws.SingleBlankOrWord | internal/monitor/monitor.go:194-197 | which single values are mistaken for no answers: the empty text by the monitor, the reserved word by the summary |
| Limiter.Limiter.Allow | internal/ratelimit/ratelimit.go:36-62 | permits exactly when a token is available after the clamped refill, and the new bucket |
| Limiter.Limiter.Reset | internal/ratelimit/ratelimit.go:65-69 | the key's bucket is gone, all others stay |
| Limiter.Limiter.EvictStale | internal/ratelimit/ratelimit.go:84-93 | drops exactly the buckets idle since five minutes before the clock reading, which precedes the lock |
| Limiter.RefillComposes | internal/ratelimit/ratelimit.go:50-55 | refilling in two clamped steps is refilling in one |
| Limiter.AfterIsValid | internal/ratelimit/ratelimit.go:36-62 | in every run tokens stay within 0 and the burst |
| Limiter.NextAvailable | internal/ratelimit/ratelimit.go:36-93 | what each operation does to the tokens any key can spend; eviction does nothing under the side condition |
| LimiterLaws.GrantsAreBounded | internal/ratelimit/ratelimit.go:36-62 | the grants of a run are covered by the tokens at its start and the refill during it |
| LimiterLaws.RateBoundIff | internal/ratelimit/ratelimit.go:36-93 | in every window of every run at most burst + rate × window is granted, exactly when burst ≤ 5 × rate |
| LimiterLaws.EvictionUnobservableIff | internal/ratelimit/ratelimit.go:84-93 | every run gets the same answers as without evictions, exactly when burst ≤ 5 × rate |
| LimiterLaws.DenialIsInvisible | internal/ratelimit/ratelimit.go:50-60 | a denied call changes no later answer |
| LimiterLaws.SpacedCallsPass | internal/ratelimit/ratelimit.go:50-61 | calls a token's time apart are never denied, with or without evictions |
| Cache.PreimageInjective | internal/cache/cache.go:21-25 | the text behind the key is injective for any resolver ID when name and type contain no separator |
| Cache.PreimageConflates | internal/cache/cache.go:21-25 | with a separator in the name it is not |
| Cache.Memory.Get | internal/cache/memory.go:30-40 | finds live entries, drops an expired one, touches nothing else |
| Cache.Memory.Set | internal/cache/memory.go:43-49 | the entry is found until its deadline and not after; of the others exactly the evicted ones are forgotten |
| Cache.Memory.Delete | internal/cache/memory.go:52-55 | the key is not found afterwards, all others as before |
| CachedQuery.Checker.QueryWithCache | internal/checker/checker.go:287-320 | result and cache after a hit, a miss, a client error, and a call that bypasses the cache |
| CachedQuery.StepKeeps | internal/checker/checker.go:287-320 | every step of interleaved calls keeps: each entry was written by a call that got it from the client, with the deadline of that write |
| CachedQuery.HitIsFresh | internal/checker/checker.go:287-320 | over every run a hit is what the client returned to another call for the same ID, name and type, written no longer than the TTL ago |
| CachedQuery.MissIsLive | internal/checker/checker.go:302-319 | every other call returns its own reply, or an error result for a client error value; such a value is not stored, a result that reports a timeout or failure is; bypassing calls neither hit nor store |
| CachedQuery.BypassIsBlind | internal/checker/checker.go:290-300 | bypassing calls behave the same for every cache content and leave it as it is |
| CachedQuery.HitAfter | internal/checker/checker.go:287-320 | a run in which a cached call answers any other cached call with its question |
| CachedQuery.HitsAreOwnIff | internal/checker/checker.go:288 | in all runs, whatever the replies, hits are the queried resolver's own results exactly when cached requests with one ID, name and type name one resolver (or nothing is kept) |
| CachedQuery.HitMayComeFromAnotherServer | internal/checker/checker.go:288 | a run in which a hit returns the result of a server with another address |
| CachedQuery.HitsSucceedIff | internal/checker/checker.go:302-317 | in all runs no hit reports a timeout or failure exactly when no cached call repeats a question whose reply reports one (or nothing is kept) |
| CachedQuery.TimeoutIsServedAgain | internal/checker/checker.go:302-317 | a run in which a timeout is served from the cache |
| Registry.LastIs | internal/resolvers/registry.go:44-51 | the specification of lookup: the last list entry with the ID, none exactly when there is none |
| Registry.KeptHaveAddress | internal/resolvers/resolvers.go:22-24 | the entries kept of a list are exactly those with an address |
| Registry.Registry.Load | internal/resolvers/registry.go:30-43 | the list is the usable entries, the index agrees with it |
| Registry.Registry.Append | internal/resolvers/registry.go:107-112 | the merge loop appends the usable entries and keeps the index in agreement |
| Registry.Registry.LoadFile | internal/resolvers/registry.go:92-114 | a readable file is merged, an unreadable one changes nothing |
| Registry.Registry.Reload | internal/resolvers/registry.go:117-133 | reloading is loading the concatenation of the built-in list and the file |
| Registry.Registry.Get | internal/resolvers/registry.go:46-51 | the last list entry with the ID |
| Registry.LastConcat | internal/resolvers/registry.go:107-112 | after a merge the merged entry is found, else the former one |
| Registry.MergedIsListedBeside | internal/resolvers/registry.go:107-112 | a merged entry is listed beside the one with its ID, and only it is found |
| Registry.ListedIsFoundIff | internal/resolvers/registry.go:46-60 | listing and lookup agree exactly when no ID is listed with two entries |
| ResolverList.ValidateRequest | internal/checker/checker.go:397-416 | accepted exactly for a well-formed name, a supported type, at most 200 resolvers, and no private name unless allowed |
| ResolverList.NameAlphabet | internal/checker/checker.go:24 | the characters of an accepted name |
| ResolverList.AcceptedKeysAreDistinct | internal/cache/cache.go:21-25 | accepted requests share a key text exactly when they ask the same question |
| ResolverList.Requested | internal/checker/checker.go:204-214 | the registered resolvers of the enabled IDs in order, or the first unknown one |
| ResolverList.AllEnabled | internal/checker/checker.go:215-222 | the registered resolvers that are not disabled, in order |
| ResolverList.AddCustoms | internal/checker/checker.go:226-231 | all custom resolvers, or the first private one where that is not allowed |
| ResolverList.BuildResolverList | internal/checker/checker.go:199-254 | the list or the error of the specification; at most 200, none disabled in the settings, none private and unregistered unless allowed; unreadable settings disable nothing |
| ResolverList.ExplicitListIsExact | internal/checker/checker.go:199-238 | with explicit IDs an accepted request gets exactly the enabled requested resolvers in order and its custom ones, never truncated; when it fails |
| ResolverList.ImplicitListIsExact | internal/checker/checker.go:215-235 | without IDs the list fails exactly for a private custom resolver where that is not allowed, naming the first; it is the enabled registered ones and the custom ones, or the first 200 of these |
| ResolverList.ListIsGuarded | internal/checker/checker.go:226-231 | with or without IDs, unless private addresses are allowed, every resolver asked is registered or not private |
| ResolverList.ExplicitErrorIsFirst | internal/checker/checker.go:205-231 | which ID or address an error names: the first enabled unknown ID, else the first private custom resolver |
| ResolverList.NoDisabledResolver | internal/checker/checker.go:199-238 | at most 200, each a custom resolver or a registered one that is not disabled |
| ResolverList.CustomsAreKeptIff | internal/checker/checker.go:233-235 | without explicit IDs nothing is cut off exactly when everything fits |
| ResolverList.CustomIsCutOff | internal/checker/checker.go:233-235 | an accepted request that loses its custom resolver |
| Session.DecodeEncode | internal/settings/session.go:20-34 | unpadded base64url (section 5 of RFC 4648) decodes to what was encoded, for all byte strings |
| Session.AlphabetIsURLSafe | internal/settings/session.go:20 | the digits are those of table 2 in section 5 of RFC 4648 |
| Session.EncodesVectors | internal/settings/session.go:20 | test vectors of section 10 of RFC 4648 |
| Session.DecoderIsLenient | internal/settings/session.go:34-37 | line breaks and unused bits are ignored, padding and foreign characters rejected |
| Session.ParsesIff | internal/settings/session.go:26-47 | a token yields a name exactly when it is an encoded text with its keyed hash, the text a separator-free name and a number of seconds still ahead |
| Session.LifetimeIsTTL | internal/settings/session.go:19 | a token is valid for its TTL, up to the last full second |
| Session.ParseFormatInt | internal/settings/session.go:19-42 | decimal 64-bit numbers parse to what was formatted |
| Session.RoundTrip | internal/settings/session.go:18-47 | a signed token yields its username exactly before the expiry second and if the username has no separator |
| Auth.FillIDs | internal/api/v1/settings.go:107-111 | channels without an ID get a fresh one, the others stay |
| Auth.WithIDs | internal/api/v1/settings.go:102-112 | afterwards every channel has an ID, nothing else changed |
| Auth.Api.Login | internal/api/v1/auth.go:36-74 | when each reply is given, a session only for the stored username and a verified password; the secret is created at most once, nothing else changes; the token is for the stored username |
| Auth.Api.UpdateSettings | internal/api/v1/settings.go:78-125 | after acceptance the document holds the requested switches, name, channels and disabled resolvers, the new hash if a password was given, else the old, and the old secret; after every failure it is unchanged |
| Auth.Api.RequireAuth | internal/api/middleware.go:112-132 | pass exactly when authentication is off, or there is a cookie that is an encoded text with its keyed hash for the stored username and a time still ahead; never when the store cannot be read |
| Auth.AlwaysGuarded | internal/api/v1/settings.go:96-100 | over every run enabled authentication has a username and a password hash |
| Auth.SecretIsStable | internal/api/v1/auth.go:51-63 | over every run a non-empty signing secret never changes |
| Auth.IssuedTokenPasses | internal/api/middleware.go:112-132 | after any further logins and updates an issued token passes exactly until its expiry, seven days on, if the username is unchanged and has no separator |
| Auth.SessionsNeedCredentials | internal/api/v1/auth.go:41-65 | over every run sessions are issued only for the stored username and a verified password, with a token that carries its hash |
| Auth.RenamingEndsSessions | internal/api/middleware.go:127-131 | after a renaming tokens of the old name do not pass |
| Trace.GatherGlue | internal/checker/trace.go:141-156 | the glue maps hold the last usable address of each host |
| Trace.PickV4 | internal/checker/trace.go:187-193 | the first looked-up IPv4 address that is usable and new |
| Trace.Referral | internal/checker/trace.go:168-204 | the list is duplicate-free and without private addresses, and its head is the offer of the first name server that offers anything |
| Trace.Additional | internal/checker/trace.go:128-133 | the additional records but for the EDNS pseudo-record |
| Trace.TakeStep | internal/checker/trace.go:72-207 | what a hop records, and where it leads |
| Trace.StepMeans | internal/checker/trace.go:88-133 | status, zone, name server and sections of a step by the UDP response, else the TCP response, else a failure |
| Trace.OfferMeans | internal/checker/trace.go:141-203 | where an offered address comes from, and when nothing is offered, record by record |
| Trace.SameHost | internal/checker/trace.go:146-175 | host names are compared without regard to case and a final dot |
| Trace.Trace | internal/checker/trace.go:29-65 | the loop over referral lists is the simple walk over their heads |
| Trace.WalkIsDelegation | internal/checker/trace.go:49-62 | between 1 and 24 steps; all but the last are error-free non-authoritative referrals whose first offer is the next server, never a private address; an early end is a failure, an authoritative answer or a referral without offers |
| Trace.DeadEndIff | internal/checker/trace.go:168-204 | a referral leads nowhere exactly when none of its name servers offers an address |
| Trace.LaterIPv4DoesNotLead | internal/checker/trace.go:166-204 | a referral led by an IPv6 address although a later name server has IPv4 glue |
| Trace.IPv4LeadsIff | internal/checker/trace.go:139-204 | an IPv4 address leads the referral whenever some name server offers one, exactly when none does or the first that offers anything has one |
| Permalink.NewID | internal/checker/permalink.go:12-28 | the eight base-62 digits of the big-endian value of the first eight bytes |
| Permalink.EightBytes | internal/checker/permalink.go:17-20 | the value of eight bytes, most significant first |
| Permalink.NothingShiftedOut | internal/checker/permalink.go:16-20 | the 64-bit fold loses no bit |
| Permalink.DecodeEncode | internal/checker/permalink.go:22-26 | the digits denote the value modulo 62 to the 8th |
| Permalink.EncodeOrder | internal/checker/permalink.go:22-26 | IDs are equal, and ordered bytewise, exactly as the remainders are |
| Permalink.IDIdentifiesBytes | internal/checker/permalink.go:16-27 | below that power the ID identifies the bytes |
| Reverse.SwapEnds | internal/api/v1/reverse.go:70-88 | the two-index loop is exact reversal |
| Reverse.ToPTRName | internal/api/v1/reverse.go:61-90 | the name of the address, or the error |
| Reverse.IPv4Name | internal/api/v1/reverse.go:67-74 | the name of an IPv4 or IPv4-mapped address, spelled out (section 3.5 of RFC 1035) |
| Reverse.IPv6Name | internal/api/v1/reverse.go:81-89 | the name of any other address, digit by digit (section 2.5 of RFC 3596) |
| Reverse.RoundTrip | internal/api/v1/reverse.go:61-90 | parsing the name by section 3.5 of RFC 1035 or section 2.5 of RFC 3596 recovers every address, IPv4-mapped ones included |
| Reverse.NameIsAccepted | internal/api/v1/reverse.go:36-49 | the name passes validation in a reverse lookup, except for the resolver limit |

## Left out

- DNS traffic: a query is an arbitrary reply; in `StreamProtocol` it names its resolver, as the client does.
- Panics inside a query, and goroutines that never return from one.
- `net.DefaultResolver`, name and address parsing, and `isPrivateOrLocal`: parameters of the functions that use them.
- SHA-1, SHA-256, HMAC and argon2id: the cache key digest and the token signature are function parameters, password verification and generated secrets are inputs. Freedom from collisions is assumed only for the hits in `CachedQuery`, and only among the requests of the run. That a token cannot be made up is not stated.
- The SQL stores, Redis, and the LRU order: the stores are fields; a cache write may forget any keys. A failing event append or monitor save is not modelled.
- JSON: documents, cached results and frames are values.
- Floating point: tokens and minutes are reals; clocks are monotone.
- Edits of a monitor through the API: a history in `MonitorLaws` is the runs between two edits; an edit sets the baseline and starts a new history.
- Read-modify-write races between two settings handlers: each handler is one step.
- HTTP routing, headers, cookies' own expiry, request decoding, status codes, message texts, metrics, timestamps and durations.
- Lookup, DNSSEC and the other endpoints, `Registry.Filter`, schedules, notification senders, exporters, GeoIP and the web interface: easy or without such properties.
- Trace.TakeStep: does not record the query type, which is the request's in every step, the duration, and the error text; records stand for the answers converted from them.
- Session.Sign: usernames are byte strings; text encoding is not modelled.
- ResolverList.ValidateRequest: the kinds of error are modelled, their texts are not.
