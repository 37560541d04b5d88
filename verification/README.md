# Peretum in Dafny

Peretum is a reverse proxy with a lazily configured edge. This project models the parts of it
whose correctness is not visible in any one function, and proves what they are for:

- **Load balancing.** The Maglev table builder uses 0 both for an empty slot and for upstream 0,
  so slots of upstream 0 are taken over again and again; the table still comes out exactly
  balanced, by a counting argument, and is the one table that the hashes and the health of the
  upstreams determine. Around it: the lazy rebuild protocol in every interleaving,
  and which upstreams get probed when nothing is healthy, for each balancer.
- **Firewall rules.** Rules are compiled into one index per parameter and evaluated in one pass.
  The marks the pass leaves are characterised exactly, and with them when compiled evaluation is
  evaluation of the rules as written, for every request there can be.
- **The lazy edge.** A linked-list LRU that refines a recency list ordered by last use, the
  single-flight table, that its requests are served and that it agrees with the store in every
  interleaving, replay of retained configuration events in
  any order, with repeats and crashes, and the control plane's reconciliation over runs with failed
  calls and restarts; composed, from a directory of targets to the store of an edge.
- **The disk cache.** Byte accounting over whole runs, whom it evicts, how long entries live, what
  is left on disk, and the metadata codec.
- **Request coalescing** in every interleaving, and a **rate limiter** that drops idle buckets,
  with the exact limits for which no one is able to tell.

Code that works in place is modelled in place, as classes and methods with loops, and each method
is proved against a specification function; protocols between threads are state machines over
their atomic steps, and their theorems hold for every run with any number of threads. `dafny
verify dfyconfig.toml` verifies everything.

Modules: `MaglevPicks`, `Maglev` (with `NumberTheory`), `MaglevRebuild`, `Probing`, `Balancers`;
`WafRules`, `WafIndex`, `WafMatcher`, `WafCompile`, `WafEvaluate`, `WafMeaning`, `WafDecision`,
`WafRequest`, `WafFaithful`; `Lru`, `LruInclusion`, `LruRecency`, `Flight`, `EdgeStore`,
`ControlPlane`; `DiskShard`, `DiskSpace`, `DiskAccounting`, `DiskLeftovers`, `DiskRecency`,
`DiskCache`, `MetaCodec`; `Coalesce`, `RateLimit`, `RateLimitExact`; `Basics`.

## What the outside world became

- Clocks, hashes, file sizes, write failures and the outcome of a load are parameters of the
  method or of the step.
- Regular expressions, number, address and network parsing, case folding, the canonical form of
  header names, decimal printing and the multi-pattern search of the firewall are fields of
  `WafRules.Lib`; the only thing known of them is that the search reports exactly the patterns
  that occur.
- A request, to the firewall, is what its reader can be asked for (`WafRequest.Fields`): text
  fields, headers by canonical name, arguments by name and the number of the
  client's network.
- The event stream is the map of the last message of each subject; the target store and the cache
  directory are maps.
- A token bucket is measured in the seconds it takes to fill; `RateLimit.TokensTaken` and
  `RateLimit.TokensOverTime` state it in tokens.

## Where the code falls short of its comments

- Maglev: a healthy upstream other than upstream 0 whose second hash is a multiple of the table
  size makes the builder index past its permutation (`Maglev.Balancer.BuildTableLocked`). The
  panic is raised inside a request with the lock held, and no selection ever completes again
  (`MaglevRebuild.NothingAfterPanic`).
- Probing under the other balancers: with one URL listed twice a health report stamps the first of
  the two only, so once the second is probed it is probed for ever (`Probing.AnswersCycleIff`,
  `Probing.RepeatIsProbedForEver`).
- Probing under Maglev: reporting an upstream as down that is down already is not stamped, so probes
  do not rotate at all and a recovered upstream may never be asked (`MaglevRebuild.ProbesOneOnly`).
- Round robin: across the wrap of its 64-bit counter a call can pass over a healthy upstream
  (`Balancers.FindsHealthyIff`, `Balancers.WrapMisses`).
- Least connections: a count of -1 is taken for no candidate yet and loses to the next healthy
  upstream (`Balancers.LeastConnections.Next`). Only tests change the counts, so the program as it
  is does not get there.
- Firewall: an equality condition is lost when a later one compares the same parameter with the
  same value, a condition that looks for an empty string is lost, and one parameter has one name
  for all conditions (`WafFaithful.AlwaysTruthfulIff`, `WafFaithful.LostIsMissed`,
  `WafFaithful.ShadowedRule`).
- Single flight: an update that lands while its host is being loaded leaves the old handler
  resident until it is evicted or the next event for the host lands
  (`Flight.PublicationIsFreshIff`, `Flight.StaleHandler`, `Flight.StaleStays`).
- Reconciliation: a name published by a failed call and gone before the next one is never deleted
  (`ControlPlane.SyncedIff`, `ControlPlane.LostDeletion`), nor is one that goes while the control
  plane is down (`ControlPlane.RestartedIff`).
- Deletion: a store that fails to delete a row is logged and the event acknowledged all the same,
  so the row stays (`EdgeStore.AcknowledgedIff`, `EdgeStore.FailedDeleteDiverges`,
  `EdgeStore.SettledConvergesIff`).
- Replay: draining the stream stops at the first empty batch and reports success, although an update
  cut short is still to be redelivered (`EdgeStore.DrainedTooEarly`, `EdgeStore.DrainIff`).
- Redelivery: an event whose configuration cannot be read comes back every time, although no
  delivery can settle it (`EdgeStore.HopelessIff`); after five deliveries the consumer gives up, so an update cut short as often is never
  completed (`EdgeStore.GivenUpTooEarly`, `EdgeStore.ExhaustedConvergesIff`).
- Disk cache: a scoped purge subtracts the number of entries from the running size instead of
  their bytes (`DiskAccounting.ScopedPurgeIff`), and the sweep leaves body files in place, which
  nothing accounts for and no operation but storing the same key again picks up
  (`DiskLeftovers.SweepLeaves`, `DiskLeftovers.StepLeaves`).
- Codec: a legacy sidecar whose status is 1 or 2 modulo 256 is read as another format
  (`MetaCodec.LegacyIff`).
- Rate limits: a bucket whose burst outlasts five minutes of its rate is dropped before it is full,
  and its key is admitted more often than its limits allow (`RateLimitExact.UnnoticedIff`,
  `RateLimitExact.BoundedIff`).

## Model

| member | source | states |
|---|---|---|
| `Maglev.TableSizeIsPrime` | internal/loadbalancer/loadbalancer.go:189 | the table size 65537 is a prime, which the bijection of the walks rests on |
| `Maglev.WalkVisitsDistinctSlots` | internal/loadbalancer/loadbalancer.go:239-248 | a permutation whose skip is not a multiple of the prime table size visits every slot once |
| `Maglev.WalkIsConstant` | internal/loadbalancer/loadbalancer.go:239-248 | one whose skip is a multiple never leaves its first slot |
| `Maglev.BuildPermutations` | internal/loadbalancer/loadbalancer.go:239-248 | each upstream's permutation is the walk of its two hashes |
| `Maglev.CursorInBounds` | internal/loadbalancer/loadbalancer.go:261-269 | while fewer slots were filled than there are, an upstream with a full permutation still has an unvisited one that looks empty, so its cursor is in bounds |
| `Maglev.MissKeepsInv` | internal/loadbalancer/loadbalancer.go:261-264 | skipping a slot that looks taken keeps the accounting of fills, claims and blocked slots |
| `Maglev.TakeKeepsInv` | internal/loadbalancer/loadbalancer.go:262-268 | so does taking one that looks empty, even if upstream 0 already held it |
| `Maglev.TakeKeepsPicks` | internal/loadbalancer/loadbalancer.go:262-268 | and what an upstream other than 0 takes is the first slot of its walk that no such upstream holds |
| `Maglev.ZeroOwnsTheRest` | internal/loadbalancer/loadbalancer.go:250-271 | in a finished table upstream 0 holds as many slots as it took turns, although its slots were taken over |
| `Maglev.TurnsAreFair` | internal/loadbalancer/loadbalancer.go:250-271 | after as many turns as slots every healthy upstream has had its exact share of turns |
| `Maglev.FinishedTable` | internal/loadbalancer/loadbalancer.go:250-271 | a finished fill is the exactly balanced table for the health vector |
| `Maglev.HealthySharesDifferByAtMostOne` | internal/loadbalancer/loadbalancer.go:226-272 | in such a table any two healthy upstreams hold slot counts that differ by at most one and unhealthy ones hold none |
| `Maglev.StuckUpstreamCannotFinish` | internal/loadbalancer/loadbalancer.go:261-269 | no fill finishes with a healthy upstream other than 0 that cannot move, if at most half as many are healthy as there are slots |
| `Maglev.Balancer.HasHealthy` | internal/loadbalancer/loadbalancer.go:209-216 | whether any upstream is healthy |
| `Maglev.Balancer.Probe` | internal/loadbalancer/loadbalancer.go:262-268 | the next slot of an upstream is taken if it looks empty and passed over if not, and either way fills, claims and cursors stay accounted for |
| `Maglev.Balancer.TakeSlot` | internal/loadbalancer/loadbalancer.go:261-269 | one upstream takes its next slot that looks empty, or runs off its permutation, which an injective one never does, nor upstream 0 alone |
| `Maglev.Balancer.FillRound` | internal/loadbalancer/loadbalancer.go:253-270 | one round gives every healthy upstream one slot, in order, until the table is full |
| `Maglev.Balancer.FillTable` | internal/loadbalancer/loadbalancer.go:250-271 | the nested loops end, and with the balanced table unless a cursor ran off |
| `Maglev.Balancer.BuildTableLocked` | internal/loadbalancer/loadbalancer.go:226-272 | with nothing healthy the old table stays; otherwise, unless the build panics, the new one is exactly balanced over the healthy upstreams and is the table of their hashes and health, slot by slot; it never panics if every healthy skip moves or only upstream 0 is healthy, and always does if another than upstream 0 is stuck and at most half as many are healthy as there are slots |
| `MaglevPicks.TableIsUnique` | internal/loadbalancer/loadbalancer.go:226-272 | hashes and health determine that table: no two differ in a slot |
| `MaglevPicks.EarlierSlotsAreHeld` | internal/loadbalancer/loadbalancer.go:241-268 | in it an upstream other than 0 holds a slot of its own walk, before which every slot of the walk belongs to an upstream other than 0 |
| `Maglev.PassesHeldOnly` | internal/loadbalancer/loadbalancer.go:241-268 | that holds for every place of the walk at which the slot stands |
| `MaglevRebuild.InvHoldsThroughout` | internal/loadbalancer/loadbalancer.go:274-336 | at every point of every run, also one in which a rebuild panics, the flag is set, or a health report is half done, or the table is current, and one thread at most holds the lock |
| `MaglevRebuild.ProbesOneOnly` | internal/loadbalancer/loadbalancer.go:274-336 | with nothing healthy, every selection of any stretch of a run without a success reported answers one and the same upstream, whatever else is reported |
| `MaglevRebuild.NothingAfterPanic` | internal/loadbalancer/loadbalancer.go:274-306 | once a rebuild has panicked inside a selection its lock is never released and no selection of the rest of the run completes |
| `MaglevRebuild.QuietTableIsCurrent` | internal/loadbalancer/loadbalancer.go:274-336 | in every interleaving, with the flag clear and no report half done the table is the balanced one of the hashes and the current health, and selection follows it |
| `MaglevRebuild.QuietBalancersAgree` | internal/loadbalancer/loadbalancer.go:274-336 | two balancers with the same upstreams, whatever happened to each, answer every request alike once they are quiet with the same upstreams healthy |
| `MaglevRebuild.ChangesAreStamped` | internal/loadbalancer/loadbalancer.go:308-336 | at every point of every run the time of last check of an upstream is that of the last report that changed its health |
| `MaglevRebuild.ReportStands` | internal/loadbalancer/loadbalancer.go:308-336 | a report is the health of its upstream up to the next report on it |
| `MaglevRebuild.NextPrefersHealthy` | internal/loadbalancer/loadbalancer.go:274-306 | every selection of every run answers the upstream the table names if it is healthy, otherwise the first healthy one, and otherwise the one unchecked for longest |
| `Probing.ProbeCandidate` | internal/loadbalancer/loadbalancer.go:61-72 | the first upstream with the oldest check, or none |
| `Probing.UnseenGoFirst` | internal/loadbalancer/loadbalancer.go:61-72 | with a ticking clock no upstream is probed twice while another waits |
| `Probing.WindowVisitsAll` | internal/loadbalancer/loadbalancer.go:61-111 | with no URL listed twice, of any n consecutive probes of n upstreams, each reported as failing by its URL, each upstream gets exactly one |
| `Probing.RotatesIff` | internal/loadbalancer/loadbalancer.go:61-111 | a run of more probes than upstreams visits all of them in every window exactly if no URL is listed twice |
| `Probing.RepeatIsProbedForEver` | internal/loadbalancer/loadbalancer.go:102-111 | once the upstream probed is not the first with its URL, every later probe goes to it |
| `Probing.SecondOfTwo` | internal/loadbalancer/loadbalancer.go:102-111 | of two upstreams with one URL the first is probed once and the second ever after |
| `Probing.AnswersCycleIff` | internal/loadbalancer/loadbalancer.go:61-111 | the answers to a run of failing probes have each upstream once in every window exactly if no URL is listed twice |
| `Balancers.Pool.MarkHealthy` | internal/loadbalancer/loadbalancer.go:102-111 | a report changes the first upstream with that URL and no other |
| `Balancers.RoundRobin.Next` | internal/loadbalancer/loadbalancer.go:86-100 | the first healthy upstream among those the wrapping 64-bit counter names, or the probe candidate if none of these is healthy, and the counter one past the last one named |
| `Balancers.LooksAtAllIff` | internal/loadbalancer/loadbalancer.go:86-100 | a call names every upstream exactly if the counter does not wrap or their number divides 2^64 |
| `Balancers.FindsHealthyIff` | internal/loadbalancer/loadbalancer.go:86-100 | a call finds a healthy upstream for every way they can be healthy exactly under that condition |
| `Balancers.WrapMisses` | internal/loadbalancer/loadbalancer.go:86-100 | a counter at which the one healthy upstream of three is not named |
| `Balancers.RoundRobin.HealthyCalls` | internal/loadbalancer/loadbalancer.go:86-100 | with everything healthy the answers go up by one from the counter on, round and round |
| `Balancers.RoundRobin.FailingProbes` | internal/loadbalancer/loadbalancer.go:86-111 | with nothing healthy, selecting and reporting a failure in turn, at ticking times and more often than there are upstreams, gives answers that have each upstream once in every window exactly if no URL is listed twice |
| `Balancers.WeightedRoundRobin.Next` | internal/loadbalancer/loadbalancer.go:144-172 | counters stay between 1 and the full weight at call boundaries, so the first healthy upstream after the cursor is always taken |
| `Balancers.WeightedRoundRobin.HealthyCalls` | internal/loadbalancer/loadbalancer.go:144-172 | with everything healthy the answers go up by one from the cursor on, whatever the weights |
| `Balancers.WeightedRoundRobin.FailingProbes` | internal/loadbalancer/loadbalancer.go:144-183 | the same of the weighted balancer |
| `Balancers.LeastConnections.Next` | internal/loadbalancer/loadbalancer.go:358-379 | the first healthy upstream with the fewest connections, unless its count is -1; then, of the healthy ones after the last with a count of -1, the first with the fewest, or that last one if none follows; the probe candidate if none is healthy |
| `Balancers.LeastConnections.FailingProbes` | internal/loadbalancer/loadbalancer.go:358-390 | the same of the least-connections balancer |
| `WafRules.TextMeans` | plugins/waf/waf.go:604-675 | equality, prefix, suffix and pattern by how the value is made up |
| `WafRules.ContainsMeans` | plugins/waf/waf.go:604-675 | containment without regard to case |
| `WafRules.ListsMean` | plugins/waf/waf.go:604-675 | membership in the trimmed nonempty items of a list, its negation, presence and absence |
| `WafRules.ComparisonsMean` | plugins/waf/waf.go:604-675 | greater and less are each other turned round and compare numbers |
| `WafRules.NetworksMean` | plugins/waf/waf.go:604-675 | an address lies in one of the networks, or, negated, in none of at least one |
| `WafRules.GroupsAreOr` | plugins/waf/waf.go:586-600 | a rule is an OR of its groups |
| `WafRules.ConditionsAreAnd` | plugins/waf/waf.go:586-600 | a group is an AND of its conditions that name a parameter |
| `WafRules.FirstOfTheseDecides` | plugins/waf/waf.go:559-583 | only enabled rules that allow, deny or limit decide, the first that matches |
| `WafIndex.CompileCondition` | plugins/waf/waf.go:493-530 | a condition that is not about networks goes to the one list, or the equality table, that its filing names |
| `WafIndex.ItemsIn` | plugins/waf/waf.go:510-515 | the set of trimmed, nonempty items of a list |
| `WafIndex.Wire` | plugins/waf/waf.go:464-477 | one condition, and the name it gives, compiled into the index of its parameter; one on networks is listed unless it names none |
| `WafIndex.GrownIndexes` | plugins/waf/waf.go:464-477 | compiling a condition keeps every list of its index exactly the conditions of that kind, in order |
| `WafIndex.LastNameCounts` | plugins/waf/waf.go:469-471 | a parameter goes by the last nonempty name that any condition on it gives |
| `WafMatcher.Merge` | plugins/waf/waf.go:540-552 | every distinct pattern once, with all its conditions |
| `WafMatcher.BuildMatcher` | plugins/waf/aho.go:16-34 | exactly the nonempty patterns, each with all its conditions |
| `WafMatcher.Match` | plugins/waf/aho.go:39-53 | exactly the conditions whose nonempty pattern occurs in the text, in whatever order and number the search reports them |
| `WafCompile.RuleSet.AddGroup` | plugins/waf/waf.go:449-479 | a group becomes the consecutive numbers of its conditions that name a parameter |
| `WafCompile.RuleSet.AddRule` | plugins/waf/waf.go:443-486 | a rule becomes the numbers of its groups, without empty ones, and is dropped if none is left |
| `WafCompile.RuleSet.FinalizeIndexes` | plugins/waf/waf.go:535-555 | every index gets a matcher for exactly its patterns and is otherwise unchanged |
| `WafCompile.RuleSet.Build` | plugins/waf/waf.go:395-490 | the flat list of conditions is numbered in order and indexed by parameter and kind |
| `WafCompile.TableIndexes` | plugins/waf/waf.go:464-478 | after any number of conditions each parameter's index lists its conditions by kind |
| `WafCompile.TableHas` | plugins/waf/waf.go:464-478 | exactly the parameters mentioned have an index |
| `WafCompile.RuleIsPlaced` | plugins/waf/waf.go:443-478 | a rule's conditions stand in the flat list right after those of the rules before it |
| `WafEvaluate.MarkPassing` | plugins/waf/waf.go:628-648 | exactly the listed conditions whose test passes are marked, and no mark is taken back |
| `WafEvaluate.ApplyTests` | plugins/waf/waf.go:628-674 | all lists are tested against a present value, networks only for an address and limits only for a number |
| `WafEvaluate.ApplyIndex` | plugins/waf/waf.go:604-675 | one scan marks what the index marks for the value, or for its absence |
| `WafMeaning.FilingKeepsMeaning` | plugins/waf/waf.go:493-530 | where a condition is filed, the test made there is true exactly if the condition holds, for every operator and value |
| `WafMeaning.EqualsIff` | plugins/waf/waf.go:498-499 | the equality table answers with the last condition that compares the parameter with the value |
| `WafMeaning.MarksIff` | plugins/waf/waf.go:604-675 | an index marks a condition exactly if it is on its parameter, holds, was not replaced by a later equal one and does not look for the empty string |
| `WafDecision.RuleMatches` | plugins/waf/waf.go:586-600 | some group has all its conditions marked |
| `WafDecision.Scan` | plugins/waf/waf.go:562-566 | in whatever order parameters come, a condition is marked exactly if it holds of the value under its parameter's name and was not lost |
| `WafDecision.Evaluate` | plugins/waf/waf.go:559-583 | the first enabled compiled rule that matches and decides; logging and unknown actions do not |
| `WafDecision.CompilationKeepsFirst` | plugins/waf/waf.go:411-487 | on any vector of marks the first compiled rule to decide is the first of the rules as written |
| `WafFaithful.TruthfulHitsDecide` | plugins/waf/waf.go:559-600 | if marks are true the outcome is that of the rules as written, evaluated as an OR of AND groups |
| `WafRequest.HostIsRead` | plugins/waf/waf.go:244-245 | the host is read as the host, unless it is empty, and as nothing else |
| `WafRequest.UrlIsRead` | plugins/waf/waf.go:255-256 | so the address, always |
| `WafRequest.PathIsRead` | plugins/waf/waf.go:257-258 | so the path |
| `WafRequest.QueryIsRead` | plugins/waf/waf.go:259-260 | so the query |
| `WafRequest.MethodIsRead` | plugins/waf/waf.go:261-262 | so the method |
| `WafRequest.IpIsRead` | plugins/waf/waf.go:263-264 | so the client address, unless it is empty |
| `WafRequest.CountryIsRead` | plugins/waf/waf.go:265-267 | so the country |
| `WafRequest.AsnIsRead` | plugins/waf/waf.go:268-273 | so the network number, in decimal, unless it is 0 |
| `WafRequest.AsnOrgIsRead` | plugins/waf/waf.go:274-276 | so its organisation |
| `WafRequest.CityIsRead` | plugins/waf/waf.go:277-279 | so the city |
| `WafRequest.BodyIsRead` | plugins/waf/waf.go:280-281 | so the body |
| `WafRequest.ArgsAreRead` | plugins/waf/waf.go:282-284 | so an argument, by its name |
| `WafRequest.HeadersAreRead` | plugins/waf/waf.go:246-287 | so a header, by its canonical name, and three under parameters of their own |
| `WafRequest.ReadsWhatCanBe` | plugins/waf/waf.go:242-291 | whatever the request, a parameter answers only what its kind of field can hold |
| `WafRequest.SameKeySameAnswer` | plugins/waf/waf.go:242-291 | names that read the same field get the same answer |
| `WafRequest.AnswersAsAsked` | plugins/waf/waf.go:242-291 | every such answer any request gives once the one field is changed, independently under any two names that do not read the same field |
| `WafRequest.OthersAreUnbound` | plugins/waf/waf.go:242-291 | and no parameter that reads another field answers differently for it |
| `WafFaithful.CompiledIsNaive` | plugins/waf/waf.go:395-600 | so it is for every request if all conditions are faithful: none that something satisfies is lost, and each that tells answers apart reads the field its parameter's name reads |
| `WafFaithful.CleanIsFaithful` | plugins/waf/waf.go:395-600 | one name per parameter, no repeated equality and no empty pattern make all conditions faithful |
| `WafFaithful.MarksAreSound` | plugins/waf/waf.go:604-675 | a mark on a condition that reads the field its parameter's name reads is never wrong, whatever is lost |
| `WafFaithful.AlwaysTruthfulIff` | plugins/waf/waf.go:242-675 | marks are true for every request exactly if all conditions are faithful |
| `WafFaithful.LostIsMissed` | plugins/waf/waf.go:498-552 | a lost condition is missed by some request exactly if its parameter can hold the value it compares with, or, looking for the empty string, is one the reader knows |
| `WafFaithful.ShadowedRule` | plugins/waf/waf.go:498-499 | of two rules on the same value the first denies as written, and compiled the second allows |
| `WafFaithful.Enforce` | plugins/waf/waf.go:395-600 | compiling and evaluating together meet the above |
| `WafFaithful.PathRule` | plugins/waf/waf.go:257-600 | from end to end: a rule that denies paths with a prefix denies, compiled, exactly the requests whose path has it |
| `Lru.LruCache.constructor` | internal/cluster/lru.go:22-36 | an empty, linked cache of at least one place |
| `Lru.LruCache.Get` | internal/cluster/lru.go:38-49 | the recency list's answer, and its entry moves to the front |
| `Lru.LruCache.Put` | internal/cluster/lru.go:51-68 | the recency list with the entry in front, cut to capacity by its last element alone; links, map and list stay in step |
| `Lru.LruCache.Delete` | internal/cluster/lru.go:70-81 | the recency list without the key, and whether it was there |
| `Lru.LruCache.AddToFront` | internal/cluster/lru.go:93-98 | forward and backward links agree after a node is linked in |
| `Lru.LruCache.Remove` | internal/cluster/lru.go:100-103 | and after one is linked out |
| `Lru.LruCache.MoveToFront` | internal/cluster/lru.go:105-108 | a node moves to the front and the rest keep their order |
| `Lru.LruCache.Evict` | internal/cluster/lru.go:110-117 | exactly the last element goes, from list and map; an empty cache stays empty |
| `LruInclusion.StepEmbeds` | internal/cluster/lru.go:38-81 | any operation keeps the smaller cache's list inside the larger one's, with at most one element more |
| `LruInclusion.OneMorePlace` | internal/cluster/lru.go:38-81 | so it is after every run |
| `LruInclusion.LargerCacheKeepsHits` | internal/cluster/lru.go:38-81 | on every run a larger cache answers every key the smaller one answers, with the same value |
| `LruRecency.OrderedByUse` | internal/cluster/lru.go:38-117 | in every run the list is ordered by last use, where a key is used by a put or by a get that hits |
| `LruRecency.PutDropsOldest` | internal/cluster/lru.go:51-68 | a put of a new key on a full cache drops the one key whose last use is oldest and keeps every other |
| `LruRecency.LookupAfter` | internal/cluster/lru.go:38-117 | what each operation makes of what the cache holds for each key |
| `LruRecency.HitIsLastPut` | internal/cluster/lru.go:38-81 | whatever a run answers for a key is the value last put for it, and nothing if it was deleted since |
| `Flight.InvHoldsThroughout` | internal/router/lazy.go:66-109 | lock, calls, channels, followers and handlers are in order at every point of every run |
| `Flight.SingleFlight` | internal/router/lazy.go:66-109 | a host has a call exactly if one thread, and only one, is loading it; with no load running the table is empty |
| `Flight.ReleaseClosesOwnChannel` | internal/router/lazy.go:100-106 | the channel about to be closed is open and belongs to that call alone |
| `Flight.FollowerHasOwner` | internal/router/lazy.go:74-87 | a follower's channel is closed or held by a live owner, through errors and panics of the load |
| `Flight.NoRedundantLoad` | internal/router/lazy.go:66-91 | once a handler is resident no thread claims its host before the handler was evicted or dropped |
| `Flight.ResidentUntilDropped` | internal/router/lazy.go:66-109 | a resident handler is replaced by no other, in whatever order loads end, until it was evicted or dropped |
| `Flight.ServedHandlerWasLoaded` | internal/router/lazy.go:66-123 | a handler that serves a host was compiled by a successful load of that host from a row the store held for it |
| `Flight.RequestsFinish` | internal/router/lazy.go:150-178 | while no request starts, those under way take a bounded number of steps between them, whatever the interleaving |
| `Flight.RequestIsShort` | internal/router/lazy.go:66-178 | a request takes at most eight steps of its own from its start on, whatever other requests start or do meanwhile |
| `Flight.RequestIsServed` | internal/router/lazy.go:66-178 | in every run a request that ends was serving the host it asked for in between, unless it was cancelled, a load of the host had failed or found no row, or its handler was dropped |
| `Flight.NeverStuck` | internal/router/lazy.go:66-109 | while a request is under way some thread can go on |
| `Flight.AgreesWithStore` | internal/proxyserver/lazy_cluster.go:69-111 | if no event for a host lands between a read of its row and that load's publication, a resident handler is always the one compiled from the current row, except while an event is half applied |
| `Flight.ServedFromCurrentRow` | internal/router/lazy.go:66-178 | in such a run a request during which no event for its host is applied is served, if it is, by a handler compiled from the row the store holds for it then |
| `Flight.PublicationIsFreshIff` | internal/router/lazy.go:97-106 | in any run a publication is fresh exactly if the row is still the one read |
| `Flight.StaleHandler` | internal/proxyserver/lazy_cluster.go:212-222 | a run in which an update is missed and the handler of the old row is resident after it |
| `Flight.StaleStays` | internal/proxyserver/lazy_cluster.go:212-222 | such a handler stays resident until it is evicted or the next event for its host lands |
| `EdgeStore.Edge.ApplyUpdate` | internal/proxyserver/lazy_cluster.go:188-224 | rows are written in order up to a failure, each with its handler dropped; success only in full |
| `EdgeStore.Edge.ApplyDelete` | internal/proxyserver/lazy_cluster.go:227-241 | the handler goes, and the row unless the store fails to delete it |
| `EdgeStore.Edge.ApplyMessage` | internal/cluster/nats_sync.go:367-380 | malformed events are terminated, every deletion and every update applied in full acknowledged, unreadable configurations and updates cut short returned for redelivery |
| `EdgeStore.AcknowledgedIff` | internal/proxyserver/lazy_cluster.go:227-241 | after an acknowledged delivery every row its event decides is as the event says, exactly if it is not a deletion the store failed to make of a row it has |
| `EdgeStore.HopelessIff` | internal/cluster/nats_sync.go:367-380 | which events no delivery can settle, and that of these the malformed alone are taken out of the stream |
| `EdgeStore.DropsWhatItWrites` | internal/proxyserver/lazy_cluster.go:188-241 | a delivery drops the handlers of exactly the hosts whose rows it writes, and that of a deletion that failed |
| `EdgeStore.Edge.FetchBatch` | internal/cluster/nats_sync.go:344-359 | every delivery of a batch is applied in order, also of one that ends in an error, which is passed on |
| `EdgeStore.Edge.CatchUp` | internal/cluster/nats_sync.go:324-339 | batches are drained up to the first that is empty, fails or finds the call cancelled, and the drain succeeds exactly if that one is empty |
| `EdgeStore.BatchesFlatten` | internal/cluster/nats_sync.go:324-359 | draining in batches is replaying all deliveries in a row |
| `EdgeStore.DeliveredRow` | internal/cluster/nats_sync.go:324-380 | any deliveries of retained events give a host the verdict of the events that speak of it once one of them has written its row, and until then leave it alone |
| `EdgeStore.ReplayedRow` | internal/cluster/nats_sync.go:324-380 | every complete replay gives a host that verdict, and leaves other hosts alone |
| `EdgeStore.ConvergesIff` | internal/cluster/nats_sync.go:324-380 | any deliveries of retained events, in whatever order and however far each got, end in the target store exactly if the first store has no rows unknown to the stream and every row it has wrong was written |
| `EdgeStore.ReplayConverges` | internal/cluster/nats_sync.go:324-380 | a complete replay, in any order, with repeats and crashes, ends in the target store exactly if the first store had no rows unknown to the stream |
| `EdgeStore.DrainIff` | internal/cluster/nats_sync.go:324-359 | what a drain is worth, whether it reports success or not: the target store exactly under that condition on the deliveries it fetched |
| `EdgeStore.DrainedTooEarly` | internal/cluster/nats_sync.go:324-359 | a drain that reports success with a row still missing |
| `EdgeStore.SettledConvergesIff` | internal/cluster/nats_sync.go:324-380 | once every retained event was acknowledged or terminated, the store is the target store exactly if the first one has no rows unknown to the stream and each of its rows that is to go was deleted by some delivery, whichever others failed |
| `EdgeStore.FailedDeleteDiverges` | internal/proxyserver/lazy_cluster.go:227-241 | a deletion that failed and was acknowledged leaves a row the target store does not have |
| `EdgeStore.ExhaustedConvergesIff` | internal/cluster/nats_sync.go:303-320 | once every event is settled or given up after five deliveries, the store is the target store exactly if the first one has no rows unknown to the stream and the rows that only deletions or updates given up decide are right or were written |
| `EdgeStore.GivenUpTooEarly` | internal/cluster/nats_sync.go:303-320 | an update cut short five times whose second row is never written |
| `EdgeStore.OrderIndependentIff` | internal/cluster/nats_sync.go:324-380 | replay is independent of order exactly if no two retained events disagree about a host |
| `ControlPlane.Publisher.BuildNext` | internal/controlplane/controlplane.go:130-139 | the hostname map of the directory, in which the last target to list a host wins |
| `ControlPlane.LastToListWins` | internal/controlplane/controlplane.go:130-139 | a host has an entry exactly if some target lists it, and it is the last of these |
| `ControlPlane.Publisher.PublishUpdates` | internal/controlplane/controlplane.go:144-155 | each new or changed name once, in any order, until a publish fails, whose message the stream may have stored or not |
| `ControlPlane.Publisher.PublishDeletes` | internal/controlplane/controlplane.go:157-168 | a deletion for each name gone |
| `ControlPlane.Publisher.SyncAll` | internal/controlplane/controlplane.go:118-172 | a call publishes exactly the added, changed and removed names, one message each, and succeeds exactly if the stream takes that many; an unreadable directory changes nothing |
| `ControlPlane.SyncedIff` | internal/controlplane/controlplane.go:144-170 | after a successful call the stream shows the directory exactly if it was not out of step on a name taken to be unchanged |
| `ControlPlane.LiveStateIsDirectory` | internal/controlplane/controlplane.go:118-172 | so it does after every successful call of every run in which failed calls are retried on the same contents and a restart is followed by contents that still have every live name |
| `ControlPlane.RestartedIff` | internal/controlplane/controlplane.go:118-172 | the first successful call after a restart leaves the stream at the directory exactly if the directory still has every live name |
| `ControlPlane.PublishesTheDifference` | internal/controlplane/controlplane.go:144-168 | a call after a successful one publishes exactly the names whose entry differs between the two directories, unless it fails half way |
| `ControlPlane.LostDeletion` | internal/controlplane/controlplane.go:144-170 | without the retry it need not |
| `ControlPlane.ConsistentIff` | internal/controlplane/controlplane.go:130-168 | the published stream is consistent exactly if no target lost a listed name to another |
| `ControlPlane.EdgesFollowDirectory` | internal/controlplane/controlplane.go:118-172 | from directory to edge: replay of the published stream is order independent exactly if no listed name is disputed, and then every complete replay gives the directory |
| `DiskShard.LruShard.Put` | internal/cache/disk/diskcache.go:74-97 | the entry becomes the most recent, and the answer is the change in bytes |
| `DiskShard.LruShard.Remove` | internal/cache/disk/diskcache.go:99-110 | the shard without the key, and the bytes freed |
| `DiskShard.LruShard.Evict` | internal/cache/disk/diskcache.go:112-126 | the least recent entry goes |
| `DiskShard.LruShard.FindExpired` | internal/cache/disk/diskcache.go:128-148 | exactly the expired entries go, whatever the order of the map, and the answer is their total size |
| `DiskShard.WithIsSound` | internal/cache/disk/diskcache.go:74-97 | a put keeps list and map on the same keys and the size their total |
| `DiskShard.WithoutIsSound` | internal/cache/disk/diskcache.go:99-148 | so does any removal |
| `DiskCache.DiskCache.constructor` | internal/cache/disk/diskcache.go:226-248 | an empty cache of thirty-two shards |
| `DiskCache.DiskCache.Touch` | internal/cache/disk/diskcache.go:271-279 | the entry is renewed in its own shard and the running size follows |
| `DiskCache.DiskCache.Remove` | internal/cache/disk/diskcache.go:283-287 | the entry goes and the running size follows |
| `DiskCache.DiskCache.Evict` | internal/cache/disk/diskcache.go:292-304 | the least recent entry of the lowest shard that has one goes, with both files |
| `DiskCache.DiskCache.EnsureSpace` | internal/cache/disk/diskcache.go:308-318 | the loop ends, and succeeds exactly if the bytes fit beside the drift |
| `DiskCache.DiskCache.SetResponse` | internal/cache/disk/operations.go:258-290 | what is cached, what is on disk and what is counted after each way storing can go, and exactly when it succeeds |
| `DiskCache.DiskCache.Stream` | internal/cache/disk/operations.go:335-390 | a stale entry goes with its files, a hit is recorded again with the size of its meta file |
| `DiskCache.DiskCache.Sweep` | internal/cache/disk/diskcache.go:337-350 | expired entries of all shards go with their meta files and their bytes |
| `DiskCache.DiskCache.Purge` | internal/cache/disk/diskcache.go:448-489 | the tracked entries the scope selects go, files stay, the running size falls by their number |
| `DiskCache.DiskCache.PurgeAll` | internal/cache/disk/diskcache.go:493-510 | every tracked entry goes with its files and the running size is zero |
| `DiskAccounting.RoomIff` | internal/cache/disk/diskcache.go:308-318 | making room keeps the accounting and succeeds exactly if the bytes fit beside the drift, under exact accounting if they fit at all |
| `DiskAccounting.RoomIsMinimal` | internal/cache/disk/diskcache.go:292-318 | it evicts no more than needed, one least recent entry of the lowest shard after the other |
| `DiskAccounting.StoredIsExact` | internal/cache/disk/operations.go:258-290 | storing keeps exact accounting within the limit and every meta file covered by a tracked entry, on every error path |
| `DiskAccounting.ServedIsExact` | internal/cache/disk/operations.go:335-390 | so does serving |
| `DiskAccounting.SweptIsExact` | internal/cache/disk/diskcache.go:337-350 | so does the sweep |
| `DiskLeftovers.SweepLeaves` | internal/cache/disk/diskcache.go:337-350 | the sweep removes no body file: left over, with neither entry nor meta file, are those that were and exactly the bodies of the entries it drops |
| `DiskLeftovers.StepLeaves` | internal/cache/disk/diskcache.go:271-510 | a body file left over survives every operation except, and always except, a successful store of its key |
| `DiskLeftovers.LeftoverStays` | internal/cache/disk/diskcache.go:271-510 | so it is still there, and unaccounted for, at every later point of a run in which its key is not stored |
| `DiskLeftovers.NoOtherLeftovers` | internal/cache/disk/diskcache.go:271-510 | in every run without sweeps and scoped purges every body file belongs to a tracked entry |
| `DiskRecency.OrderedByUse` | internal/cache/disk/diskcache.go:74-126 | in every run each shard is ordered by last use, where a key is used by a store that succeeds or by a hit |
| `DiskRecency.EvictsOldest` | internal/cache/disk/diskcache.go:292-304 | so an eviction takes, of the lowest shard with an entry, the one whose last use is oldest |
| `DiskRecency.StoredEntry` | internal/cache/disk/operations.go:258-290 | a successful store leaves an entry of the size of both files, and the files |
| `DiskRecency.ServedEntry` | internal/cache/disk/operations.go:335-390 | a hit leaves an entry of the size of the meta file alone |
| `DiskRecency.StoredLivesItsAge` | internal/cache/disk/diskcache.go:128-148 | a sweep spares what was stored exactly if its age is not over, or it has none |
| `DiskRecency.ServedLivesItsAge` | internal/cache/disk/diskcache.go:128-148 | and what was served has its age anew |
| `DiskRecency.CutShortStore` | internal/cache/disk/operations.go:258-290 | a store whose body cannot be written leaves no meta file behind |
| `DiskRecency.StaleGoes` | internal/cache/disk/operations.go:335-390 | a stale key goes, entry and files |
| `DiskRecency.PurgeDrops` | internal/cache/disk/diskcache.go:448-489 | a scoped purge drops exactly the tracked entries with a meta file that the scope selects |
| `DiskAccounting.PurgedIsSane` | internal/cache/disk/diskcache.go:448-489 | a scoped purge adds to the drift the bytes it removes less one an entry, never less than nothing |
| `DiskAccounting.ScopedPurgeIff` | internal/cache/disk/diskcache.go:477-486 | it leaves the accounting as it was exactly if every entry removed is one byte |
| `DiskAccounting.RunIsExact` | internal/cache/disk/diskcache.go:271-350 | in every run without scoped purges the running size is the tracked total, within the limit, and every meta file belongs to a tracked entry |
| `DiskAccounting.RunIsSane` | internal/cache/disk/diskcache.go:271-510 | in every run the running size is the tracked total plus exactly what scoped purges since the last full one left behind |
| `MetaCodec.WriteMetadata` | internal/cache/disk/operations.go:35-64 | the encoding of the metadata with headers in the given order |
| `MetaCodec.TopLayout` | internal/cache/disk/operations.go:35-42 | a sidecar starts with the byte 2 and the status in two bytes, the lower first |
| `MetaCodec.HostLayout` | internal/cache/disk/operations.go:43-45 | then the host behind its length in four bytes |
| `MetaCodec.PathLayout` | internal/cache/disk/operations.go:46-48 | then the path behind its length |
| `MetaCodec.CountLayout` | internal/cache/disk/operations.go:50-52 | then the number of headers |
| `MetaCodec.HeaderLayout` | internal/cache/disk/operations.go:54-62 | each header is its name and its joined values, both behind their lengths |
| `MetaCodec.JoinConcat` | internal/cache/disk/operations.go:58 | values are joined with a comma and a space between |
| `MetaCodec.ReadMetadata` | internal/cache/disk/operations.go:81-178 | the decoding of the current and the legacy formats, told apart by the first byte |
| `MetaCodec.EncodeThenRead` | internal/cache/disk/operations.go:35-195 | in every header order and whatever follows, decoding gives the metadata back with each header's values joined |
| `MetaCodec.RoundTripIff` | internal/cache/disk/operations.go:35-195 | exactly if status, strings and header count are within their limits |
| `MetaCodec.StrictPrefixIsRejected` | internal/cache/disk/operations.go:81-195 | no strict prefix of an encoding decodes |
| `MetaCodec.ReadExtends` | internal/cache/disk/operations.go:81-195 | what decodes still does, to the same, with bytes appended |
| `MetaCodec.ReadIsBounded` | internal/cache/disk/operations.go:105-195 | whatever bytes are read, the result is within the limits |
| `MetaCodec.LegacyIff` | internal/cache/disk/operations.go:81-138 | a legacy sidecar decodes to what was written exactly if its status is neither 1 nor 2 modulo 256 |
| `MetaCodec.LegacySuccessStatuses` | internal/cache/disk/operations.go:110-138 | among 2xx statuses, all but 257 and 258 |
| `Coalesce.OneOwnerPerKey` | internal/handler/handler.go:195-226 | a key has a flight in the map exactly if one request, and only one, owns it; with no owner running the map is empty |
| `Coalesce.ReleaseIsOwn` | internal/handler/handler.go:207-215 | the flight an owner looks up again, to record on or to close, is its own and still open |
| `Coalesce.WaiterHasOwner` | internal/handler/handler.go:202-222 | a flight is open exactly while its owner is still to close it, through returns and panics |
| `Coalesce.ClosedFlightIsFinal` | internal/handler/handler.go:394-404 | nothing is recorded on a closed flight |
| `Coalesce.WaiterReadsFinal` | internal/handler/handler.go:411-425 | a waiter reads the outcome only of a closed flight |
| `Coalesce.RecordedIff` | internal/handler/handler.go:394-404 | a flight is marked as recorded exactly if its owner recorded a response on it |
| `Coalesce.WaiterIsServedIff` | internal/handler/handler.go:411-425 | a waiter ends without going to the upstream exactly if the owner of its flight recorded a response and the cached entry was streamed |
| `Coalesce.NeverStuck` | internal/handler/handler.go:195-226 | a request under way, or the very owner it waits for, can always take a step towards its end |
| `RateLimit.Store.Allow` | plugins/ratelimit/store.go:39-66 | the answer and the new registry for any clock readings, with a bucket replaced when its rate or burst changes and the sweep at every 1024 buckets |
| `RateLimit.LimitsAreLawful` | plugins/ratelimit/store.go:40-45 | the limits in force are the configured rate and burst, or 100 and 200 where those are not positive, and a full bucket is worth exactly its burst |
| `RateLimit.TokensTaken` | plugins/ratelimit/store.go:49-56 | a new bucket holds its burst and a call takes one token exactly if there is one |
| `RateLimit.TokensOverTime` | plugins/ratelimit/store.go:49-56 | tokens flow in at the rate, up to the burst |
| `RateLimit.TablesAgree` | plugins/ratelimit/store.go:39-66 | at every point of every run the bucket of a key is as in a registry that never drops one, or was dropped and would be full by now, whatever other keys do |
| `RateLimit.SweepIsUnobservable` | plugins/ratelimit/store.go:57-64 | no call of any run is answered differently from a registry that never drops a bucket, if the buckets of its own key refill in time |
| `RateLimit.AdmissionsAreBounded` | plugins/ratelimit/store.go:39-66 | in any stretch of calls a key whose buckets refill in time is admitted at most the configured burst plus the configured rate times the seconds between first and last, whatever the limits of other keys |
| `RateLimitExact.UnnoticedIff` | plugins/ratelimit/store.go:27-66 | for any bound on the lag inside a call, dropping idle buckets goes unnoticed in all runs exactly if a bucket is full again within five minutes, that is, if the time its burst takes to flow in, or the lag if longer, plus that of one token, or the lag if shorter, is no more |
| `RateLimitExact.BoundedIff` | plugins/ratelimit/store.go:27-66 | the bound on admissions holds in all runs exactly under the same condition |
| `RateLimitExact.BurstIsExact` | plugins/ratelimit/store.go:39-66 | of the calls of a new key at one instant exactly the first are allowed, as many as the configured burst, whatever other keys call between them |
| `RateLimitExact.ChangedLimitsStartFull` | plugins/ratelimit/store.go:48-53 | limits that change take effect at once, from a full bucket |

## Left out

- Maglev.Balancer.BuildTableLocked: when a stuck upstream 0 is healthy beside others, or more than half as many upstreams are healthy as there are slots, whether the build panics depends on the walks of the others and is not characterised.
- Balancers.LeastConnections.Next: Increment and Decrement, which only tests call, are not part of the model; the counts are any integers.
- Balancers.RoundRobin.FailingProbes: selections and reports alternate; concurrent requests of one balancer are modelled for the Maglev balancer only.
- WafIndex.CompileCondition: operators are an enumeration, so their spelling and letter case, and the renaming of "in", are not modelled; the index's ten slices are one map from kind to list.
- WafFaithful.AlwaysTruthfulIff: the fields of a request are independent of one another, so that an address with a query and an argument in it need not go together.
- EdgeStore.ExhaustedConvergesIff: the waits between redeliveries and the limit on unacknowledged time are not modelled; deliveries come in any order.
- WafRules.Float: rounding in number parsing is the library's.
- Reading the YAML and JSON of rules and targets, splitting server names, block pages, geolocation.
- DiskCache.DiskCache.Purge: PurgeByHost, which subtracts the same count once at the end, is not a member of its own; which entries a scope selects is a predicate on keys.
- DiskCache.DiskCache.Stream: headers and bytes written to the client are not modelled.
- DiskAccounting.RunIsExact: operations run one after another; concurrent calls of the disk cache are not modelled.
- DiskShard.LruShard.Put: sizes are unbounded integers, not 64-bit ones.
- RateLimit.Store.Allow: rates are reals; the limiter library's rounding is not modelled.
- Flight.AgreesWithStore: the health checks, certificates and middleware of a compiled handler are not modelled.
- Weighted proportionality of the weighted round robin: the reset of all counters keeps weights from mattering.
- HTTP, TLS, QUIC and gRPC serving, the controllers, metrics, logging, compression and the image, style and script optimizers.
