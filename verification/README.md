# acme-gateway: verified model

acme-gateway stands between ACME clients and several upstream certificate authorities and
speaks RFC 8555 on both sides. This project models the parts of it that are hard to get
right - concurrent state machines over a small relational store, and the string and
arithmetic kernels they rest on - and proves what those parts promise, for every input and
for every run. `dafny verify dfyconfig.toml` checks the whole project.

One module per component:

- `AccountPool` - double-checked locking over a client cache, a mutex map and a table; any
  number of threads, any number of restarts. One gateway account always signs with one
  upstream key, so a dns-01 TXT value never changes during an order's life.
- `SlotPool` - round-robin slots, and registration on first use.
- `ChallengeProcessing` - the timed protocol of processing records, sweeps and workers.
- `ChallengePreparation` - what one worker deploys and triggers, with the watcher that cleans
  up running beside it.
- `Delegation`, `Propagation` - where a TXT record goes, and when it counts as visible.
- `ResourceMap` - the table behind URL rewriting: a linearizable get-or-create, new orders and
  order polls in any interleaving.
- `UpstreamNonces`, `ReplayNonces` - the nonces taken from a CA, and those handed to clients.
- `LinkHeader`, `LinkParameters` - the Link header parser: its splitting against a grammar of
  quotes, each link against what it has to look like, and all of it against the printer.
- `OrderStatus`, `Routing` - the stored status as a fold; routing and the CSR gate over runs.
- `Migration` - the schema migration, crash by crash.
- `Paths` - paths of a state machine given by its step relation.
- `Text`, `Division`, `Wrappers` - strings, with laws that fix trimming, case, affixes and
  splitting; division by a variable; `Option`.

A protocol with many threads is a state machine on values: `Enabled` and `Apply` give one
step (a critical section, one SQL statement, one call to the CA), `IsRun` strings them
together, and an invariant is carried along every run (`Always`). The code of one call is an imperative
method over a class, and where the two meet its effect, undisturbed, is proved to be a path
of the machine (`Reaches`). Time is a natural number of nanoseconds; the resolver, the CA, the
hooks, the database's failures and random values are parameters.

Where the code and its comments or its intent part, the code is modelled, a lemma exhibits
the difference, and another says exactly when the intent is met:

- Overlapping sweeps can remove a fresh processing record, after which two workers run for
  one challenge (`OverlappingSweepsAllowTwoWorkers`).  Live records stay in the map exactly
  when no deletion takes one away (`SafeExactlyWhenLiveSpared`), and then the guarantees of
  `OneWorkerPerChallenge` and `FailureVisibleForRetention` hold; atomic sweeps are such runs
  (`CleanRunsSpareLive`).
- An order poll that overlaps a finalize can leave a stale status behind, by skipping a write
  (`OverlappingPollLosesReport`) or by writing late (`LateWriteHidesRejection`); exactly when
  it can, whatever the order of the writes, and exactly when it does is said by
  `StoredIsFoldExactly` and `AtRestExactly`.  A stored "invalid" is not final
  (`InvalidIsOverwritten`).
- A dns-01 challenge whose authorization cannot be fetched at that moment is triggered without
  a record (`UnfetchableIsTriggeredUndeployed`); when it is not, is said by
  `TriggeredDeployedExactly`.
- Nothing orders the trigger of a challenge before the cleanup of its record
  (`CleanupMayPrecedeTrigger`).
- `normalizeFQDN` is not idempotent (`NormalizeNotIdempotent`); when it is, is said by
  `NormalizeIdempotentExactly`.
- A repeated URL in a new order breaks the round trip of its gateway URL
  (`RepeatedUrlBreaksRoundTrip`, `NewOrderRoundTrip`), and a finalize URL shared by two orders
  lets a poll return the other order's (`SharedFinalizeUrlMisleads`, `FinalizeLookupExactly`).
- A slot whose save fails without writing is registered without a row, and stays so
  (`LostSaveLeavesNoRow`, `FailedSaveStays`, `RegisteredOncePerProcess`).
- Expired nonces are pruned by comparing texts, so those of the same day stay
  (`ComparisonsAreNeverEarly`); no later consume can tell (`PruningIsInvisibleLater`).
- A migration whose look for the slot column fails rebuilds the table
  (`FailedProbeLosesAccount`), and keeps the accounts exactly when all are at slot 0
  (`FailedProbeKeepsAccountsExactly`).

## Model

| member | source | states |
|---|---|---|
| AccountPool.RunInv | internal/upstream/pool.go:125-207 | in every run, cache, orders, uses and finished threads agree with the table, a lock has one holder, and registrations balance |
| AccountPool.MutualExclusion | internal/upstream/pool.go:60-70 | two threads inside the registration section under one mutex name are the same thread |
| AccountPool.RowNeverReplaced | internal/store/accounts.go:67-74 | over any stretch of any run no row changes or disappears, although the statement is INSERT OR REPLACE |
| AccountPool.OneCredentialPerBinding | internal/upstream/pool.go:125-207 | any two clients obtained for one upstream and account, at any times and across restarts, have the same key and account URL |
| AccountPool.OrderKeepsItsCredential | internal/server/handlers.go:1370-1381 | every later operation on an account-bound order uses the credential it was submitted with, so the TXT value of a token stays the same |
| AccountPool.TxtBelongsToOneKey | internal/upstream/client.go:230-242 | with a digest and a thumbprint that tell their inputs apart, a TXT value belongs to exactly one token and one key |
| AccountPool.RegistrationsBounded | internal/upstream/pool.go:178-197 | confirmed registrations of a pair exceed those lost to failed or interrupted saves by at most one, and by one exactly when one is pending or a row was added; a cached client equals its row |
| AccountPool.Pool.EnsureRow | internal/upstream/pool.go:149-197 | under the mutex, the row is found or made; exact success condition, exact new table, and the effect is a path of the machine |
| AccountPool.Pool.GetClientForAccount | internal/upstream/pool.go:125-207 | one undisturbed call: exact success condition, new cache and table, and its effect is a path of the machine that leaves no lock behind |
| SlotPool.Pool.GetOrCreateAll | internal/upstream/pool.go:251-298 | all clients of an upstream are created from their stored or fresh keys, or none is; an existing set is left alone; it fails exactly when the upstream is not configured or a slot cannot be loaded |
| SlotPool.Pool.NextClient | internal/upstream/pool.go:76-93 | the m-th pick of an upstream, whatever was picked of others in between, is slot m modulo the number of its slots, with that slot's client |
| SlotPool.Pool.GetSlot | internal/upstream/pool.go:100-113 | whichever earlier pick an order was created with, its slot leads back to the client of that pick; a slot no pick can have made is read as 0 |
| SlotPool.PoolIsRoundRobin | internal/upstream/pool.go:76-93 | what a pool has picked is round-robin for each upstream, and after k picks over n slots each slot was chosen k/n times, once more if its number is below k mod n |
| SlotPool.ChoiceIsBalanced | internal/upstream/pool.go:76-93 | the balance of any round-robin list of picks, whatever else is picked in between |
| SlotPool.ConsecutivePicksDiffer | internal/upstream/pool.go:76-93 | among n consecutive picks of an upstream with n slots no slot repeats |
| SlotPool.ConsecutivePicksCoverAll | internal/upstream/pool.go:76-93 | the slots of n consecutive picks of an upstream with n slots are all of 0 to n-1 |
| SlotPool.RegisteredOncePerProcess | internal/upstream/pool.go:212-246 | in every interleaving a slot is registered at most once, never if loaded, every served thread has a registered client, and a row is missing exactly when its save failed without writing or is pending |
| SlotPool.FailedSaveStays | internal/upstream/pool.go:243-245 | after a save that wrote nothing the slot stays registered and without a row for the life of the process |
| SlotPool.LostSaveLeavesNoRow | internal/upstream/account.go:62 | a run that ends with a registered slot, no thread and no row |
| ChallengeProcessing.CleanRemovesNothingLive | internal/server/handlers.go:45-61 | the timing argument: a record that tested stale is no longer live |
| ChallengeProcessing.SafeExactlyWhenLiveSpared | internal/server/handlers.go:96-121 | in every run live records stay in the map if and only if no deletion takes one away |
| ChallengeProcessing.CleanRunInv | internal/server/handlers.go:96-121 | the invariant holds along every run whose deletions find what they tested |
| ChallengeProcessing.CleanRunsSpareLive | internal/server/handlers.go:114-121 | runs whose deletions find what they tested, in particular with atomic sweeps, take no live record away |
| ChallengeProcessing.OneWorkerPerChallenge | internal/server/handlers.go:914-961 | in every run that spares live records: at most one worker per challenge, its record is the one in the map, and its final delete removes that record |
| ChallengeProcessing.FailureKept | internal/server/handlers.go:84-91 | in every run, a recorded failure is never changed |
| ChallengeProcessing.FailureVisibleForRetention | internal/server/handlers.go:787-806 | in every run that spares live records: a recorded failure is what every read returns for the whole retention hour, and no worker for the challenge runs in that time |
| ChallengeProcessing.OverlappingSweepsAllowTwoWorkers | internal/server/handlers.go:114-121 | a concrete run in which a stale test deletes a fresh record and two workers run for one challenge |
| ChallengeProcessing.Handler.EvictStaleChallengeProc | internal/server/handlers.go:114-121 | exactly the stale entries go, by clean steps of the machine |
| ChallengeProcessing.Handler.BeginChallengeProc | internal/server/handlers.go:96-108 | a worker is started exactly when no record of the challenge survives the sweep; the record returned is the one stored; the effect is a path of the machine |
| ChallengePreparation.FindParentExact | internal/server/handlers.go:1485-1500 | a parent is found exactly when some fetchable authorization of the order lists the challenge, and it is the first such |
| ChallengePreparation.DomainOfSpelling | internal/server/handlers.go:1508 | white space around a domain and one trailing dot are ignored |
| Delegation.TargetIsUnique | internal/server/dns_policy.go:23-65 | the resolver's answers and the policy determine the target |
| ChallengePreparation.Worker.Prepare | internal/server/handlers.go:1470-1621 | nothing is deployed exactly when there is nothing to deploy or no target; what is deployed is the key's TXT value at the resolved target; when it succeeds and whether a watcher follows |
| ChallengePreparation.Worker.PublishRecord | internal/server/handlers.go:1512-1556 | the record that proves control is deployed unless the name, the token or the target is missing |
| ChallengePreparation.Worker.Process | internal/server/handlers.go:914-961 | the upstream is triggered exactly when preparation succeeds; the effect of an undisturbed call is a path of the machine from its start |
| ChallengePreparation.Worker.WatchAndClean | internal/server/handlers.go:1556-1613 | exactly one cleanup of the watched record; every tick before brought no answer or "pending", the one that ends the wait another status or the end of the five minutes; a path of the machine from any state with that watcher |
| ChallengePreparation.TickCleansExactly | internal/server/handlers.go:1570-1611 | in every state a tick with no answer or "pending" changes nothing, and any other cleans up the record |
| ChallengePreparation.RunInv | internal/server/handlers.go:1470-1621 | in every interleaving of worker and watcher the trace is the deploy followed by trigger and cleanup in either order, as far as each has come |
| ChallengePreparation.TriggerFollowsDeploy | internal/server/handlers.go:929-945 | in every run a trigger follows a successful deploy of the key's TXT value at the resolved target, unless there was nothing to deploy |
| ChallengePreparation.TriggeredDeployedExactly | internal/server/handlers.go:1486-1500 | with a hook and a readable list of authorizations, a triggered dns-01 challenge was deployed if and only if one of them could be fetched and lists it |
| ChallengePreparation.UnfetchableIsTriggeredUndeployed | internal/server/handlers.go:1486-1494 | a run that triggers a hooked dns-01 challenge without a record, because its authorization cannot be fetched |
| ChallengePreparation.CleanupFollowsItsDeploy | internal/server/handlers.go:1556-1613 | in every run a cleanup follows the successful deploy of the same target, value and token, and happens at most once |
| ChallengePreparation.FinishedTrace | internal/server/handlers.go:914-961 | once worker and watcher are done: exactly one deploy, one trigger and, with a cleanup script, one cleanup; one trigger if nothing had to be deployed; no trigger and no cleanup if preparation failed, and exactly when it fails |
| ChallengePreparation.CleanupMayPrecedeTrigger | internal/server/handlers.go:1556-1565 | whenever a watcher is started there is a run with the cleanup before the trigger, and one with it after |
| Delegation.NormalizeNotIdempotent | internal/server/dns_policy.go:318-321 | "a.." becomes "a." and then "a" |
| Delegation.NormalizeIdempotentExactly | internal/server/dns_policy.go:318-321 | normalizing twice is normalizing once if and only if the name, less one trailing dot and then less trailing white space, does not end in a dot |
| Delegation.PlainNameIsNormal | internal/server/dns_policy.go:318-321 | a lower-case name without white space is unchanged, and loses one trailing dot |
| Delegation.NormalizeIgnoresCase | internal/server/dns_policy.go:318-321 | names that differ in case only have one normal form, without capital letters |
| Delegation.NormalizeOfSpelling | internal/server/dns_policy.go:318-321 | a plain name in whatever case, with or without a trailing dot, is normalized to it |
| Delegation.ZoneSpellings | internal/server/dns_policy.go:67-84 | a zone written bare, with a leading dot or with a trailing dot is the same zone |
| Delegation.ZoneDespitePad | internal/server/dns_policy.go:67-84 | so is one in whatever case and with white space around it |
| Delegation.ChallengePrefixTrimmed | internal/server/dns_policy.go:323-326 | trimming undoes the challenge prefix |
| Delegation.RecurrenceNeverStops | internal/server/dns_policy.go:86-112 | a chain that repeats a name has no end |
| Delegation.DescriptionUnique | internal/server/dns_policy.go:86-112 | at most one outcome describes a chain |
| Delegation.ChaseFrom | internal/server/dns_policy.go:86-112 | the bounded loop reports an outcome that describes the unbounded chain |
| Delegation.ResolveDelegatedFQDN | internal/server/dns_policy.go:86-122 | an outcome is reported if and only if the resolver's answers allow it: a walk of canonical names, each the normalized answer for the one before, that ends within 10 names at one not found, canonical itself or with an empty answer; or fails there; or repeats a name; or goes on through 10 different ones |
| Delegation.ReportsExactly | internal/server/dns_policy.go:86-122 | those walks and the unbounded chain of hops have the same outcomes |
| Delegation.FirstAnswerDecides | internal/server/dns_policy.go:98-105 | a source name that is not found is used as it is; a resolver failure there is a failure |
| Delegation.DotSuffixIsLabelSuffix | internal/server/dns_policy.go:67-84 | equal, or ending in a dot and the zone, if and only if the zone's labels are the last labels |
| Delegation.PolicyIsLabelMatch | internal/server/dns_policy.go:67-84 | a target passes if and only if there is no restriction or some allowed zone's label list is a suffix of its own |
| Delegation.TargetIsSourceOrAdmitted | internal/server/dns_policy.go:23-65 | permissive mode never fails; what is used is the source or a chain end the policy admits |
| Delegation.ResolveDNSChallengeTarget | internal/server/dns_policy.go:23-65 | source, delegated name or failure, field by field, by the configured switch, mode and zones and the walk along the resolver's answers |
| Delegation.PermissiveExactly | internal/config/config.go:162-176 | the mode is permissive exactly when it says so, in whatever case and with white space around it |
| Propagation.QuorumRequirementIsLeast | internal/server/dns_policy.go:305-316 | the requirement is the least number that is at least the configured share |
| Propagation.CompactSorted | internal/server/dns_policy.go:230-257 | compaction of a sorted list keeps each element exactly once |
| Propagation.HostsAtDistinct | internal/server/dns_policy.go:230-257 | the hosts found at a name are distinct, and are the non-empty normalized answers |
| Propagation.AuthoritativeNameservers | internal/server/dns_policy.go:230-257 | the hosts of the closest enclosing name that has any, never a single label, or none |
| Propagation.SuffixIsEnclosingName | internal/server/dns_policy.go:230-257 | the i-th name asked for is the normalized name without its first i labels |
| Propagation.PollAll | internal/server/dns_policy.go:160-181 | one poll keeps every counter equal to the length of the current run of correct answers and counts the stable nameservers |
| Propagation.WaitForQuorum | internal/server/dns_policy.go:138-202 | the wait ends at the first poll with a quorum, or is cancelled, or times out |
| Propagation.WaitForDNSPropagation | internal/server/dns_policy.go:124-228 | the whole wait: skipped if disabled, no hosts, how the polls of the discovered hosts end, or a settling delay cut short after the quorum |
| Propagation.CounterIsStreak | internal/server/dns_policy.go:160-181 | a counter reaches m if and only if the last m answers were correct |
| Propagation.EndIsUnique | internal/server/dns_policy.go:138-202 | the answers, cancellations and deadline determine the end |
| Propagation.QuorumIsSound | internal/server/dns_policy.go:138-202 | a quorum means the configured share of distinct nameservers answered the last m polls correctly |
| Propagation.SteadyAnswersReachQuorum | internal/server/dns_policy.go:138-202 | enough correct answers from poll k on give a quorum by poll k + m - 1, unless the deadline or a cancellation is first |
| Propagation.CounterCountsPollsWhenListedOnce | internal/server/dns_policy.go:230-257 | a counter counts polls if and only if its host is listed once: why the list is compacted |
| ResourceMap.InsertKeepsRows | internal/store/resources.go:12-20 | an insert-or-ignore keeps uniqueness and every row, and adds at most the one new row |
| ResourceMap.OwnWrite | internal/server/handlers.go:591-625 | an order's next write adds its row exactly when the URL is new to the order |
| ResourceMap.RunInv | internal/store/store.go:115-128 | in every run the table is unique by order and URL, answers resolve, and each order's writes are as the response says |
| ResourceMap.RunOnlyGrows | internal/store/resources.go:12-20 | rows and published responses are never changed or removed |
| ResourceMap.GetOrCreateIsLinearizable | internal/server/handlers.go:744-777 | any two answers are the same identifier if and only if they are for the same order and URL, and every later state resolves them |
| ResourceMap.NewOrderRoundTrip | internal/server/handlers.go:591-625 | every URL of a new-order response leads back to its upstream URL and order, in every later state, if and only if the upstream's URLs are pairwise distinct |
| ResourceMap.LaterPollsListTheSame | internal/server/handlers.go:1625-1681 | with distinct URLs every later poll lists exactly the authorizations of the response, all different |
| ResourceMap.ListingIsOwn | internal/store/resources.go:71-94 | for a published order the listing is fixed by its response, repeated URLs aside |
| ResourceMap.PollsReturnOwnResources | internal/server/handlers.go:1625-1681 | in every run, what a poll returns for its finalize and certificate URL leads back to the URL and the order, ever after, unless the upstream gave the URL for another order too; for the order's own finalize URL it is the identifier of the response; its listing is that of the response |
| ResourceMap.FinalizeLookupExactly | internal/store/resources.go:31-48 | in every reachable state, the lookup by URL alone is bound to return the order's own finalize identifier if and only if no other order has a row with the URL |
| ResourceMap.SharedFinalizeUrlMisleads | internal/server/handlers.go:1632-1640 | a run in which two orders are given one finalize URL and a poll of the second returns the first one's identifier |
| ResourceMap.RepeatedUrlBreaksRoundTrip | internal/server/handlers.go:591-625 | a run in which an identifier of a new-order response leads nowhere |
| ResourceMap.PollIsPath | internal/server/handlers.go:1625-1681 | what an undisturbed poll finds and leaves is a path of the machine that answers it |
| ResourceMap.Store.SaveResource | internal/store/resources.go:12-20 | insert or ignore under both uniqueness constraints |
| ResourceMap.Store.GetResourceByUpstreamURLAndOrder | internal/store/resources.go:52-58 | a row of the order and URL, or none exists |
| ResourceMap.Store.GetResourceByUpstreamURL | internal/store/resources.go:40-48 | some row with the URL, or none exists |
| ResourceMap.Store.GetAuthzResourcesByOrderID | internal/store/resources.go:71-94 | exactly the order's authorizations, each once |
| ResourceMap.Store.EnsureGatewayCertURL | internal/server/handlers.go:1182-1205 | the identifier returned resolves to the order and URL; it fails exactly when a new identifier was already taken |
| ResourceMap.Store.BuildOrderResponse | internal/server/handlers.go:1625-1681 | the code of one poll: what it finds and the table it leaves, as `PollIsPath` asks; its own rows when no other order has the URLs |
| UpstreamNonces.NonceRing.constructor | internal/upstream/client.go:46-51 | an empty ring of eight slots |
| UpstreamNonces.NonceRing.Take | internal/upstream/client.go:285-294 | the ring is a queue: the oldest nonce comes out |
| UpstreamNonces.NonceRing.Save | internal/upstream/client.go:321-333 | the ring is a bounded queue: empty arrivals and arrivals at a full ring are dropped |
| UpstreamNonces.TryOnce | internal/upstream/client.go:347-386 | one attempt on the queue: it stops with a result, or its nonce was refused and the new one is pooled |
| UpstreamNonces.SignedPost | internal/upstream/client.go:345-389 | the call on the queue: result, nonces signed and queue left; a 400 with type badNonce is never the result and another nonce is signed, unless that was the third or none can be; any other reply is the result at once |
| UpstreamNonces.PostEnds | internal/upstream/client.go:345-389 | each of the five results says exactly what the attempts before it and the last one were |
| UpstreamNonces.PostNonEmpty | internal/upstream/client.go:285-333 | no empty nonce is signed or pooled |
| UpstreamNonces.RunInv | internal/upstream/client.go:285-389 | conservation and the pool's bound along every run of concurrent posts |
| UpstreamNonces.NoncesAreConserved | internal/upstream/client.go:285-389 | received = pooled + in hand + sent + dropped, so no nonce is sent more often than issued; none is empty |
| UpstreamNonces.NoReplay | internal/upstream/client.go:345-389 | a CA that never issues a nonce twice never receives one twice |
| UpstreamNonces.PostIsPath | internal/upstream/client.go:345-389 | what a signed post does to the queue and the nonces sent, an idle caller of the concurrent machine can do from any state with that queue |
| ReplayNonces.NonceStore.IssueNonce | internal/store/nonces.go:17-32 | a new value is stored with its truncated expiry; a stored one is refused; table and count of issues are those of the run |
| ReplayNonces.NonceStore.ConsumeNonce | internal/store/nonces.go:36-70 | accepted if and only if stored and not past expiry; gone in any case; table and count of accepted consumes are those of the run |
| ReplayNonces.NonceStore.PruneExpiredNonces | internal/store/store.go:66-70 | exactly the rows go that the database puts at or before now, a step of the run |
| ReplayNonces.ComparisonsAreNeverEarly | internal/store/store.go:66-70 | neither the comparison of times nor that of texts takes a row early; by text exactly the rows expired on the same day stay |
| ReplayNonces.ExpiryBounds | internal/store/nonces.go:17-32 | truncation to whole seconds costs less than one of the 600 seconds |
| ReplayNonces.AcceptedAtMostIssued | internal/store/nonces.go:36-70 | over every run, accepted consumes of a value plus its stored row never exceed its issues |
| ReplayNonces.AcceptedIsFresh | internal/store/nonces.go:36-70 | an accepted value was issued at most 600 seconds before and not consumed since |
| ReplayNonces.YoungIsAccepted | internal/store/nonces.go:36-70 | an unconsumed value younger than 599 seconds is accepted, whatever was pruned |
| ReplayNonces.PrunesOnlyDropExpired | internal/store/store.go:66-70 | a run with prunes, of whatever expired rows, lacks only rows that had expired by the last prune |
| ReplayNonces.PruningIsInvisibleLater | internal/store/store.go:66-70 | no consume strictly later than the prunes can tell whether they happened |
| ReplayNonces.PruneMattersOnlyAtExpiry | internal/store/store.go:66-70 | a prune changes a consume's outcome if and only if it takes the row and both fall on the expiry instant |
| LinkHeader.ScannerIsGrammar | internal/upstream/order.go:232-263 | the scanner's flag says "outside quotes" if and only if the text read so far is plain characters and complete quoted strings |
| LinkHeader.SplitLinkHeaderValues | internal/upstream/order.go:232-263 | the loop yields the trimmed pieces of the specification |
| LinkHeader.SplitsAtTopLevelCommas | internal/upstream/order.go:232-263 | the untrimmed pieces rejoin to the input, and a cut is at a position if and only if it holds a comma outside quoted strings |
| LinkHeader.FindAlternateRel | internal/upstream/order.go:278-296 | for every list of parameters: one of them is rel=..., with white space anywhere around name and value, quotes or none, and lists the word "alternate" |
| LinkHeader.ParseAlternateLinkPart | internal/upstream/order.go:267-297 | for every text and URL: the URL is returned if and only if the text is that URL in brackets followed by parameters, in any order, one of which is such a rel |
| LinkHeader.AlternateTargetExactly | internal/upstream/order.go:267-297 | the same of the function that specifies the parser |
| LinkHeader.SpacedLinkIsAlternate | internal/upstream/order.go:278-296 | white space around the semicolon and the equals sign, and quotes or none, make no difference |
| LinkParameters.HasWordExactly | internal/upstream/order.go:279-295 | for every text: a word is read off a parameter if and only if the parameter assigns a value that lists it |
| LinkParameters.SplitIsPieces | internal/upstream/order.go:278 | splitting yields exactly the pieces between separators |
| LinkHeader.PrintedParses | internal/server/handlers.go:241-244 | one printed link, spaces around it or not, is parsed as its URL if its relation is "alternate" and as nothing otherwise |
| LinkHeader.MixedLinksParseBack | internal/upstream/order.go:232-297 | a header of printed links with any relations yields exactly the URLs of the alternate ones, in order |
| LinkHeader.OtherLinksAreIgnored | internal/server/handlers.go:231-239 | the directory and parent links the gateway prints are never taken for alternates |
| LinkHeader.PrintedLinksParseBack | internal/server/handlers.go:241-244 | any list of non-empty URLs without comma, quote and '>', printed and joined, parses back to itself in order |
| OrderStatus.RelayUpstreamError | internal/server/handlers.go:159-178 | whatever the CA said, the client gets a typed problem with a status from 400 to 599: the CA's own type, detail, subproblems and status where it gave them, else the fallback, with the error's text |
| OrderStatus.RelaysTheReply | internal/upstream/client.go:434-442 | the same, read off the fields of the CA's reply |
| OrderStatus.InvalidatesExactly | internal/server/handlers.go:159-214 | an order is invalidated if and only if the reply is a JSON problem with a 4xx status other than 408 and 429 |
| OrderStatus.FinalizeOrder | internal/upstream/order.go:121-141 | three 400 replies with type badNonce never invalidate; what invalidates is the first reply that is not one, if it is a JSON problem with a definitive 4xx status |
| OrderStatus.FinalizeStoresExactly | internal/server/handlers.go:1066-1091 | read off the reply: JSON with status 200 makes its own order status the latest and the one written, a definitive rejection "invalid", anything else changes nothing |
| OrderStatus.PollStoresExactly | internal/server/handlers.go:675-687 | an answered poll makes the CA's status the latest, and has it written unless it is what the poll had read |
| OrderStatus.StepSettlesExactly | internal/server/handlers.go:684-687 | one step keeps the store on course to the latest answer if and only if it overtakes no pending write, skips no stale write and loses no last write |
| OrderStatus.StoredIsFoldExactly | internal/server/handlers.go:684-687 | along every run the stored status follows the fold of the history, whatever the order of pending writes, if and only if no step is one of those three |
| OrderStatus.SettlesMeansEveryOrder | internal/store/orders.go:36-52 | being on course means that every order of the pending writes ends with the latest status stored |
| OrderStatus.AtRestExactly | internal/server/handlers.go:1066-1091 | along every run the stored status is the fold whenever no write is pending, if and only if no last write is late or lost and no poll skips a stale write |
| OrderStatus.SequentialSeesStored | internal/server/handlers.go:684-687 | with one request at a time and writes that succeed, the stored status is the fold whenever no write is pending |
| OrderStatus.OverlappingPollLosesReport | internal/server/handlers.go:684-687 | a run after which the stored status is "invalid" although the CA last said "ready": a skipped write |
| OrderStatus.LateWriteHidesRejection | internal/server/handlers.go:1066-1091 | a run after which the stored status is "ready" although the finalize was rejected last: a late write |
| OrderStatus.InvalidIsOverwritten | internal/server/handlers.go:684-687 | the next poll replaces a stored "invalid" by what the CA reports |
| Routing.ValidateRouting | internal/config/config.go:307-339 | accepts exactly the well-formed routing sections and normalizes accepted rules in place |
| Routing.AcceptedConfigIsValid | internal/config/config.go:307-339 | what validation leaves behind names configured upstreams and only known key types |
| Routing.KeyTypeOkExactly | internal/config/config.go:322-330 | a key type is accepted exactly when it is RSA or ECDSA in whatever case, or empty |
| Routing.NormalizedIsNormalForm | internal/config/config.go:327-331 | normalizing keeps a rule but for the case of its required key type |
| Routing.MatchesExactly | internal/router/router.go:87-108 | a rule matches exactly when its profile, key type and domain suffix, where given, are those of the request; a suffix by text, a key type in whatever case |
| Routing.FirstMatchDecides | internal/router/router.go:55-72 | the first matching rule decides |
| Routing.NoMatchUsesDefault | internal/router/router.go:55-72 | with no matching rule the default is used and demands nothing |
| Routing.RouteIsConfigured | internal/router/router.go:55-108 | a routed upstream is empty or configured |
| Routing.FoldedTypesAreEqual | internal/server/handlers.go:1040-1066 | the case-insensitive gate is equality on the key types a CSR can have |
| Routing.FinalizeForwardsExactly | internal/server/handlers.go:1040-1066 | a CSR is forwarded if and only if it parses and has the key type the order demands, if it demands one |
| Routing.OrdersNeverChange | internal/store/orders.go:13-25 | what was captured at new-order time never changes |
| Routing.ForwardedCsrsMeetTheRule | internal/server/handlers.go:1040-1066 | whatever configuration is loaded later, every forwarded CSR goes to the upstream, and has the key type, that the first matching rule demanded when the order was created |
| Migration.AttemptKeepsTarget | internal/store/store.go:142-195 | an attempt that crashes, or whose statements fail, anywhere leaves the database with the same target; so does one whose look for the slot column fails, unless an account has a slot other than 0 |
| Migration.AttemptIgnoresProbe | internal/store/store.go:158-163 | on any older schema, and whenever all accounts are at slot 0, it makes no difference to an attempt whether the look for the slot column succeeds |
| Migration.RerunReachesTarget | internal/store/store.go:142-195 | after any number of broken attempts one undisturbed attempt succeeds and ends exactly in the target of the original database; failed looks for the slot column included, unless an account has a slot other than 0 |
| Migration.SucceedsExactly | internal/store/store.go:115-157 | an undisturbed attempt succeeds if and only if the rows are unique by order and URL, and the legacy index guarantees they are |
| Migration.IndexesDiffer | internal/store/store.go:122-128 | the new unique index lets a URL occur under several orders, the legacy one does not; neither lets a pair recur |
| Migration.MigratedIsFixed | internal/store/store.go:142-195 | every later start leaves a migrated database as it is, unless its look for the slot column fails and an account has a slot other than 0 |
| Migration.RowsKeepTheirCells | internal/store/store.go:146-149 | old cells stay, new order columns hold their defaults, no row comes or goes |
| Migration.OldAccountsReadAtSlotZero | internal/store/store.go:158-192 | each old upstream account is read unchanged at slot 0, and nothing else is |
| Migration.FailedProbeKeepsAccountsExactly | internal/store/store.go:158-192 | when the look for the slot column fails on a migrated database, all accounts stay readable if and only if none has a slot other than 0 |
| Migration.FailedProbeLosesAccount | internal/store/store.go:158-192 | a migrated database from which such an attempt, reporting success, loses an account |
| Migration.Store.Migrate | internal/store/store.go:142-195 | the statements in order, with every crash and failure, are the specification's attempt |

## Left out

- HTTP routing, headers, JSON, TLS, JWS and X.509, logging, health endpoints, the bootstrap manager and the probe: plumbing or foreign libraries; a key's thumbprint and digest are arbitrary functions, the authenticated account is an input.
- Update in place of memory shared by threads: the protocols are state machines on values whose steps are atomic; each SQL statement or transaction is one step that may fail. The nested map of account clients is one map keyed by the pair.
- Strings are sequences of characters: lower and upper case, white space and case folding are the ASCII ones, not Unicode's.
- ChallengeProcessing.OneWorkerPerChallenge: assumes that a worker ends by its ten-minute deadline and that a request takes at most fifty minutes from reading the clock to its worker's first instruction; the retention guarantees nothing otherwise. It is about workers in flight: a request that read the upstream as pending before the trigger can start another worker afterwards.
- ChallengePreparation.Worker.Prepare: the choice of the hook for an upstream, the validity of the script path and what a script does are parameters.
- Propagation.QuorumRequirementIsLeast: the ceiling is taken over real numbers, not floating point.
- Propagation.WaitForDNSPropagation: the resolution of nameserver addresses and the real clock are not modelled; the deadline is a number of polls, and a settling delay is only cut short or not.
- ReplayNonces.PruningIsInvisibleLater: a random value is assumed not to be issued twice.
- ReplayNonces.NonceStore.PruneExpiredNonces: assumes that the database never puts an unexpired row at or before now; the text the driver makes of the current time is its own, taken to have a space after the date.
- ResourceMap.NewOrderRoundTrip: identifiers an order writes at creation are assumed fresh (UUIDs); a colliding one would be ignored and resolve to another row.
- LinkHeader.PrintedLinksParseBack: resolving a link against its base URL, dropping duplicates and filtering by origin are not modelled.
- Migration.RerunReachesTarget: nothing else writes between attempts; a migration that returns success although an ignored column addition failed lets the server start without that column, which is not followed further.
- The rest of configuration validation (listen address, upstream entries, hook policies), the choice of the upstream profile name, environment interpolation: independent checks of single fields.
- Revocation, certificate fingerprints and alternate-chain rewriting: fallback branches that would only add easy members.
