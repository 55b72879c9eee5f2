# Verified models of the Defender add-on's stateful and parsing cores

This project models the parts of the add-on, and of the Python libraries it ships under `lib/`, whose correctness
cannot be read off one function body, and proves what they promise over all inputs and all runs.

- **Expiring mapping and HTTP throttle** (`HeapQueue`, `EntryOrder`, `ExpiringMapping`, `IndexCoverage`,
  `MappingRuns`, `MappingDeletion`, `MappingCapacity`, `MappingEviction`, `MappingBreakdown`, `Throttle`,
  `ThrottleKeys`, `ThrottleRepeats`, `ThrottleAccounts`). A class keeps a data map, a `timestamps` index and a heap
  with orphan entries. Without a capacity limit its lazy eviction is unobservable. With one, the keys that lose their
  heap entry are tracked exactly, which says when `IndexError` is raised and when an insertion deletes the item it
  should. Three caching layers then share one such mapping.
- **Event Hub consumer** (`CheckpointStore`, `Ownership`, `Ingestion`, `IngestionBatches`, `ConsumerHandler`,
  `HandlerRuns`, `HandlerWrites`). Ownership by etags as a chain, at-least-once ingestion by several crashing
  consumers over one store, counters and summary lines.
- **IDNA** (`IntRanges`, `IdnaRules`, `IdnaCore`, `IdnaAcceptance`, `IdnaRoundTrip`, `IdnaCodec`, `IdnaOneShot`).
  Packed ranges with a binary search, label checks against the standards' rules, domain round trips, and a streaming
  codec that equals its one-shot form.
- **JWT** (`ByteCodecs`, `Jws`). Base64url, big-endian numbers, raw signatures, and the JWS compact serialization.
- **Telemetry and SOCKS5** (`Telemetry`, `Socks`). An exact header size, and addresses read back from any
  fragmentation.

Where the source changes an object step by step the model is a class or a method with a loop, proved equal to a
function on values (`SetStep`, `Claimed`, `OnBatch`, `EncodeToken` and so on); the theorems are about those functions
and about runs of them. Nothing was executed; every statement rests on the Dafny verifier alone.

`dafny verify dfyconfig.toml` checks the whole project. `Wrappers`, `Strings` and `Arithmetic` hold what several
models share.

## Where the code and its documentation disagree

The model follows the code, and a lemma names the case.

- The docstring of `__delitem__` promises KeyError for an expired item. The code deletes it quietly
  (`MappingDeletion.DeleteOfExpiredKey`), unless a get of it, a set, a len or an iter came at or after its expiry:
  `MappingDeletion.DeleteAfterRun` settles every run without a capacity limit.
- The `capacity` docstring promises to delete the item expiring soonest when a new item enters a full mapping. The
  code does so iff the heap root is the current entry of its key, is less than the new entry, and no key without a
  heap entry expires before it (`MappingEviction.PromiseKeptIff`). It fails when the root is an orphan
  (`MappingEviction.OrphanRootEvictsNothing`), and when the new item expires first: that item is then kept without a
  heap entry, and a later one may be evicted in its place.
- Once more keys lack a heap entry than the capacity allows, every `len`, iter and `set` of an ordinary key raises
  IndexError (`MappingBreakdown.ShortLivedKeysBreakTheIndex` shows how), until enough of those keys are deleted, or
  are read outside their lifetime; nothing else ends it (`MappingBreakdown.BrokenUntilHealed`,
  `MappingBreakdown.NothingElseHeals`).
- The comments on the throttling key describe a key per account. For form data the auth code and the user name are
  never read: two users at one endpoint share the key iff their refresh tokens are equal or both missing
  (`ThrottleAccounts.SameThrottlingKeyIff`, `ThrottleAccounts.ThrottlingIgnoresTheUser`).
- `claim_ownership` compares with etags read once, so one call that lists a partition twice spends an etag twice
  (`Ownership.SamePartitionTwice`).
- A SOCKS5 name of 128 or more octets is written with a UTF-8 length of several bytes and cannot be read back
  (`Socks.AddressRoundTripIff`).

## How the surroundings are modelled

- The clock is a parameter of each call, and no lemma assumes that it advances unless it says so. One `_set` reads it
  twice, a POST at six points. In the ownership store one reading serves a whole call.
- Network answers, JSON, Unicode tables, normalisation and the UTS 46 mapping, punycode, hashes, signature algorithms,
  address conversion and name resolution are function parameters; what is assumed of them is a named predicate or a
  `requires`.
- Hashes are hexadecimal digests, so of one length; no collision is assumed only between the inputs a lemma compares,
  since no function of fixed output length is injective.
- The expiring mapping's index lives in fields beside the data, not under the reserved key of the same dict; keys are
  strings, the underlying mapping is an in-memory dict, and its lock is not modelled. `heapq` is a verified binary
  heap; only its order and contents matter to the results.
- Etags come from a counter, so a new one was never used; partition ids are numbers; an offset is the index of an
  event and `None` is the empty offset. Every store call is one atomic step. Deleting the checkpoint and creating it
  again is one overwrite.
- Of the Event Hubs SDK it is assumed that receiving starts at some checkpoint listed earlier (however stale), that
  the empty offset means the start of the log, and that a partition's events reach a receiver in order.
- A record of a batch is reduced to its category and to whether it can be parsed; `_partition_details` is a list in
  insertion order.

## Model

| member | source | states |
|---|---|---|
| EntryOrder.LessTotal | lib/msal/individual_cache.py:92-98 | the list order of index entries is total and asymmetric, keys included, so the least entry is unique |
| EntryOrder.LessTransitive | lib/msal/individual_cache.py:92-98 | that order is transitive, so it is a linear order |
| HeapQueue.RootIsLeast | lib/msal/individual_cache.py:106-109 | in a heap the root is least, which justifies stopping at the first fresh entry |
| HeapQueue.PushAdds | lib/msal/individual_cache.py:98 | `heappush` adds exactly the new entry |
| HeapQueue.PushKeepsHeap | lib/msal/individual_cache.py:98 | `heappush` keeps the heap order |
| HeapQueue.PopRemovesRoot | lib/msal/individual_cache.py:111-114 | `heappop` removes exactly the root |
| HeapQueue.PopKeepsHeap | lib/msal/individual_cache.py:111-114 | `heappop` keeps the heap order |
| HeapQueue.PushPopExchanges | lib/msal/individual_cache.py:96 | `heappushpop` neither loses nor duplicates an entry |
| HeapQueue.PushPopKeepsHeap | lib/msal/individual_cache.py:96 | `heappushpop` keeps the heap order |
| ExpiringMapping.Mapping.constructor | lib/msal/individual_cache.py:14-60 | a new mapping is empty and keeps its capacity and lifetime |
| ExpiringMapping.Mapping.DropIndexedEntry | lib/msal/individual_cache.py:116-121 | in place: a key goes from both maps only if the entry is its current one, an orphan drops nothing |
| ExpiringMapping.Mapping.Maintenance | lib/msal/individual_cache.py:103-114 | in place: both loops terminate in the state and answer of `Maintain`, IndexError when the heap runs out included |
| ExpiringMapping.Mapping.Set | lib/msal/individual_cache.py:84-101 | in place: the state and answer of `SetStep`, with the reserved key and a failing maintenance |
| ExpiringMapping.Mapping.Add | lib/msal/individual_cache.py:90-101 | in place: a new key in a full mapping goes through `heappushpop`, any other is pushed |
| ExpiringMapping.Mapping.SetItem | lib/msal/individual_cache.py:123-132 | ValueError without a class-wide lifetime, else `_set` with it |
| ExpiringMapping.Mapping.GetItem | lib/msal/individual_cache.py:134-150 | in place: an item outside its lifetime is forgotten and KeyError raised |
| ExpiringMapping.Mapping.DeleteItem | lib/msal/individual_cache.py:152-160 | in place: the key goes from both maps, KeyError iff it was not indexed, whatever its age |
| ExpiringMapping.Mapping.Length | lib/msal/individual_cache.py:162-168 | maintenance, then the number of keys left |
| ExpiringMapping.Mapping.Keys | lib/msal/individual_cache.py:170-176 | maintenance, then the set of keys left |
| IndexCoverage.DropHeadEffect | lib/msal/individual_cache.py:106-121 | removing the root changes no other key's coverage and drops at most the root's own key, from both maps alike |
| IndexCoverage.MaintenanceRaisesIff | lib/msal/individual_cache.py:103-114 | for every state: IndexError iff more keys lack a heap entry than the capacity allows; those keys never change; heap order and equal key sets are kept; on success the capacity is respected |
| IndexCoverage.DropOverCapacityExact | lib/msal/individual_cache.py:112-114 | for every state the capacity loop evicts no more than it must: nothing when the capacity is respected, else down to exactly the capacity; when it raises, exactly the uncovered keys are left |
| IndexCoverage.InsertCoverage | lib/msal/individual_cache.py:90-101 | for every consistent state: exactly which keys lack a heap entry after an insertion |
| MappingRuns.HistoryIsLastWrite | lib/msal/individual_cache.py:84-160 | the ideal mapping used below holds for a key exactly the last value set and not deleted since |
| MappingRuns.HitsAreTrue | lib/msal/individual_cache.py:134-150 | over every run, any capacity and any clock: a get that answers gives the last value set and not deleted since, within created <= t < expires |
| MappingRuns.ExpiryIsExact | lib/msal/individual_cache.py:105-111 | with a clock that does not run backwards the first loop removes exactly the expired keys among those with a heap entry |
| MappingRuns.UnboundedStep | lib/msal/individual_cache.py:84-176 | one operation without a capacity limit keeps the simulation by the ideal mapping and answers as it does |
| MappingRuns.EvictionIsUnobservable | lib/msal/individual_cache.py:84-176 | over every run without a capacity limit and a non-decreasing clock, each get, len and iter answers exactly the ideal mapping's fresh content, whenever maintenance ran; nothing raises IndexError |
| MappingRuns.EmptySimulates | lib/msal/individual_cache.py:56-60 | runs may start at the empty mapping, which is consistent and covered |
| MappingDeletion.StepEvicts | lib/msal/individual_cache.py:84-176 | one operation without a capacity limit: which stamp a key has afterwards, if any |
| MappingDeletion.HeldIff | lib/msal/individual_cache.py:84-176 | over every run: a key is held iff its stamp was left alone, or some write of the run survived all that came after |
| MappingDeletion.DeleteRaisesIffEvicted | lib/msal/individual_cache.py:152-160 | after every run that neither sets nor deletes a held key, deleting it raises KeyError iff a get of it, a set, a len or an iter came at or after its expiry |
| MappingDeletion.DeleteAfterRun | lib/msal/individual_cache.py:152-160 | after every run from the empty mapping: deleting succeeds iff the key's last write was neither deleted nor evicted after its expiry, and raises KeyError otherwise |
| MappingDeletion.DeleteOfExpiredKey | lib/msal/individual_cache.py:152-160 | the docstring is false: one expired key is deleted quietly, and raises after a get or a len |
| MappingCapacity.CoverageIffGuarded | lib/msal/individual_cache.py:84-176 | over every run, clock and capacity: every key keeps a heap entry throughout iff no insertion of a new key into a full mapping is less than the heap root |
| MappingCapacity.GuardedNeverRaises | lib/msal/individual_cache.py:103-114 | such a run never raises IndexError |
| MappingCapacity.SizeBounds | lib/msal/individual_cache.py:84-114 | at most capacity + 1 keys after any set, at most capacity after any len or iter, unless it raises |
| MappingCapacity.MaintenanceLeaves | lib/msal/individual_cache.py:103-114 | for every state: maintenance that does not raise leaves the smaller of the capacity and what the expiry loop left, untouched if that is not too much, and a len answers that number |
| MappingCapacity.LengthIsExact | lib/msal/individual_cache.py:162-168 | for every consistent state: len raises iff too many keys lack a heap entry, and else answers the smaller of the capacity and the number of keys that have not expired or lack a heap entry |
| MappingEviction.InsertionKeys | lib/msal/individual_cache.py:90-101 | for every state: the insertion of a new key deletes exactly the root's key when the root gives way and is no orphan, and otherwise no key |
| MappingEviction.PromiseKeptIff | lib/msal/individual_cache.py:38-41 | for every consistent full mapping: the promise to delete the item expiring soonest is kept iff the root gives way, is no orphan, and no key without a heap entry expires before it |
| MappingEviction.SetKeepsPromiseIff | lib/msal/individual_cache.py:84-101 | the same for the whole `set`, from a covered mapping: only the heap root after maintenance decides |
| MappingEviction.OrphanRootEvictsNothing | lib/msal/individual_cache.py:95-101 | a covered and guarded run at capacity 1 that ends with two keys: coverage does not keep the promise |
| MappingEviction.MaintenanceEvictsSoonest | lib/msal/individual_cache.py:112-114 | with coverage, every key evicted by maintenance for capacity expires no later than every key kept |
| MappingEviction.InsertionEvictsSoonest | lib/msal/individual_cache.py:95-101 | with coverage, a key that an insertion deletes expires no later than every key kept, the new one included |
| MappingEviction.GuardedRunsEvictSoonest | lib/msal/individual_cache.py:84-176 | over every guarded run from a covered mapping, any capacity and clock: every operation's capacity evictions go in the order of expiry |
| MappingBreakdown.BrokenStep | lib/msal/individual_cache.py:84-176 | with more uncovered keys than the capacity, an operation raises iff it runs maintenance, and takes away exactly the uncovered key it deletes or finds expired |
| MappingBreakdown.BrokenUntilHealed | lib/msal/individual_cache.py:84-176 | over every run: the mapping stays broken throughout iff too few uncovered keys were deleted or read outside their lifetime |
| MappingBreakdown.BrokenRunRaises | lib/msal/individual_cache.py:103-114 | in a run that stays broken exactly the sets, lens and iters raise IndexError |
| MappingBreakdown.NothingElseHeals | lib/msal/individual_cache.py:103-114 | over every run of sets, lens and iters from a broken mapping, at any times, each one raises |
| MappingBreakdown.ShortLivedKeysBreakTheIndex | lib/msal/individual_cache.py:95-114 | three sets at capacity 1 that evict the later key and break the mapping; a delete, or a get after the expiry, heals it |
| Throttle.ThrottledHttpClient.constructor | lib/msal/throttled_http_client.py:48-54 | one shared empty mapping of capacity 1024, and 5 seconds when no default or zero is given |
| Throttle.ThrottledHttpClient.Lookup | lib/msal/individual_cache.py:262-268 | a layer reads the shared mapping at its own key |
| Throttle.ThrottledHttpClient.Store | lib/msal/individual_cache.py:271-283 | a response is stored with the layer's lifetime, and not at all when that is zero |
| Throttle.ThrottledHttpClient.CallThrough | lib/msal/individual_cache.py:255-283 | a hit is replayed, a KeyError calls on, any other error propagates |
| Throttle.ThrottledHttpClient.Post | lib/msal/throttled_http_client.py:76-133 | the 400 layer around the Retry-After layer around the network |
| Throttle.ThrottledHttpClient.Get | lib/msal/throttled_http_client.py:135-143 | the discovery layer around the network |
| Throttle.KeysNeverCollide | lib/msal/throttled_http_client.py:80-140 | for all requests: keys of different layers differ from each other and from the reserved index key |
| Throttle.PostLayersExclude | lib/msal/throttled_http_client.py:116-131 | a response with a non-zero Retry-After lifetime has lifetime zero in the 400 layer |
| Throttle.LifetimeIsSound | lib/msal/throttled_http_client.py:16-32 | no lifetime exceeds 3600, 60 or 86400, and every key carries its layer's mark |
| Throttle.RememberKeepsTrust | lib/msal/individual_cache.py:277-283 | a sound response is stored and logged iff its lifetime is not zero and the set succeeds |
| Throttle.RecallIsRecent | lib/msal/individual_cache.py:261-264 | a hit was stored by the same layer under the same key less than the layer's bound ago |
| Throttle.NetworkLayerSound | lib/msal/individual_cache.py:255-283 | one layer answers with the network's response or a recent replay, and stores at most one event |
| Throttle.PostSound | lib/msal/throttled_http_client.py:76-133 | one POST, through both layers, stores the network's response at most once in all, and never a replay |
| Throttle.BoundedReplay | lib/msal/throttled_http_client.py:76-143 | over every run of POSTs and GETs and every clock: an answer is this call's network response, or was stored before this call by the same layer under the same key less than 3600, 60 or 86400 seconds earlier |
| Throttle.LogFromCalls | lib/msal/throttled_http_client.py:76-143 | everything a run stores is the network's answer to one of its calls, under that call's key |
| Throttle.ReplaysAnEarlierCall | lib/msal/throttled_http_client.py:76-143 | over every run of a new client, a replay is the network's answer to an earlier call of the same method and key |
| Throttle.LogGrows | lib/msal/throttled_http_client.py:76-143 | over every run nothing stored is rewritten, and each call stores at most one response |
| Throttle.NewClientTrusted | lib/msal/throttled_http_client.py:48-54 | the start of every such run |
| ThrottleKeys.DigestKeyIff | lib/msal/throttled_http_client.py:98-140 | at the 400 and discovery layers two requests share a key iff they have the same url and digest |
| ThrottleKeys.ThrottlingKeyIff | lib/msal/throttled_http_client.py:80-92 | at the Retry-After layer, urls and client ids without spaces: two requests share a key iff they agree in url, client id, scope and account, which is the refresh token of form data and nothing otherwise |
| ThrottleKeys.SpacesRunTogether | lib/msal/throttled_http_client.py:80-92 | with a space in a url or a client id the key no longer tells the two apart |
| ThrottleKeys.ReplayAnswersSameRequest | lib/msal/throttled_http_client.py:96-143 | over every run: a 400 or discovery replay answers an earlier call of the same method with the same url and digest |
| ThrottleKeys.RetryHeaderIs | lib/msal/throttled_http_client.py:19-25 | the header read is the last one whose lower-case name is retry-after, if any is |
| ThrottleKeys.RetryLifetimeIs | lib/msal/throttled_http_client.py:16-32 | for every response, the lifetime at the Retry-After layer: zero, the default, or the header's number, an hour at most |
| ThrottleKeys.OtherLifetimesAre | lib/msal/throttled_http_client.py:116-142 | for every response, the lifetimes of 60 and 86400 seconds, and exactly when they are zero |
| ThrottleRepeats.GetTwice | lib/msal/throttled_http_client.py:135-143 | two GETs: the second is replayed iff the first was 2xx, they share the key, and fewer than 86400 seconds passed, and else reaches the network |
| ThrottleRepeats.PostTwice | lib/msal/throttled_http_client.py:76-133 | two POSTs, settled for all requests, answers and times: which layer replays the first answer, and when the second reaches the network |
| ThrottleAccounts.SameThrottlingKeyIff | lib/msal/throttled_http_client.py:80-92 | where their hashes do not collide, two form requests to one endpoint share the throttling key iff their refresh tokens are equal or both missing |
| ThrottleAccounts.ReplayKeepsAccountsApart | lib/msal/throttled_http_client.py:76-94 | over every run: a throttling replay answers an earlier POST, of the same refresh token at the same endpoint, and of the same url, client, scope and account where urls and client ids hold no space |
| ThrottleAccounts.ThrottlingIgnoresTheUser | lib/msal/throttled_http_client.py:80-94 | while one user is throttled, another's POST to the endpoint gets the replay iff the refresh tokens agree, whatever codes and user names, and the network's answer otherwise |
| CheckpointStore.KVCheckpointStore.Open | bin/eventhub_helper.py:220-228 | in place: a missing checkpoint, or one of another length, is created afresh, any other is kept |
| CheckpointStore.KVCheckpointStore.Initialize | bin/eventhub_helper.py:230-246 | in place: one record per partition in order, unowned, fresh etags, empty offsets |
| CheckpointStore.KVCheckpointStore.ClaimOwnership | bin/eventhub_helper.py:265-292 | in place: the two loops give the store and answer of `Claimed`, index errors included |
| CheckpointStore.KVCheckpointStore.FindRecord | bin/eventhub_helper.py:281-290 | the first record of a partition |
| CheckpointStore.KVCheckpointStore.UpdateCheckpoint | bin/eventhub_helper.py:312-319 | in place: only the offset and sequence number of that partition's first record change |
| CheckpointStore.KVCheckpointStore.ListOwnership | bin/eventhub_helper.py:248-263 | every record in order, with its owner, etag and time, under the names given |
| CheckpointStore.KVCheckpointStore.ListCheckpoints | bin/eventhub_helper.py:294-310 | every record in order, with its offset and sequence number, under the names given |
| Ownership.ClaimsExact | bin/eventhub_helper.py:265-292 | for every well-shaped store and claim list: exactly the winners are granted, in order, with fresh etags, each record changes as its grants say, and it raises iff a listed partition is unknown |
| Ownership.WinnersAreCurrent | bin/eventhub_helper.py:278-279 | a listed claim is granted iff it presents the stored etag of its partition |
| Ownership.LastGrantDecides | bin/eventhub_helper.py:281-291 | a record takes owner, etag and time of the last grant on its partition, and nothing without one |
| Ownership.GrantChangesEtag | bin/eventhub_helper.py:283-286 | an old etag survives a call only if nobody was granted that partition |
| Ownership.ClaimKeepsCheckpoints | bin/eventhub_helper.py:265-292 | claims never change offset, sequence number or partition, even when they raise |
| Ownership.CheckpointInShape | bin/eventhub_helper.py:312-319 | checkpoint updates never change owner, etag or time, and touch one partition only |
| Ownership.OpenInShape | bin/eventhub_helper.py:220-246 | opening gives one record per partition; a list made afresh is unowned, at the start of the log, stamped now, with only new etags |
| Ownership.CallKeepsShape | bin/eventhub_helper.py:205-319 | every call keeps one record per partition id in order, so indexing by id is safe |
| Ownership.OneCallSpendsOnce | bin/eventhub_helper.py:273-292 | within a call an etag is spent twice iff two granted claims name one partition |
| Ownership.NoEtagSpentTwice | bin/eventhub_helper.py:265-292 | over every run of claims, checkpoints and re-initialisations no etag is spent by two successful claims iff no single call is granted a partition twice |
| Ownership.DistinctCallsNeverDoubleGrant | bin/eventhub_helper.py:273-292 | listing each partition at most once per call meets that condition on every run |
| Ownership.SamePartitionTwice | bin/eventhub_helper.py:267-292 | without it both claims of one call are acquired with the same etag |
| Ownership.EtagStays | bin/eventhub_helper.py:265-319 | while nobody else succeeds on a partition, its owner and etag stay over every run |
| Ownership.OwnerCanRenew | bin/eventhub_helper.py:265-292 | the etag a claim returns renews it after any run in which nobody else succeeded on the partition |
| Ownership.ClaimAndCheckpointCommute | bin/eventhub_helper.py:265-319 | a claim call and a checkpoint update give the same store and answer in either order, for every store |
| Ingestion.StepKeepsInvariant | bin/eventhub_helper.py:423-441 | every step of every consumer, crashes included, keeps: events before a stored, listed or reached position were passed on |
| Ingestion.RunKeepsInvariant | bin/eventhub_helper.py:423-489 | the same over every run |
| Ingestion.IngestedAtLeastOnce | bin/eventhub_helper.py:423-441 | over every run of several consumers with crashes, restarts, ownership changes and re-initialisation: every event before a stored checkpoint went through `_select_elements` at least once |
| Ingestion.ReceiversLeaveNoGap | bin/eventhub_helper.py:480-489 | whatever position a receiver has reached, every earlier event was passed on |
| Ingestion.FinishStores | bin/eventhub_helper.py:428-441 | a finished batch moves the stored checkpoint exactly behind its last event, and no other record |
| Ingestion.HandoverResumes | bin/eventhub_helper.py:480-489 | whoever lists and receives after a finished batch goes on exactly where it ended |
| IngestionBatches.CheckpointIffAllPassed | bin/eventhub_helper.py:428-441 | the callback asks for a checkpoint iff the batch is not empty and every event of it was passed on without raising |
| IngestionBatches.FinishIffCheckpoint | bin/eventhub_helper.py:423-441 | for every batch the handler's selections are a feasible run of the state machine, whose checkpoint step is then enabled iff the handler asks for one |
| ConsumerHandler.EventHubConsumerHandler.constructor | bin/eventhub_helper.py:327-337 | a new handler tracks and counts nothing |
| ConsumerHandler.EventHubConsumerHandler.WriteEvent | bin/eventhub_helper.py:374-391 | in place: an event is written and counted, or skipped and counted, by its type |
| ConsumerHandler.EventHubConsumerHandler.SelectElements | bin/eventhub_helper.py:393-407 | in place: records in order, a bad JSON string ends the event quietly, a non-dict raises, earlier effects stay |
| ConsumerHandler.EventHubConsumerHandler.GetPartitionDetails | bin/eventhub_helper.py:409-421 | in place: an unseen partition starts at -1 and 0, a seen one is untouched |
| ConsumerHandler.EventHubConsumerHandler.OnEventBatch | bin/eventhub_helper.py:423-449 | in place: the checkpoint is asked for only after every event of the batch was passed on; an empty batch may log |
| ConsumerHandler.EventHubConsumerHandler.LogEventStats | bin/eventhub_helper.py:451-470 | in place: one summary with the total over all partitions, then everything is reset |
| ConsumerHandler.BatchKeeps | bin/eventhub_helper.py:374-407 | over every batch, raised or not: the counter grows by exactly the events written, which are of streamed types, and nothing else moves |
| HandlerWrites.NothingRemoved | bin/eventhub_helper.py:375 | `str.replace` leaves a text without the pattern alone |
| HandlerWrites.FirstRemoved | bin/eventhub_helper.py:375 | otherwise it removes the first occurrence and goes on behind it |
| HandlerWrites.StreamsIff | bin/eventhub_helper.py:375-377 | a category streams iff its type, with or without the prefix, is asked for and not empty |
| HandlerWrites.SelectionWrites | bin/eventhub_helper.py:393-407 | for every event: exactly the streamed records before the first bad item are written, in order, the others before it are skipped, and it raises iff that item is not a dict |
| HandlerWrites.BatchWrites | bin/eventhub_helper.py:428-438 | for every batch: exactly the streamed records reached are written, in order, and it raises iff some event is abandoned |
| HandlerWrites.NothingAbandoned | bin/eventhub_helper.py:428-438 | a batch without an abandoned event reaches the records of all its events |
| HandlerWrites.RunWrites | bin/eventhub_helper.py:423-449 | over every sequence of callbacks: all that was written is exactly the streamed records reached, in order |
| HandlerRuns.BatchConserves | bin/eventhub_helper.py:428-441 | a batch with events keeps logged + current == actual, for written, skipped and received |
| HandlerRuns.IdleConserves | bin/eventhub_helper.py:442-470 | so does an empty batch, whether it logs and resets or not |
| HandlerRuns.CountersConserved | bin/eventhub_helper.py:423-470 | over every sequence of callbacks, raised ones included: logged plus current counts equal what was written, skipped and received |
| HandlerRuns.DoneMeansQuiet | bin/eventhub_helper.py:416-444 | for every history, `is_done > 0` iff an empty batch came after the last non-empty one, or two empty ones if there was none since the reset |
| HandlerRuns.LogsIffAllQuiet | bin/eventhub_helper.py:442-470 | statistics are logged iff the batch is empty and every partition seen since the reset is quiet in that sense; then one line is added, stamped now, and everything is reset |
| HandlerRuns.NewHandlerConserved | bin/eventhub_helper.py:327-337 | the start of every such run |
| IntRanges.OrIsSum | lib/idna/intranges.py:32-33 | the bitwise or of a shifted start and a small end is their sum |
| IntRanges.AndIsMod | lib/idna/intranges.py:35-36 | masking is the remainder by a power of two, for negative numbers too |
| IntRanges.EncodingInvertibleIff | lib/idna/intranges.py:32-36 | `_decode_range` undoes `_encode_range` iff the end is an unsigned 32-bit number |
| IntRanges.SortSorts | lib/idna/intranges.py:18 | the sorted list is in order and holds the same integers |
| IntRanges.IntrangesFromList | lib/idna/intranges.py:11-30 | the loop with `last_write` writes exactly the encoded runs |
| IntRanges.RunsCover | lib/idna/intranges.py:20-28 | the runs cover exactly the integers of the list |
| IntRanges.RunsOrdered | lib/idna/intranges.py:20-28 | runs are non-empty and ordered, duplicates allowed |
| IntRanges.DistinctListsGiveSeparatedRanges | lib/idna/intranges.py:11-30 | for a list without duplicates no two ranges touch, so they are maximal |
| IntRanges.BisectFinds | lib/idna/intranges.py:42 | the bisection separates the smaller from the rest in every sorted list |
| IntRanges.ContainIsMembership | lib/idna/intranges.py:39-54 | on ordered ranges the neighbour tests after the bisection decide membership exactly |
| IntRanges.PackedRangesExact | lib/idna/intranges.py:11-54 | for every list of integers from -1 to 2^32-2 and every x: x is found in the packed ranges iff x is in the list |
| IntRanges.LargestIntegerIsLost | lib/idna/intranges.py:32-36 | with 2^32-1 in a run, an element of the list is not found |
| IntRanges.NegativeIntegerIsLost | lib/idna/intranges.py:32-36 | with -2 alone, it is not found |
| IdnaRules.CheckBidi | lib/idna/core.py:61-117 | the single pass accepts a label iff its directions are known and it holds no right-to-left character (unforced) or meets rules 1 to 6 of section 2 of RFC 5893 |
| IdnaRules.ScanLabel | lib/idna/core.py:83-117 | the second pass meets rules 2 to 4, or 5 and 6, exactly |
| IdnaRules.EndingIsEndsWith | lib/idna/core.py:92-112 | the running `valid_ending` flag is the declarative ending rule |
| IdnaRules.ValidContextJ | lib/idna/core.py:139-183 | the scans answer Appendix A.1 and A.2 of RFC 5892 for every label and position, and raise iff an unknown combining class must be read |
| IdnaCore.ConvertLabels | lib/idna/core.py:354-359 | the loop converts label by label and stops at the first failure or empty result |
| IdnaCore.CutDomain | lib/idna/core.py:343-353 | the labels to convert and the trailing dot, none for the empty domain |
| IdnaCore.EncodeDomain | lib/idna/core.py:335-365 | `encode` on text or bytes, strict or not, with or without the mapping, computes `Encode`, length limit included |
| IdnaCore.DecodeDomain | lib/idna/core.py:368-395 | `decode` on text or bytes, strict or not, with or without the mapping, computes `Decode` |
| IdnaAcceptance.AcceptedIff | lib/idna/core.py:228-252 | a label passes iff it is non-empty, in NFC, has its hyphens in place and no initial mark, every character is valid or allowed by its context, and its directions meet the rules |
| IdnaAcceptance.RefusalIs | lib/idna/core.py:228-252 | which error refuses a label: its form first, then its first invalid character, then its directions |
| IdnaAcceptance.UlabelIff | lib/idna/core.py:274-300 | a label decodes to u iff u is its Unicode form and acceptable |
| IdnaAcceptance.AlabelIff | lib/idna/core.py:255-271 | a label is encoded iff some acceptable Unicode form of it exists and its ASCII form has at most 63 octets, and then to that form |
| IdnaAcceptance.EncodesIff | lib/idna/core.py:335-365 | a domain is encoded to e iff it is non-empty, every label is encodable, e joins the ASCII forms with the final dot kept, and e has at most 253 or 254 octets |
| IdnaAcceptance.DecodesIff | lib/idna/core.py:368-395 | a domain is decoded to u iff it is non-empty and u joins acceptable Unicode forms of its labels, the final dot kept |
| IdnaAcceptance.DotsAreAlike | lib/idna/core.py:345-348 | by default the four dots are alike, and strictly only the full stop counts |
| IdnaAcceptance.StrictLabels | lib/idna/core.py:345-346 | strictly, the labels joined by full stops are the domain itself |
| Strings.SplitJoin | lib/idna/core.py:348-362 | splitting a join of dotless labels gives the labels back |
| Strings.JoinSplit | lib/idna/core.py:379-395 | joining a split gives the text back when its only dots are full stops |
| IdnaRoundTrip.AlabelThenUlabel | lib/idna/core.py:255-300 | an encoded label has 1 to 63 octets and decodes to what the label itself decodes to |
| IdnaRoundTrip.DecodesToItselfIff | lib/idna/core.py:274-300 | a label decodes to itself iff it is not ASCII, or is lower-case ASCII without "xn--" |
| IdnaRoundTrip.EncodedLength | lib/idna/core.py:335-365 | whenever encoding succeeds: labels of 1 to 63 octets, at most 253 in all, 254 with a trailing dot (section 2.3.4 of RFC 1035) |
| IdnaRoundTrip.EncodedLabels | lib/idna/core.py:354-362 | the labels of an encoded domain are the encoded labels, trailing dot kept |
| IdnaRoundTrip.DecodeAfterEncode | lib/idna/core.py:335-395 | decoding an encoded domain always succeeds and equals decoding the domain itself |
| IdnaRoundTrip.RoundTripIff | lib/idna/core.py:335-395 | decode(encode(s)) == s iff s uses only full stops and each label is non-ASCII or lower-case ASCII without "xn--" |
| IdnaCodec.IncrementalCodec.constructor | lib/idna/codec.py:28-94 | a new codec has an empty buffer |
| IdnaCodec.IncrementalCodec.BufferConvert | lib/idna/codec.py:29-94 | one buffered call: output and consumed size, errors included |
| IdnaCodec.IncrementalCodec.CutLabels | lib/idna/codec.py:36-46 | which labels are converted now, and whether a dot follows |
| IdnaCodec.IncrementalCodec.ConvertLabels | lib/idna/codec.py:48-54 | the loop's outputs and its running `size` |
| IdnaCodec.IncrementalCodec.FeedInput | lib/idna/codec.py:28-94 | in place: the unconsumed tail becomes the buffer, a failing call leaves the buffer alone |
| Strings.SplitContinues | lib/idna/codec.py:36-46 | more text only changes the last label of a split |
| IdnaCodec.SizeIsWidth | lib/idna/codec.py:49-54 | `size` plus the trailing dot is exactly the width of the labels converted |
| Strings.SplitWidth | lib/idna/codec.py:36-54 | the last label is exactly the text behind the closed labels |
| IdnaCodec.FinalCall | lib/idna/codec.py:28-94 | a final call consumes everything and gives the label-by-label conversion |
| IdnaCodec.OpenCall | lib/idna/codec.py:28-94 | an open call converts exactly the finished labels and leaves exactly the unfinished one |
| IdnaCodec.FirstPiece | lib/idna/codec.py:28-94 | one piece that is not the last splits the conversion of the whole text in two |
| IdnaCodec.PiecesAreWhole | lib/idna/codec.py:28-94 | from every buffer, all pieces together convert the labels of the whole text |
| IdnaCodec.ChunkInvariance | lib/idna/codec.py:28-94 | for every way to cut the input, feeding the pieces succeeds iff one final call on the whole does, with the same joined output |
| IdnaCodec.NonAsciiFails | lib/idna/codec.py:69-70 | a byte that is not ASCII fails the decoder wherever the cuts are |
| IdnaCodec.FinalCallEmptiesBuffer | lib/idna/codec.py:28-94 | a successful final call leaves nothing in the buffer |
| IdnaOneShot.DecoderIsDecode | lib/idna/codec.py:61-94 | one final call of the decoder on ASCII bytes is `decode`, errors included |
| IdnaOneShot.EncoderIsEncode | lib/idna/codec.py:28-59 | one final call of the encoder is `encode` without its limit on the whole length |
| IdnaOneShot.EmptyInput | lib/idna/codec.py:33-67 | only the empty input differs: the codec answers the empty text, the functions raise |
| ByteCodecs.EncodeShape | lib/jwt/utils.py:36-37 | the length of every encoding, and that it holds neither a dot nor padding |
| ByteCodecs.EncodedInAlphabet | lib/jwt/utils.py:36-37 | every character of an encoding is that of table 2 of RFC 4648 at its digit |
| ByteCodecs.DigitsFrom | lib/jwt/utils.py:36-37 | from every group on, the digits of an encoding are those of the bytes from there on |
| ByteCodecs.DigitsAreBytes | lib/jwt/utils.py:36-37 | a group of four digits and its three bytes are one number, and a short group the same with two or four zero bits behind it |
| ByteCodecs.PaddedDecodes | lib/jwt/utils.py:25-33 | the padding put back makes the decoder return the original bytes |
| ByteCodecs.Base64RoundTrip | lib/jwt/utils.py:25-37 | base64url decoding undoes encoding for all byte strings (section 5 of RFC 4648) |
| ByteCodecs.BytesFromInt | lib/jwt/utils.py:66-74 | the loop gives the number's big-endian bytes without a leading zero |
| ByteCodecs.LengthIsLeast | lib/jwt/utils.py:66-74 | the length counted is the least that fits |
| ByteCodecs.FromToBytes | lib/jwt/utils.py:52-74 | `from_bytes` undoes `to_bytes` |
| ByteCodecs.BigEndian | lib/jwt/utils.py:52-63 | bytes in front weigh more: numbers are big-endian |
| ByteCodecs.UintRoundTrip | lib/jwt/utils.py:40-54 | every non-negative number survives, with the fewest octets but at least one (section 2 of RFC 7518), and a negative one raises |
| ByteCodecs.NumberWidth | lib/jwt/utils.py:57-63 | a number fills exactly its width iff it fits, more if it does not, and its bytes always read back as it |
| ByteCodecs.RawSignatureRoundTripIff | lib/jwt/utils.py:77-96 | a raw signature gives back (r, s) iff both are below 256^num_bytes (section 3.4 of RFC 7518) |
| Jws.PyJWS.constructor | lib/jwt/api_jws.py:30-47 | the table holds exactly the allowed default algorithms |
| Jws.PyJWS.RegisterAlgorithm | lib/jwt/api_jws.py:53-64 | in place: a new name is added and allowed, a known one refused without change |
| Jws.PyJWS.UnregisterAlgorithm | lib/jwt/api_jws.py:66-78 | in place: a known name goes from table and allowed set, an unknown one raises without change |
| Jws.PyJWS.BuildHeader | lib/jwt/api_jws.py:115-142 | the header, the algorithm name and the detached flag, step by step; a `kid` that is not a string raises |
| Jws.PyJWS.Encode | lib/jwt/api_jws.py:103-170 | building the segments step by step gives `EncodeToken`, errors included |
| Jws.PyJWS.DecodeComplete | lib/jwt/api_jws.py:172-215 | for every token it answers exactly the authentic payload, header and signature, with the object's own table and default for verification |
| Jws.DecodesIffAuthentic | lib/jwt/api_jws.py:172-310 | decoding gives an answer iff the token's three segments say it and, when verifying, its header names an allowed and known algorithm that accepts the signature of exactly the signed bytes: the segments as they stand, or what precedes the payload's place and the detached payload |
| Jws.CutIs | lib/jwt/api_jws.py:256-260 | a token has at most one cut into three segments, and `_load` takes it |
| Jws.TokenSays | lib/jwt/api_jws.py:249-285 | the segments of a written token say the payload, header and signature written, and the signed bytes are those that were signed |
| Jws.SigningInputRebuilt | lib/jwt/api_jws.py:200-206 | for a detached payload of any bytes, dots included, the signing input is rebuilt identically |
| Jws.FinalHeaderFacts | lib/jwt/api_jws.py:115-142 | exactly one header is written: the caller's entries, `typ` and `alg` filled in from the argument where missing, a falsy `typ` gone, `b64` false exactly for detached payloads |
| Jws.TokenIs | lib/jwt/api_jws.py:103-170 | for every input of `encode`: the errors in order, the algorithm asked for signs the rebuilt bytes, and the token is its three segments, the middle one empty when detached |
| Jws.NoSuchAlgorithm | lib/jwt/api_jws.py:119-159 | a truthy `alg` that is no string raises |
| Jws.FalsyValues | lib/jwt/api_jws.py:120-136 | which header values count as missing |
| Jws.JwsRoundTripIff | lib/jwt/api_jws.py:103-310 | for the algorithm the caller names: a token is produced iff `kid` is absent or a string, and decoding it recovers payload, header and signature, attached or detached, iff the header has a truthy `alg` |
| Telemetry.TelemetryContext.HitAnAccessToken | lib/msal/telemetry.py:58-60 | in place: one more success in the shared buffer |
| Telemetry.TelemetryContext.UpdateTelemetry | lib/msal/telemetry.py:62-68 | in place: an error is recorded, any other non-empty result clears the buffer |
| Telemetry.TelemetryContext.RecordFailure | lib/msal/telemetry.py:70-77 | in place: a failure is kept iff the size stays below the limit |
| Telemetry.TelemetryContext.GenerateHeaders | lib/msal/telemetry.py:39-56 | reads only: both headers, their exact lengths, and that the failures can be read back from the second |
| Telemetry.HeaderReadsBack | lib/msal/telemetry.py:47-55 | cut at bars and commas, the header gives back the counter and every failure field by field, when no field holds either |
| Telemetry.CurrentReadsBack | lib/msal/telemetry.py:41-42 | the current header gives back the API id and the refresh reason |
| Telemetry.StepExact | lib/msal/telemetry.py:58-77 | every operation keeps the size equal to the summed sizes of the recorded failures, below 350 |
| Telemetry.SizeStaysExact | lib/msal/telemetry.py:58-77 | the same over every run of contexts sharing a buffer |
| Telemetry.StepRecords | lib/msal/telemetry.py:58-77 | what each operation records: a failure is kept iff it fits below 350, a success empties the buffer |
| Telemetry.RunKeeps | lib/msal/telemetry.py:58-77 | over every run without a success: each hit is counted, and earlier failures stay in front |
| Telemetry.RunRecordsAll | lib/msal/telemetry.py:70-77 | over every run without a success: all failures are kept, in order, when together they fit |
| Telemetry.SuccessResets | lib/msal/telemetry.py:67-68 | over every run: nothing from before a success remains |
| Telemetry.JoinedLength | lib/msal/telemetry.py:53-54 | the joined requests and errors are exactly two characters shorter than the summed size |
| Telemetry.LastHeaderLength | lib/msal/telemetry.py:39-56 | over every run: the last-telemetry header has FAILURE_SIZE + 3 + digits characters when there is a failure, 5 + digits when there is none, hence at most 352 + digits |
| Telemetry.DecimalLength | lib/msal/telemetry.py:52 | the digits of the counter: k suffice iff it is below 10^k |
| Socks.ReadAll | lib/socks.py:270-280 | however reads are split, exactly the bytes asked for are returned and consumed, or the end is reported |
| Socks.WriteAddress | lib/socks.py:544-587 | the bytes written for IPv4, IPv6, names and resolved names, and on an error exactly what was already written |
| Socks.ReadAddress | lib/socks.py:589-602 | reading piecewise from a stream gives what parsing its bytes gives, and leaves the rest |
| Socks.ReadsWire | lib/socks.py:589-602 | for every stream: the address in the wire form of RFC 1928 that stands in front is read and the rest left, an unknown type is invalid, a cut one reports the end |
| Socks.WireIsUnique | lib/socks.py:589-602 | a stream begins with at most one address, the one that is read |
| Socks.WritesWire | lib/socks.py:544-587 | whatever is written, names of 128 octets or more apart, is the address in its wire form, and the host reported is the one written |
| Socks.WriteFails | lib/socks.py:544-587 | when writing fails, and with which error |
| Socks.LongNameMisread | lib/socks.py:570 | a longer ASCII name never does |
| Socks.AddressRoundTripIff | lib/socks.py:544-602 | reading what was written returns host and port and leaves the rest iff the host is an IP address, was resolved, or has at most 127 encoded octets (section 5 of RFC 1928) |
| Socks.SendTo | lib/socks.py:363-381 | in place: one framed datagram is sent, none on an error, and the payload length returned |
| Socks.RecvFrom | lib/socks.py:389-407 | truncated, fragmented, misaddressed and filtered datagrams, and the payload cut to the buffer |
| Socks.DatagramRoundTrip | lib/socks.py:363-407 | a datagram framed by `sendto` yields its sender and its payload cut to the buffer in `recvfrom`, or is filtered iff a set peer differs (section 7 of RFC 1928) |
| Socks.DatagramIs | lib/socks.py:372-380 | a datagram is three zero bytes, the address on the wire, and the payload |
| Socks.ReceivesIff | lib/socks.py:389-407 | `recvfrom` answers iff the datagram is no fragment and carries an address from the peer set, and then with that address and what follows, cut to the buffer |

## Left out

- IntRanges.PackedRangesExact: its range is wider than any code point, but outside it single lists may still come out
  right by chance (a lone 2^32-1 does), so it is not an if-and-only-if; `EncodingInvertibleIff` is exact per range and
  a counterexample stands on either side.
- MappingBreakdown.ShortLivedKeysBreakTheIndex: a witness at capacity 1; the general statements are the lemmas beside it.
- ThrottleKeys.ThrottlingKeyIff: for urls and client ids without spaces; with spaces different parts can run together
  into one key (`SpacesRunTogether`).
- MappingDeletion.DeleteAfterRun: for runs without a capacity limit; with one, evictions for capacity come on top.
- ExpiringMapping.Mapping.Keys: gives the set of keys, not the order in which a dict would list them.
- ByteCodecs.RawSignatureRoundTripIff: the DER form is the pair of its numbers, for curves of at least one byte.
- Socks.SendTo: the datagram socket is taken to send the whole datagram, and to be connected already.
- Interleavings inside one `KVCheckpointStore` method: the code re-reads and rewrites the record list without a lock.
- A file-backed mapping, a preloaded `http_cache`, the mapping's lock, and layers with key maker None.
- The table of the UTS 46 mapping, which is a parameter; round trips through the mapping and in strict mode; error
  handlers other than "strict", and the stream reader and writer classes.
- The rules of `valid_contexto` and the Unicode tables, which are parameters of the label check.
- Key preparation, the deprecated extra keyword arguments of `decode_complete`, cryptography and DER, JSON text, and `decode` and `get_unverified_header`, which add nothing.
- The SOCKS handshakes, TCP connections and local name resolution beyond its outcome.
- The Azure SDK, the Splunk KV store transport, threads, logging, REST handlers, date-polling inputs, and the
  remaining shipped libraries: input and output, or code without a comparable property.
