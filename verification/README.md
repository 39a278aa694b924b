# Molia: a Dafny model of the DHT node

Molia is a Kademlia-style DHT node: 256-bit ids under the XOR metric, k-buckets, iterative
lookups, signed records, a write-ahead log per shard, hole punching, and one single-threaded event
loop per shard. This project models the parts of it that carry state and arithmetic, and proves what
they guarantee over every input, every run and every reachable state.

`dafny verify dfyconfig.toml` checks the whole project.

## How it is organised

| file | source | content |
|---|---|---|
| `Xor.dfy`, `ShardId.dfy` | `src/types.rs` | distance, buckets, shard selection |
| `Peers.dfy` | `src/types.rs`, sorts of `src/lookup.rs` and `src/routing.rs` | peers, the distance sort, "the k nearest" |
| `Routing.dfy`, `RoutingPromises.dfy` | `src/routing.rs` | buckets, replacement caches, the nearest-peers query; who is stored, handed back and evicted |
| `Lookup.dfy`, `LookupRuns.dfy`, `LookupSeeds.dfy`, `LookupEnds.dfy`, `LookupAnswers.dfy`, `LookupPromises.dfy` | `src/lookup.rs`, `src/shard.rs` | the lookup object; its runs; seeds listed more than once; termination; whom an answer settles; what each operation does for its caller |
| `ShardLookups.dfy`, `ShardReplies.dfy`, `ShardAnswers.dfy` | `src/shard.rs` | correlation ids, pending lookups, sweep; replies owed; what callers are told |
| `Timers.dfy`, `Punch.dfy`, `EventLoop.dfy` | `src/event_loop.rs`, `src/nat.rs`, `src/shard.rs` | timer queue, punch attempts, the loop that drives both and the lookups |
| `Framing.dfy`, `Peerstore.dfy` | `src/peerstore.rs` | framed log, peer index, snapshot, compaction, recovery |
| `Records.dfy`, `Store.dfy`, `RecordLog.dfy` | `src/store.rs` | records, store, records in the shared log |
| `WgQueue.dfy` | `src/shard.rs` | messages waiting for a WireGuard session |
| `Sybil.dfy` | `src/sybil.rs` | token buckets |
| `Assumptions.dfy` | | functions that satisfy each assumption, so that none is empty |

Each object the source updates in place is a class; its methods are proved equal to functions on a
value that stands for its state (`State()`), and the theorems are about those functions, composed
into runs. Hashing, signatures, the checksum, protobuf and the text form of addresses are function
parameters, with the one inverse law each proof needs stated as `Faithful()`. What WireGuard answers,
the order in which hash maps are walked, clock readings and remote replies are arbitrary inputs.
Each of these assumptions is met by a concrete example (`Assumptions.AddrTextExists`,
`Assumptions.ProtobufExists`, `Assumptions.LibrariesExist`, `Assumptions.HonestPhaseExists`).
Fields such as `messages`, `due`, `accepted`, `open`, `calls`, `used` and `started` record history that the code
does not keep and the statements need.

## Results that differ from what one might expect

- `docs/core/kademlia.md` says XOR distance is not a metric. It is: `Xor.TriangleInequality`.
- The same document says a node is never queried twice in one lookup. The code retries once after a
  timeout: `LookupRuns.RequestsBounded`. A seed listed twice breaks even that bound and the
  result: `LookupSeeds.TwiceIffOneEntryEach`, `LookupSeeds.NearestIffSeedsDistinct`.
- A lookup whose nearest eligible peers have no address sends nothing and only ends by its time
  budget: `LookupRuns.StallsIffFrontUnaddressed`, `LookupRuns.StallLasts`,
  `LookupEnds.UnaddressedSeedsStall`.
- Shards are ranges of distance only for power-of-two counts: `ShardId.XorLocalIffPowerOfTwo`.
- Peers without an address do not survive a restart: `Peerstores.LogRefinesMemory`. Records with TTL 0
  change or vanish: `RecordLog.RestartIsExactIffTtlPositive`. Compaction leaves records where the
  record store does not look: `RecordLog.CompactionForgetsRecords`. A log reopened after a torn tail
  can swallow what is written next: `Framing.AppendAfterTornTail`, `Framing.DeletionAfterTornTailIsLost`.
- A restart starts every time to live anew, so expired records are served again:
  `RecordLog.RestartRenewsTtl`, `RecordLog.AnswersAgreeIff`.
- Replicas agree exactly if one record prevails over all others: `Stores.ConvergesIffDominant`. For
  mutable records that is a unique top sequence, `Stores.ConvergesIffUniqueTop`; a deletion never
  prevails over anything, `Stores.DeletionConvergesIffAlone`.
- Garbage collection is invisible to reads but lets a stale sequence back in:
  `Stores.GcVisibleToPutIff`.
- A replacement promoted into a bucket may already be there or exceed the /24 limit, and a direct
  eviction of an absent id can overfill a bucket: `Routing.CleanIffPromotionsHarmless`,
  `Routing.CachedTwicePromotedTwice`, `Routing.EvictKeepsLimitIff`.
- A new message can overtake queued ones: `WgQueue.OrderKeptIffNoneOvertakes`. A message queued for
  the tunnel can leave in the clear: `WgQueue.ConfidentialIffNoneExposes`.
- A peer that answers with providers is asked again: `LookupAnswers.AnsweredPeerAskedAgainIff`.

## Model

| member | source | states |
|---|---|---|
| `Xor.XorDistance` | src/types.rs:74-80 | the byte loop yields the position-wise exclusive or |
| `Xor.LexOrderIsIntegerOrder` | src/types.rs:73-80 | comparing distances as byte arrays is comparing them as 256-bit integers, both ways |
| `Xor.DistIsXor` | src/types.rs:73-80 | the byte-wise distance denotes the exclusive or of the two 256-bit integers |
| `Xor.DistZeroIffEqual` | src/types.rs:74-80 | distance zero exactly for equal ids |
| `Xor.DistSymmetric` | src/types.rs:74-80 | distance is symmetric |
| `Xor.TriangleInequality` | src/types.rs:74-80 | distance obeys the triangle inequality |
| `Xor.DistInjective` | src/types.rs:74-80 | no two ids are equally far from a target |
| `Xor.LeadingZeros256` | src/types.rs:93-104 | the loop with its early exit counts the zero bits before the first one bit |
| `Xor.LeadingZerosBounds` | src/types.rs:93-104 | that count places the value between consecutive powers of two |
| `Xor.BucketIndexIsFloorLog2` | src/types.rs:83-91 | the bucket is i exactly when 2^i <= distance < 2^(i+1) |
| `Xor.SameBucketIsCloser` | src/types.rs:82-91 | two ids of one bucket are nearer to each other than to the node |
| `ShardId.ShardInRange` | src/types.rs:107-120 | the shard is below the shard count |
| `ShardId.PrefixIsSlice` | src/types.rs:111-114 | the shifted four-byte prefix is the top bits of the whole 256-bit distance |
| `ShardId.ShardOwnsOneOrTwoSlices` | src/types.rs:115-119 | a shard owns the distance range with its number and the one `count` further on, if there is one |
| `ShardId.XorLocalIffPowerOfTwo` | src/types.rs:106-120 | nearer keys never go to a higher shard, if and only if the count is a power of two |
| `ShardId.ExactlyOneIdAtDistance` | src/types.rs:73-80 | each distance below 2^256 is taken by exactly one id |
| `Peers.SortIsSortedPermutation` | src/lookup.rs:163-169 | the sort by distance then round-trip time yields a sorted permutation |
| `Peers.SortedOrder` | src/lookup.rs:163-169 | nearer first, and of two entries for one id the one with the shorter round trip |
| `Peers.SortDistinct` | src/lookup.rs:163-169 | distinct ids sort into strictly increasing distance |
| `Peers.NearestIsUnique` | src/lookup.rs:158-160 | "the k nearest of a set" determines the sequence |
| `Lookups.Lookup.constructor` | src/lookup.rs:42-68 | the initial state |
| `Lookups.Lookup.TakeBatch` | src/lookup.rs:70-92 | the scan with its breaks returns the batch of `BatchAsksNearestEligible` and sets `done` as specified |
| `Lookups.Lookup.Sent` | src/lookup.rs:94-97 | queried set and capacity-8 in-flight list after a request |
| `Lookups.Lookup.Timeouts` | src/lookup.rs:99-119 | expired requests leave, first-time failures become eligible again, alpha grows |
| `Lookups.Lookup.Closer` | src/lookup.rs:121-140 | merge, sort, alpha, best-k and the no-progress test |
| `Lookups.Lookup.Record` | src/lookup.rs:142-146 | a record ends the lookup |
| `Lookups.Lookup.Providers` | src/lookup.rs:148-156 | providers merged once each, then as for closer peers |
| `LookupPromises.BatchAsksNearestEligible` | src/lookup.rs:75-91 | the batch is the first eligible entries of the shortlist: as many as there are, as alpha leaves room for, and at most 8 |
| `LookupPromises.NobodyPassedOver` | src/lookup.rs:75-91 | no eligible peer is passed over for a farther one |
| `LookupPromises.AlphaAdapts` | src/lookup.rs:99-125 | alpha grows exactly by an expiry and shrinks exactly by a fast answer, within 3 to 8 |
| `LookupPromises.AnswerEndsIff` | src/lookup.rs:121-140 | an answer ends the lookup if and only if the nearest peers are as after the answer before, all asked, and nobody else is in flight |
| `LookupPromises.RecordEnds` | src/lookup.rs:142-146 | a record ends the lookup and settles only its sender's request |
| `LookupPromises.ShortlistHoldsFirstReports` | src/lookup.rs:126-132 | over every run the shortlist holds, for each id told of, the first descriptor given, and nothing else |
| `LookupPromises.ProvidersCollected` | src/lookup.rs:148-156 | over every run the providers are those offered, once each, as first offered |
| `LookupRuns.NothingDropped` | src/lookup.rs:94-97 | while batch and in-flight list fit in 8, no push is lost |
| `LookupRuns.StepKeepsInv` | src/lookup.rs:70-156 | every step keeps: sorted distinct shortlist of all learned ids; distinct in-flight ids inside `queried`, at most 8; alpha in 3..8; requests per peer equal queried plus retried; requests equal settled plus in flight |
| `LookupRuns.RequestsBounded` | src/lookup.rs:70-156 | over every run each peer gets at most two requests, at most twice the pool in all |
| `LookupRuns.FinishIsNearest` | src/lookup.rs:158-160 | at every moment the result is exactly the 20 nearest of everything learned, in order |
| `LookupRuns.DoneMeansSettled` | src/lookup.rs:75-91 | a step that ends a lookup by exhaustion or lack of progress leaves nothing in flight and every nearest peer queried |
| `LookupRuns.EveryEndingIsSettled` | src/lookup.rs:121-140 | the same for every run, together with what the result then is |
| `LookupRuns.DispatchLeavesWork` | src/lookup.rs:75-91 | a dispatch that does not finish leaves a request outstanding |
| `LookupRuns.StallsIffFrontUnaddressed` | src/shard.rs:355-362 | an idle dispatch neither ends nor sends exactly when the front eligible peers all lack an address |
| `LookupRuns.StallLasts` | src/shard.rs:355-362 | such a stall lasts until the time budget |
| `LookupSeeds.RequestsPerEntry` | src/lookup.rs:70-119 | for all seeds and runs, a peer gets at most two requests per addressed entry it has among the seeds, and at most two if it has none |
| `LookupSeeds.SilenceAsksTwicePerEntry` | src/lookup.rs:70-119 | with as many seeds as the shard passes, peers that stay silent get exactly that many |
| `LookupSeeds.TwiceIffOneEntryEach` | src/shard.rs:344-346 | no run from such seeds asks a peer more than twice, if and only if no peer has two addressed entries among them |
| `LookupSeeds.DuplicateSeedAskedFourTimes` | src/lookup.rs:76-87 | the concrete failure: a seed listed twice is asked four times |
| `LookupSeeds.NearestIffSeedsDistinct` | src/lookup.rs:158-160 | from up to 20 seeds the result is always the nearest peers learned, if and only if the seeds are distinct |
| `LookupEnds.EndsFromAnySeeds` | src/lookup.rs:70-156 | without the clock and from any seeds: a lookup that is served turn after turn, not stalled, with an outstanding request settled in each, is done after twice the seeds and other peers in play |
| `LookupEnds.LookupTerminates` | src/lookup.rs:70-156 | from distinct seeds: after more than 2·pool such turns |
| `LookupEnds.OnePeerAnswersAndItEnds` | src/lookup.rs:70-140 | such turns exist without a record: one peer is asked, answers, and the lookup ends |
| `LookupEnds.SettlingStepsBounded` | src/lookup.rs:70-156 | no run without a record settles more requests than that |
| `LookupEnds.UnaddressedSeedsStall` | src/shard.rs:355-362 | a lookup whose seeds all lack an address stands still through every tick of its budget |
| `LookupAnswers.AnsweredPeerAskedAgainIff` | src/shard.rs:645-653 | a peer that answered may be asked again after its request expires, if and only if the answer came under another id and it had no retry yet |
| `LookupAnswers.ProviderAnswerAskedAgain` | src/shard.rs:645-653 | the input: the one peer answers with providers, under the all-zero id, and is asked twice |
| `ShardLookups.LookupTable.Alloc` | src/shard.rs:1409-1416 | the 32-bit counter wraps past zero |
| `ShardLookups.LookupTable.DispatchBatch` | src/shard.rs:355-406 | the request loop: ids taken in order, peers without an address passed over |
| `ShardLookups.LookupTable.Start` | src/shard.rs:338-353 | a call is answered at once or stored under the counter's value |
| `ShardLookups.LookupTable.SweepAll` | src/shard.rs:754-770 | each lookup in turn is removed, served, and answered or put back |
| `ShardLookups.LookupTable.FindLookup` | src/shard.rs:745-752 | finds a lookup waiting for the id if and only if there is one |
| `ShardReplies.EveryCallerAnsweredOnce` | src/shard.rs:338-424 | over every run below 2^32 - 1 ids, each caller waits on exactly one lookup or has exactly one reply |
| `ShardReplies.ResponseMatchesOneRequest` | src/shard.rs:745-752 | in such a run an id belongs to one request of one lookup, and is never 0 |
| `ShardReplies.CallKeepsOthersIffKeyFree` | src/shard.rs:351-352 | without the bound, a call keeps everyone else's reply exactly if its key is free |
| `ShardReplies.DoneLookupAnswered` | src/shard.rs:754-770 | a finished lookup is answered by the next sweep over it; with what, is `EveryAnswerIsRight` |
| `ShardReplies.RecordReachesCaller` | src/shard.rs:631-640 | a record that arrives is what the caller is told |
| `ShardAnswers.EveryAnswerIsRight` | src/shard.rs:338-424 | over every run each caller is told the 20 nearest peers its lookup was told of, or the record, or the providers offered, or nothing exactly if there was neither |
| `ShardAnswers.ResponseIsLearned` | src/shard.rs:621-656 | a response is learned by the lookup it hits and by no other |
| `ShardAnswers.ExpireClearsOld` | src/shard.rs:803-814 | an expiry drops exactly the requests older than 400 ms and no lookup |
| `ShardAnswers.ServedLookupAsks` | src/shard.rs:754-770 | a lookup left pending by a sweep has a request in flight to every addressed peer of its batch |
| `ShardAnswers.IdsNeverZero` | src/shard.rs:1409-1416 | over every run, however long, ids are between 1 and 2^32 - 1 |
| `Timers.TimingWheel.Schedule` | src/event_loop.rs:49-51 | one timer more |
| `Timers.TimingWheel.PopDue` | src/event_loop.rs:53-64 | the peek/pop loop yields the due timers in firing order and leaves the rest |
| `Timers.TimingWheel.NextTimeout` | src/event_loop.rs:66-68 | sleep until the earliest timer and no longer |
| `Timers.DueIsExact` | src/event_loop.rs:26-64 | popping conserves the multiset, takes exactly what is due, in nondecreasing time |
| `Punching.PunchTable.Start` | src/shard.rs:1179-1210 | guards, opening message, first burst, timer request |
| `Punching.PunchTable.Asked` | src/shard.rs:1253-1291 | a request opens or renews an attempt and is replied to once |
| `Punching.PunchTable.TickPeer` | src/shard.rs:1310-1335 | one peer's turn of the punch tick |
| `Punching.PunchTable.TimerFired` | src/shard.rs:1307-1340 | the whole tick, and whether another is wanted |
| `Punching.PunchStepKeepsInv` | src/shard.rs:1179-1291 | whatever the two clock readings of a handler, attempts have burst at least once, their deadline covers relay time and second burst, at most opening plus reply are sent |
| `Punching.TickResolves` | src/shard.rs:1307-1340 | a tick removes every attempt whose deadline has come and asks for another tick if any is left |
| `Punching.PromptIff` | src/shard.rs:1189-1209 | the deadline is the relay time exactly if the burst reads the clock at most 500 ms after the handler |
| `Punching.ReportOpens` | src/shard.rs:1179-1210 | a report opens an attempt exactly under the guards, with these times, and changes nothing else |
| `Punching.RequestTakenUp` | src/shard.rs:1253-1291 | a request with candidates is always taken up |
| `Punching.SignalsTaken` | src/shard.rs:508-524 | a pong ends punching and relaying for its peer; a relayed packet notes the hop |
| `Punching.ContactLasts` | src/nat.rs:7-31 | contact counts for 30 minutes |
| `Punching.TickSpec` | src/shard.rs:1310-1335 | one peer's turn: in contact, given up to the rendezvous relay, or one burst further |
| `Punching.TickFallsBack` | src/shard.rs:1327-1332 | over a whole tick a relayable peer whose attempt ends without contact is on its rendezvous relay |
| `EventLoop.FireKeepsInv` | src/shard.rs:243-245 | handling the due timers one by one keeps the loop's invariant over wheel and timers in hand |
| `EventLoop.TimersStayArmed` | src/shard.rs:209-213 | after every step of every run each self-rearming timer is armed exactly once |
| `EventLoop.TimersFireOnSchedule` | src/shard.rs:772-818 | the next keepalive, flush, collection and lookup tick are at most 20 s, 100 ms, 30 s and 50 ms away |
| `EventLoop.TickExpires` | src/shard.rs:803-814 | a lookup tick leaves no request older than 400 ms in flight |
| `EventLoop.PunchesResolve` | src/shard.rs:1179-1340 | at every loop boundary an attempt is less than 250 ms past its deadline, has a timer to come and has sent at most two Punch messages |
| `EventLoop.PunchesResolveInTime` | src/shard.rs:1179-1340 | in runs whose bursts read the clock within 500 ms, it is less than 250 ms past its relay time |
| `EventLoop.EveryCallAnsweredInTime` | src/shard.rs:217-246 | every lookup call is answered exactly once by the first loop boundary 1550 ms or more after it |
| `Framing.ReadAt` | src/peerstore.rs:148-167 | header, payload, checksum, each possibly cut short |
| `Framing.ReplayFrames` | src/peerstore.rs:145-183 | the replay loop sees exactly the parsed frames |
| `Framing.FrameLayout` | src/peerstore.rs:186-193 | length, type, payload, checksum of the payload |
| `Framing.LittleEndianBytes` | src/peerstore.rs:186-193 | least significant byte first |
| `Framing.ParseUndoesEncode` | src/peerstore.rs:186-193 | parsing undoes printing |
| `Framing.TornTail` | src/peerstore.rs:145-183 | any byte prefix of a log replays to exactly the frames wholly inside it |
| `Framing.WholeFramesIsExact` | src/peerstore.rs:186-193 | that number of frames is the largest that fits |
| `Framing.AppendAfterWholeTail` | src/peerstore.rs:37-42 | frames appended at a frame boundary are all recovered |
| `Framing.ParsesToIff` | src/peerstore.rs:145-193 | bytes replay to given frames if and only if they start with their encoding and the rest is unreadable |
| `Framing.AppendAfterTornTail` | src/peerstore.rs:37-42 | whatever the tear, frames appended behind it are recovered, if and only if their text reads the same shifted back over the torn bytes and the rest is unreadable |
| `Framing.TornFrameSwallows` | src/peerstore.rs:37-42 | after a tear past a length field a replay sees nothing beyond the whole frames, if and only if the appended bytes do not complete the torn frame |
| `Framing.DeletionAfterTornTailIsLost` | src/peerstore.rs:37-42 | a losing input: a deletion written behind a torn peer entry |
| `Peerstores.Peerstore.Open` | src/peerstore.rs:28-44 | opening replays the snapshot, then the log |
| `Peerstores.Peerstore.UpsertPeer` | src/peerstore.rs:55-66 | index and waiting log entry |
| `Peerstores.Peerstore.RemovePeer` | src/peerstore.rs:68-74 | index and waiting tombstone |
| `Peerstores.Peerstore.AppendRecord` | src/peerstore.rs:84-86 | a waiting record entry |
| `Peerstores.Peerstore.FlushPending` | src/peerstore.rs:89-98 | waiting entries are appended to the log, or dropped without one |
| `Peerstores.Peerstore.CompactFiles` | src/peerstore.rs:104-131 | snapshot written in any order, log emptied, waiting entries kept |
| `Peerstores.WriteFrames` | src/peerstore.rs:94-96 | frames one after the other at the end of the file |
| `Peerstores.MemoryHoldsLatest` | src/peerstore.rs:55-74 | over every run memory holds the peer stored last, and nothing if it was removed after that or never stored |
| `Peerstores.DiskHoldsLatest` | src/peerstore.rs:55-143 | over every run, flushing and reopening brings back the address of each peer stored last with one, and none that was removed or never stored |
| `Peerstores.RemovedStaysGone` | src/peerstore.rs:68-74 | stored, removed, flushed, reopened: gone |
| `Peerstores.EntriesLogged` | src/peerstore.rs:55-86 | the log entry of each operation |
| `Peerstores.OddEntriesIgnored` | src/peerstore.rs:168-180 | entries that say nothing about a peer are passed over |
| `Peerstores.SnapshotHolds` | src/peerstore.rs:104-131 | the snapshot holds every peer and then the records; log emptied, waiting entries kept |
| `Peerstores.LogRefinesMemory` | src/peerstore.rs:55-143 | over every run, restarts and compactions included, snapshot, log and waiting entries replay to the in-memory index if and only if every peer in memory has an address |
| `Peerstores.UnaddressedPeerNotRecovered` | src/peerstore.rs:55-66 | the failing input: one peer without an address is not recovered |
| `Peerstores.CrashDuringCompaction` | src/peerstore.rs:111-131 | a crash before, between or after rename and truncation recovers the same peers, if and only if all have an address |
| `Peerstores.CrashDuringFlush` | src/peerstore.rs:89-98 | a crash while writing recovers the flushed state plus a prefix of the waiting entries |
| `Stores.Store.Put` | src/store.rs:193-232 | all refusals in order, and the effect of accepted records and probes |
| `Stores.AnnounceIn` | src/store.rs:255-270 | refresh in place, else append while below 64 |
| `Stores.Store.AnnounceProvider` | src/store.rs:255-270 | the list under its key |
| `Stores.Store.CollectGarbage` | src/store.rs:286-293 | expired records, cached copies and providers are dropped |
| `Stores.GetIsSound` | src/store.rs:245-253 | after any run from a store with sound records what is returned is authentic, unexpired, no tombstone, under its own key |
| `Stores.GcInvisibleToReads` | src/store.rs:286-293 | collecting changes no later `get` or `providers` answer |
| `Stores.GcVisibleToPutIff` | src/store.rs:203-212 | it changes a put exactly if the dropped record was refusing that sequence |
| `Stores.StaleAcceptedAfterGc` | src/store.rs:203-212 | the input: refused before the collection, accepted after it |
| `Stores.AcceptedRaisesSequence` | src/store.rs:203-212 | an accepted replacement strictly raises the sequence |
| `Stores.AcceptedIff` | src/store.rs:193-225 | a put is accepted if and only if it is small enough, authentic and not held off by what is stored |
| `Stores.RefusalReasons` | src/store.rs:193-225 | which error a refused put reports |
| `Stores.ProbeChangesNothing` | src/store.rs:226-228 | a refused put, and a probe of anything but a tombstone, leave the store as it was |
| `Stores.AcceptedIsServed` | src/store.rs:226-253 | an accepted record is served until its TTL ends and queued for the log; other keys are unaffected |
| `Stores.DeletionHides` | src/store.rs:213-225 | after a deletion, even as a probe, only a cached copy can be served |
| `Stores.ImmutableIsServed` | src/store.rs:169-191 | a value is served under its hash until its TTL ends, unless over the limit |
| `Stores.CachedIsServed` | src/store.rs:234-243 | a cached copy is served for ten minutes where there is no live record |
| `Stores.GcKeepsExactlyLive` | src/store.rs:286-293 | a collection keeps exactly what has not expired |
| `Stores.AnnouncementSpec` | src/store.rs:255-270 | refresh or append below 64; other peers' entries stay |
| `Stores.ProvidersStayOk` | src/store.rs:255-293 | over every run at most 64 providers a key, each peer once |
| `Stores.AnnouncedIsReturned` | src/store.rs:255-284 | an announced provider is returned for 24 hours and no longer |
| `Stores.ProvidersAreLive` | src/store.rs:272-284 | a query returns live providers only, up to the limit |
| `Stores.DeliveryKeepsTop` | src/store.rs:193-232 | any deliveries leave the first one of the highest sequence |
| `Stores.ConvergesIffDominant` | src/store.rs:193-232 | replicas that receive the same valid records of any kinds, in any order and repetition, agree, if and only if one record prevails over every other |
| `Stores.ConvergesIffUniqueTop` | src/store.rs:193-232 | for mutable records, if and only if the top sequence is unique |
| `Stores.DeletionConvergesIffAlone` | src/store.rs:203-225 | with a deletion among them, if and only if it is the only record |
| `Stores.TombstoneOrderMatters` | src/store.rs:213-225 | a record and a deletion end differently in the two orders |
| `Records.AuthenticMeans` | src/store.rs:63-82 | hash, or owner-derived key and signature over key, value, sequence and both times |
| `Records.ReadBackFromWire` | src/store.rs:92-108 | decoding keeps everything but a zero TTL |
| `RecordLog.MoveAll` | src/store.rs:157-163 | the loop that hands queued records to the log |
| `RecordLog.ReplayWal` | src/store.rs:295-329 | the replay loop: own frames only, authentic ones only, last wins |
| `RecordLog.LiveRecordsSurvive` | src/store.rs:151-163 | after writing out, a restart brings back every live record with nonzero TTL, and the peers sharing the log, also in runs with earlier restarts |
| `RecordLog.RestartIsExactIffTtlPositive` | src/store.rs:92-108 | with no collection since the last restart the recovered map is the live one, if and only if no live record has TTL 0 |
| `RecordLog.ZeroTtlNotRecovered` | src/store.rs:98 | the failing input: one record with TTL 0 |
| `RecordLog.RestartRenewsTtl` | src/store.rs:105 | after a restart at t a record is served up to t plus its TTL, with the same content |
| `RecordLog.AnswersAgreeIff` | src/store.rs:245-253 | answers before and after agree, if and only if the record had not expired or the cache answers the same |
| `RecordLog.GetStaysSound` | src/store.rs:137-149 | opened on any files and after any run with restarts and compactions, `get` returns only authentic, unexpired records, no tombstone, under their own key |
| `RecordLog.StaleStaysRefused` | src/store.rs:207-211 | a stale sequence is still refused after the restart |
| `RecordLog.CrashWhileWriting` | src/store.rs:295-316 | a crash while writing recovers the records of a prefix |
| `RecordLog.CompactionForgetsRecords` | src/store.rs:144-147 | after a compaction the records recovered are the live ones exactly if there are none |
| `Routing.RoutingTable.InsertPeer` | src/routing.rs:46-81 | refresh to the tail, append, or cache, and the entry handed back |
| `RoutingPromises.InsertStores` | src/routing.rs:46-70 | a peer that may be stored is the last entry of its bucket, with its new descriptor and no failures; nobody else moves or changes |
| `RoutingPromises.InsertElsewise` | src/routing.rs:46-81 | otherwise no entry changes; a newcomer to a full bucket is the last spare while fewer than 8 wait |
| `RoutingPromises.InsertedIsFound` | src/routing.rs:46-124 | a peer inserted in a fresh table is what the query returns |
| `RoutingPromises.HandedBackIsLeastRecent` | src/routing.rs:71-81 | over every run with harmless promotions the entry handed back came to the end of its bucket longest ago |
| `Routing.RoutingTable.EvictAndReplace` | src/routing.rs:83-89 | drop and promote |
| `RoutingPromises.EvictionSpec` | src/routing.rs:83-89 | the id goes, the others stay, the newest spare stands behind them |
| `Routing.RoutingTable.Touch` | src/routing.rs:91-99 | smoothed time, failure count cleared |
| `RoutingPromises.ContactSpec` | src/routing.rs:91-99 | contact clears failures, notes the time and smooths the round trip; nothing else changes |
| `Routing.RoutingTable.Fail` | src/routing.rs:101-109 | third failure evicts |
| `RoutingPromises.FailureSpec` | src/routing.rs:101-109 | two failures are counted, the third evicts; nobody else's count changes |
| `RoutingPromises.ThreeFailuresEvict` | src/routing.rs:101-109 | three in a row evict, two do not |
| `Routing.RoutingTable.ClosestPeers` | src/routing.rs:111-124 | collect, sort, take |
| `RoutingPromises.FlattenCollects` | src/routing.rs:111-112 | the query looks at the entries of every bucket and at nothing else |
| `RoutingPromises.CountPrefixCounts` | src/routing.rs:140-167 | the count of a /24 is the number of entries in it |
| `RoutingPromises.SharedPrefix` | src/routing.rs:140-167 | what sharing a /24 means |
| `Routing.EwmaBetween` | src/routing.rs:176-178 | the average stays between its inputs and does not overflow below 2^29 |
| `Routing.EwmaExactIff` | src/routing.rs:176-178 | the 32-bit average is the true one if and only if 7·srtt + sample is below 2^32 |
| `Routing.HugeSampleLowersAverage` | src/routing.rs:176-178 | a wrapping input |
| `Routing.TableStaysSound` | src/routing.rs:46-109 | over every run: own bucket, never self, at most 20 and 8, at most 2 failures |
| `Routing.TimesStayInRange` | src/routing.rs:91-99 | smoothed times stay within 200 ms and the samples, for samples below 2^29 |
| `Routing.CleanIffPromotionsHarmless` | src/routing.rs:46-167 | throughout a run ids stay distinct and at most 8 entries of a bucket share a /24, if and only if every promotion is of an absent peer whose /24 has room |
| `Routing.UnpromotedTableStaysClean` | src/routing.rs:140-167 | in particular without promotions |
| `Routing.PromotionKeepsDistinctIff` | src/routing.rs:83-89 | a promotion keeps ids distinct exactly if the promoted peer is not there |
| `Routing.PromotionKeepsDiverseIff` | src/routing.rs:83-89 | it keeps the /24 limit exactly if fewer than 8 of the promoted /24 are left |
| `Routing.CachedTwicePromotedTwice` | src/routing.rs:71-89 | a newcomer cached twice ends up in the bucket twice |
| `Routing.NinthOfPrefixPromoted` | src/routing.rs:71-89 | two cached newcomers of one /24 are both promoted and exceed its limit |
| `Routing.EvictKeepsLimitIff` | src/routing.rs:83-89 | the size limit survives a direct eviction exactly if the id was present, there was room, or no spare waited |
| `Routing.ClosestIsSortedPrefix` | src/routing.rs:111-124 | the query returns min(n, 32, size) peers, a prefix of the sorted table |
| `Routing.ClosestIsNearest` | src/routing.rs:111-124 | with distinct ids, exactly the nearest ones |
| `Routing.ClosestDependsOnIdsOnly` | src/routing.rs:111-124 | any two tables with distinct ids that know the same ids return the same ids |
| `Routing.HarmlessRunKeepsDistinct` | src/routing.rs:46-109 | runs with harmless promotions lead to such tables |
| `WgQueue.SessionQueue.Send` | src/shard.rs:982-1018 | size limit, clear path, sealed, initiation and refused cases |
| `WgQueue.SessionQueue.SealWhilePossible` | src/shard.rs:1055-1078 | the flush loop sends the run of `SealedRunIsLongest` |
| `WgQueue.SealedRunIsLongest` | src/shard.rs:1055-1078 | everything in the run is sealed, and it ends at the end of the queue or at an encapsulation that is not |
| `WgQueue.SessionQueue.FlushQueue` | src/shard.rs:1042-1082 | the queue afterwards, with and without a key |
| `WgQueue.FlushSendsPrefix` | src/shard.rs:1042-1082 | a flush sends a prefix in order and keeps exactly the suffix |
| `WgQueue.FlushSendsWhatIsSealed` | src/shard.rs:1042-1082 | with a key on file exactly the messages sealed before the first one that is not go out, and the rest waits |
| `WgQueue.OpenTunnelEmptiesQueue` | src/shard.rs:1042-1082 | a tunnel that seals everything leaves nothing waiting |
| `WgQueue.FlushWithoutKey` | src/shard.rs:1046-1051 | without a key everything goes out in the clear |
| `WgQueue.WaitingKnocks` | src/shard.rs:1001-1016 | a message that has to wait is accompanied by a packet unless the tunnel yields nothing twice |
| `WgQueue.TooLongIsDropped` | src/shard.rs:983-985 | over 1200 bytes is not taken on |
| `WgQueue.NoMessageLostOrDuplicated` | src/shard.rs:982-1082 | over every run and every tunnel, each message taken on is sent or waiting, exactly once |
| `WgQueue.SendKeepsOrderIff` | src/shard.rs:998-1016 | a send keeps the order exactly if it does not pass a different waiting message |
| `WgQueue.OrderKeptIffNoneOvertakes` | src/shard.rs:982-1082 | over every run and every tunnel, order is kept throughout if and only if no send does |
| `WgQueue.LaterMessageOvertakes` | src/shard.rs:982-1018 | an overtaking input |
| `WgQueue.FlushClearIff` | src/shard.rs:1042-1052 | a flush sends everything waiting in the clear if no key is on file, and nothing in the clear otherwise |
| `WgQueue.ConfidentialIffNoneExposes` | src/shard.rs:982-1082 | over every run and every tunnel, only messages for which no tunnel was asked have gone in the clear, if and only if no flush met waiting messages without a key on file |
| `WgQueue.QueuedMessageFlushedClear` | src/shard.rs:993-1050 | the failing input: a key passed by the caller only |
| `Sybil.RateGate.AllowPreHandshake` | src/sybil.rs:83-102 | the verdict and both buckets afterwards |
| `Sybil.ChargeSpends` | src/sybil.rs:27-38 | an accepted packet costs one token of its address and of its /24 |
| `Sybil.WindowBound` | src/sybil.rs:83-102 | in any window of T seconds at most 20 + 10T packets of an address and 80 + 40T of a /24 pass |
| `Sybil.BurstPassesTwenty` | src/sybil.rs:84-91 | the bound is reached: exactly 20 of a burst pass |
| `Sybil.PassesIffPaid` | src/sybil.rs:83-102 | a packet passes if and only if its address and /24 have a token, and costs each one |
| `Sybil.UnpaidCostsPrefixNothing` | src/sybil.rs:89-91 | a packet its address cannot pay for costs its /24 nothing |
| `Sybil.CreditRefills` | src/sybil.rs:27-31 | credit comes back at the rate, up to the cap |
| `Sybil.QuietSourceGetsThrough` | src/sybil.rs:83-102 | after a pause of T seconds at least min(20, 10T) packets of an address pass |
| `Sybil.CrowdPassesEighty` | src/sybil.rs:92-101 | four addresses of a /24 get 80 packets through at once, a fifth none |

## Left out

- Sockets, polling, threads, channels and file-system errors: only bytes, logs and steps are modelled; a write error that makes a flush drop drained entries is not.
- Clock readings inside one handler: the second reading by a punch burst is modelled; other handlers read the clock once, and the timer phase once per timer.
- Header and body encoding, message classification and WireGuard index packing (`src/codec.rs`, `src/wg.rs`): messages are values here, and no statement depends on their bytes. Requests of a dispatch are taken to fit their 2048-byte buffer.
- What BoringTun queues by itself: `WgQueue` speaks of the messages the shard hands over.
- Query blinding beyond the correlation ids its probes take; probe targets are single-step.
- The choice of `from` by source address when a list of peers arrives: any sender is allowed instead.
- Relay forwarding and multi-hop punch forwarding: frames carry no hop limit.
- The binary heap is a multiset with a greatest element, and `sort_by` is a stable insertion sort written as a function: both are library code.
- Erasure coding, WebRTC gateway, metrics, buffer pool, reputation scores, relay budget, NAT classification.
- Sybil.WindowBound: floating-point rounding is not modelled; times and tokens are real numbers.
- Peerstores.LogRefinesMemory: stops inside a write are covered by CrashDuringFlush and CrashDuringCompaction; a log that was torn and then appended to is not in its runs, since what is written after a torn tail can be lost (AppendAfterTornTail).
- RecordLog.LiveRecordsSurvive, RestartIsExactIffTtlPositive, StaleStaysRefused, RestartRenewsTtl, AnswersAgreeIff and CrashWhileWriting: their runs contain no compaction, which loses records (CompactionForgetsRecords).
- LookupRuns.RequestsBounded: needs seeds with distinct ids; LookupSeeds.RequestsPerEntry is the bound for all seeds.
- Routing.TimesStayInRange: samples of 2^29 microseconds or more are not covered, since they can wrap the average (EwmaExactIff, HugeSampleLowersAverage).
