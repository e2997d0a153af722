# Verified models of the toll-transaction gateway

These Dafny modules model the parts of the gateway that carry invariants of their own, and
prove them. Databases, sockets, KeyDB and clocks are abstract: a call into them is a step
that may fail, with or without having taken effect, and a clock reading is a parameter.
Run `dafny verify dfyconfig.toml` to verify everything.

| modules | what they model |
|---|---|
| `TicketIdFormat`, `TicketIdProtocol`, `TicketIdService` | the block allocator of ticket ids: arithmetic, the atomic steps of any number of interleaved calls, and the service object |
| `TcdSync`, `TcdLaws` | synchronising the detail rows of a transaction with a list, and what that guarantees across failing calls |
| `StreamFramer`, `ConnectionLoop` | the incremental parser of the client stream, and a connection with its key resolution |
| `Lru`, `TollCache` | eviction in order of last access, and the toll cache |
| `TollLaneCache`, `TollLaneLaws` | the lane cache with its secondary index, expiry and eviction, and what its runs keep |
| `LeaderLock` | the leader lock of the Kafka consumers, with a clock |
| `DbRetry` | the queue of failed database writes |
| `CacheKeys`, `CacheReload`, `CacheReloadLaws` | cache keys, the calls of the two-level cache one by one, and its capped reload |
| `CacheInterleaving`, `CacheOverlaps`, `CacheConvergence` | the same calls cut into single store calls and interleaved, what each way of overlapping does, and what reloads achieve meanwhile |
| `LogRotation`, `LogRotationLaws` | the sanitising, buffering, rotating log writer |
| `Decimals`, `SegmentCache`, `SegmentReload` | segments keyed by pairs of tolls, and their way through KeyDB keys and capped reloads |
| `PriceOrder`, `PriceCache` | sorting and loading the price list, and looking prices up |
| `Sessions`, `Network` | the session map, and connections from accept to close with the reply router |
| `Bytes`, `Collections`, `Fates`, `Int64`, `Options` | shared types and facts |

Objects that the program updates in place are classes, and each method is proved against a
function or relation on values; the laws are lemmas about those. Protocols with several
tasks are state machines whose steps are the atomic actions of the program, and the laws
quantify over all their runs.

## What holds only under a condition

Some promises of the program hold only under a condition. The first below is sufficient, and
each of its parts is shown to be needed; the others are proved exact:

- Block ids are unique when initialisation and rollover are exclusive and never fall between
  another call's prefix load and its bump. Each part is needed, by runs from the initial state
  (`EachPartIsNeeded`, `TwoRollovers`).
- A save leaves the table exact if and only if its keys were unique and every stale delete
  took effect. Duplicates from before are never removed, and a failing delete is reported as
  success (`CompletedExactIff`, `DuplicateSurvives`).
- Independence from the reads holds if and only if one single read would not reach the error
  limit, because the error count starts at zero in every call (`ChunkingIndependentIff`,
  `ZerosDependOnReads`).
- A lookup by toll is exact if and only if no unexpired entry of another toll is listed there
  (`LookupExactIff`); lanes that move to another toll bring that about (`MovedLaneIsForeign`).
- A second leader can appear if and only if the lease runs out under a live one. A single
  lost renewal is enough for that when the lease time is even, as the default of 60 s is
  (`SecondLeaderIff`, `OneMissLapsesIff`, `OneMissMakesTwoLeaders`).
- What is cached in process is what KeyDB holds, for every key that no call is in the middle
  of, if calls on that key do not overlap (`SeparateCallsKeepCoherent`). However they overlap,
  the cached value stems from the last write in KeyDB if and only if that writer and the call
  that cached the value did not access the two stores in opposite orders (`OriginIsLastIff`);
  if different calls store different values, this is also when the key is coherent
  (`QuietCoherentIff`). Calls await between the stores, so it can fail: with a set inside a
  reload's removal, inside another set, or a removal inside a lookup (`SetInsideReload`,
  `SetInsideSet`, `RemovedBeforeFill`). `OverlappingWrites` and `LookupAcrossWrite` say which
  interleavings of two calls do it.
- A removed prefix leaves keys in process if and only if more of them are there than the bound
  (`RemovePrefixIff`).
- No log byte is lost if and only if no rotation meets a file with content; the stamp has
  milliseconds, and nothing checks that it is new (`AllBytesKeptIff`, `SameStampLosesBytes`).
- The KeyDB fallback rebuilds what was loaded if and only if the stale keys before the first
  of n reloads number at most 5000 n (`FallbackAfterReloads`, `CapLeavesASegment`).
- The newest price is kept unless rows without vehicle type and rows of a type named "None"
  share a key (`NewestIff`).
- No active connection is on record as closed until an id is given out again while still on
  record, which needs 2147483647 connections (`CleanKeptIff`, `ReplyPassesIffActive`).

## Where code and documentation disagree

The models follow the code.

- Comments give the suffix maximum as 1 to 999 with default 999; the code clamps it to 1 to 9
  with default 9. The results hold for every maximum of at least 1.
- A comment promises ids that always end in 1. An id whose digit would overflow stays as it
  is, which is the case for most fallback ids.
- The fallback id is documented as having its top bit set. For four hash values it has not.
- The header of the rotation module promises that no data is lost, and the stamp is called
  unique per rotation.
- Ping handling before authentication is documented as answering every ping; it answers one
  per read.

## Model

| member | source | states |
|---|---|---|
| `TicketIdProtocol.BlockIdsExact` | src/services/ticket_id_service.rs:111-220 | Over every disciplined run of any number of interleaved calls, with any order of prefetches, failures and fallbacks: no block id is issued twice, none of a replaced block is skipped, and every prefix came from the sequence |
| `TicketIdProtocol.BlockTicketsDistinct` | src/services/ticket_id_service.rs:111-187 | The numbers handed to callers in such a run are pairwise distinct as long as they fit 64 bits |
| `TicketIdProtocol.NextKeepsInv` | src/services/ticket_id_service.rs:118-186 | Every single load, store, bump, fetch and compare-exchange keeps the invariant, if the step is disciplined |
| `TicketIdProtocol.RunKeepsInv` | src/services/ticket_id_service.rs:111-220 | So does every disciplined run from any state that satisfies it |
| `TicketIdProtocol.EachPartIsNeeded` | src/services/ticket_id_service.rs:111-187 | For each of the three parts of the discipline there is a run from the initial state that keeps the other two at every step and issues an id twice |
| `TicketIdProtocol.StaleLoadRepeats` | src/services/ticket_id_service.rs:143-158 | A counter reset between another call's prefix load and its bump makes that bump repeat an id if and only if a block has more than one id |
| `TicketIdProtocol.InitWindowRepeats` | src/services/ticket_id_service.rs:129-130 | A bump between the two stores of the initialisation always repeats an id |
| `TicketIdProtocol.DoubleRolloverRepeats` | src/services/ticket_id_service.rs:146-169 | Two calls that roll over together on a prefetched prefix both issue its first id |
| `TicketIdProtocol.TwoTaskTrace` | src/services/ticket_id_service.rs:118-143 | Such a run for bumps outside the initialisation: two tasks, both return block id (7, 1) |
| `TicketIdProtocol.TwoInitialisations` | src/services/ticket_id_service.rs:121-134 | Such a run for exclusive initialisation: two tasks initialise together, and no bump falls inside |
| `TicketIdProtocol.ResetOverStaleLoad` | src/services/ticket_id_service.rs:143-159 | Such a run for counter resets: a reset finds a call that has loaded the former prefix |
| `TicketIdProtocol.TwoRollovers` | src/services/ticket_id_service.rs:146-169 | A run from the initial state in which two calls roll over on one prefetched prefix and issue an id twice |
| `TicketIdProtocol.OnePrefetchPerBlock` | src/services/ticket_id_service.rs:190-208 | Over every run, disciplined or not, the prefetches exceed the completed rollovers by at most one |
| `TicketIdProtocol.RunsConcat` | src/services/ticket_id_service.rs:111-187 | Runs compose: running one after the other is one run, disciplined if both are |
| `TicketIdService.TicketIdService.GetNextTicketIdOnce` | src/services/ticket_id_service.rs:111-187 | A call on its own is a disciplined run of the step machine; it returns the number of the next suffix of the block, or of the first of the prefetched or fetched block, never issued before; exactly when no block is to be had, the hash with top bit set and last digit 2, with a 1 appended if that fits; and never zero |
| `TicketIdService.TicketIdService.Combine` | src/services/ticket_id_service.rs:160-186 | The ticket of a block id: the low 64 bits of prefix times multiplier plus suffix, with a 1 appended if that fits |
| `TicketIdService.TicketIdService.NextBlockId` | src/services/ticket_id_service.rs:118-170 | Prefix and suffix of the next id, which become those of the service: the next suffix, or 1 of the prefetched prefix, else of the fetched one; none exactly when a new prefix was needed and there was none |
| `TicketIdService.TicketIdService.WaitOrFetchNextPrefix` | src/services/ticket_id_service.rs:211-220 | Polls up to 50 times, then asks the sequence; returns the prefetched prefix if there is one |
| `TicketIdService.TicketIdService.MaybeTriggerPrefetch` | src/services/ticket_id_service.rs:190-208 | Asks for a prefix exactly when the suffix has reached the threshold and none was asked for in this block; sets the flag, and the next prefix only if the sequence answered |
| `TicketIdService.TicketIdService.InstallPrefix` | src/services/ticket_id_service.rs:156-157 | First half of the rollover, tied to two machine steps |
| `TicketIdService.TicketIdService.ResetCounter` | src/services/ticket_id_service.rs:158-159 | Second half of the rollover; issues the first id of the new block |
| `TicketIdService.TicketIdService.InstallFirst` | src/services/ticket_id_service.rs:129-130 | The two stores of the initialisation; issues the first id of the first block |
| `TicketIdService.TicketIdService.Bump` | src/services/ticket_id_service.rs:143-146 | The counter bump issues the next id of the block, or starts the rollover |
| `TicketIdService.TicketNonZero` | src/services/ticket_id_service.rs:113-117 | No block ticket is zero, with or without overflow |
| `TicketIdFormat.MultiplierBounds` | src/constants.rs:307-311 | For every suffix maximum the multiplier exceeds it and is at most ten times as large |
| `TicketIdFormat.MultiplierIsPower` | src/constants.rs:307-311 | It is the one power of ten in that range |
| `TicketIdFormat.TicketInPlain` | src/services/ticket_id_service.rs:113-117 | A block ticket in plain numbers, overflow of product and digit included |
| `TicketIdFormat.TicketRecoversBlock` | src/services/ticket_id_service.rs:113-117 | Prefix and suffix come back from a ticket by division and remainder |
| `TicketIdFormat.TicketInjective` | src/services/ticket_id_service.rs:173-186 | Two tickets that fit are equal if and only if prefix and suffix are |
| `TicketIdFormat.AppendCollidesIff` | src/services/ticket_id_service.rs:113-117 | Exactly when appending the digit makes two distinct ids equal: one overflows and is the other with a 1 appended |
| `TicketIdFormat.OverflowedTicketsCollide` | src/services/ticket_id_service.rs:113-117 | Two block ids for which that happens |
| `TicketIdFormat.LocalIdSign` | src/utils/ticket_id.rs:17-25 | Fixing the last digit clears the top bit for exactly the hashes 0, 1, 2^63 and 2^63 + 1; every other fallback id is negative |
| `TicketIdFormat.LocalIdKeepsHash` | src/utils/ticket_id.rs:17-25 | Read as unsigned, the fallback id has the digits of the hash with its top bit set, but for the last, which is 2 |
| `TicketIdFormat.LocalIdSameIff` | src/utils/ticket_id.rs:17-25 | Two fallback ids are equal if and only if the hashes, with the top bit set, agree up to the last digit |
| `TicketIdFormat.FallbackNonZero` | src/utils/ticket_id.rs:17-25 | For every hash the fallback id is not zero, before and after the digit is appended |
| `TicketIdFormat.FallbackNeverCollides` | src/utils/ticket_id.rs:17-25 | For every hash, with or without the digit, it equals no block ticket that fits |
| `TcdSync.TcdService.SaveTcdList` | src/services/transport_trans_stage_tcd_service.rs:121-199 | With every statement free to fail, with or without taking effect: it succeeds if and only if no statement but a delete of a single row reports an error; success leaves the complete result minus the deletes that had no effect, failure a partial install |
| `TcdSync.TcdService.UpdateOrInsert` | src/services/transport_trans_stage_tcd_service.rs:153-179 | Updates or inserts the wanted entries in any order and stops at the first statement that reports an error |
| `TcdSync.TcdService.DeleteStale` | src/services/transport_trans_stage_tcd_service.rs:182-197 | Deletes the rows whose key is not wanted; a failing delete is only noted |
| `TcdSync.TcdService.Collect` | src/services/transport_trans_stage_tcd_service.rs:130-140 | Collecting by key keeps the last entry per key |
| `TcdSync.TcdService.FindByTrans` | src/db/repositories/transport_trans_stage_tcd.rs:92-131 | Returns the rows of the transaction in ascending order of their ids, or fails |
| `TcdSync.TcdService.Insert` | src/db/repositories/transport_trans_stage_tcd.rs:283-313 | Takes an id from the sequence when the entry has none and never overwrites a row |
| `TcdSync.SelectionGivesIndex` | src/services/transport_trans_stage_tcd_service.rs:143-146 | Collecting the query answer maps every key to its row with the greatest id |
| `TcdLaws.LastWinsIsLast` | src/services/transport_trans_stage_tcd_service.rs:130-140 | The fold keeps exactly the last entry of every key that occurs |
| `TcdLaws.SaveLeavesLastEntries` | src/services/transport_trans_stage_tcd_service.rs:10-199 | By the two toll columns, a missing one counting as 0: from at most one row per pair, a save without failures leaves exactly one row per pair in the list, with the contents of its last such entry, no other row, and other transactions as they were |
| `TcdLaws.AbortLeavesRows` | src/services/transport_trans_stage_tcd_service.rs:152-179 | By the columns: a failed save loses no row, keeps the transaction and tolls of each, and every row is as before or holds the last entry of the list with its tolls |
| `TcdLaws.AbortDeletesNothing` | src/services/transport_trans_stage_tcd_service.rs:152-179 | A call that fails at an update or insert deletes no row, adds no second row for a key and leaves other transactions alone |
| `TcdLaws.CompletedKeepsIds` | src/services/transport_trans_stage_tcd_service.rs:153-199 | After success rows with a wanted key keep their ids and other transactions are unchanged |
| `TcdLaws.CompletedExactIff` | src/services/transport_trans_stage_tcd_service.rs:121-199 | Success means exactly one row per key of the last-wins fold, with its contents, if and only if the rows were one per key before and every stale delete took effect (always, for an empty list) |
| `TcdLaws.DuplicateSurvives` | src/services/transport_trans_stage_tcd_service.rs:143-146 | If two rows share a key beforehand the table is not exact afterwards |
| `TcdLaws.AttemptsKeepRows` | src/services/transport_trans_stage_tcd_service.rs:152-179 | Over any number of failed attempts every row keeps its id, transaction and key |
| `TcdLaws.RetriesConverge` | src/services/transport_trans_stage_tcd_service.rs:121-199 | After any number of failed attempts a successful one reaches the same key-to-contents table as a failure-free first call |
| `TcdLaws.RerunChangesNothing` | src/services/transport_trans_stage_tcd_service.rs:121-199 | One more call with the same list changes nothing |
| `StreamFramer.DrainLeavesResidue` | src/network/connection.rs:523-617 | For arbitrary bytes a successful pass leaves a suffix that is shorter than four bytes or the beginning of one in-range frame; a failed one leaves nothing |
| `StreamFramer.ResidueIsStable` | src/network/connection.rs:164-183 | Parsing such a rest again changes nothing |
| `StreamFramer.FrameIsTaken` | src/network/connection.rs:547-617 | A header of four bytes, lowest first, that counts itself and at most 262144 bytes takes exactly its payload off the front |
| `StreamFramer.PartOfFrameWaits` | src/network/connection.rs:592-600 | A frame that is not complete stays in the buffer |
| `StreamFramer.PingIsTaken` | src/network/connection.rs:496-545 | Four letters that spell "ping" in any case are taken off the front |
| `StreamFramer.BadHeaderIsSkipped` | src/network/connection.rs:566-591 | Any other header costs one byte, and the third in a row the connection |
| `StreamFramer.DrainAppend` | src/network/connection.rs:523-617 | Parsing a + b is parsing a and then its rest + b, with the error count carried over |
| `StreamFramer.FewerErrors` | src/network/connection.rs:574-590 | Starting with fewer errors does not change a pass that succeeds |
| `StreamFramer.FeedAgrees` | src/network/connection.rs:162-213 | If the whole stream parses in one pass, every way of cutting it into reads has the same effect |
| `StreamFramer.OneByteNeverFails` | src/network/connection.rs:566-591 | A rest with one more byte never reaches the error limit |
| `StreamFramer.ByteWiseNeverFails` | src/network/connection.rs:566-591 | A stream that arrives byte by byte is never given up, whatever it holds |
| `StreamFramer.ChunkingIndependentIff` | src/network/connection.rs:521-591 | For arbitrary bytes: the outcome is independent of the reads if and only if a single read would not reach the error limit |
| `StreamFramer.ZerosDependOnReads` | src/network/connection.rs:566-591 | Six zero bytes are given up in one read and not when they arrive byte by byte |
| `StreamFramer.WrapEncryptedReply` | src/utils/helpers.rs:71-77 | The header is the total length modulo 2^32, lowest byte first, the rest the encrypted bytes |
| `StreamFramer.HeaderIsNoPing` | src/network/connection.rs:496-502 | No in-range header reads as "ping" in any letter case |
| `StreamFramer.ValidStreamRoundTrip` | src/network/connection.rs:523-617 | However the encoding of any list of frames and pings is cut into reads, exactly their payloads and pongs come out, in order, and no byte is left |
| `StreamFramer.ServeAgrees` | src/network/connection.rs:72-110 | Before authentication nothing is lost or reordered: answered events and those still in the buffer make up the stream |
| `StreamFramer.BackToBackPingsWait` | src/network/connection.rs:79-93 | Two pings in one read get one pong before authentication, in two reads two |
| `ConnectionLoop.Connection.ProcessMessageBuffer` | src/network/connection.rs:505-818 | The loop terminates and, unless a send finds the channel closed, performs exactly the actions of the reference parser and leaves its rest; it stops early if and only if that happens |
| `ConnectionLoop.Connection.TakeAndRespond` | src/network/connection.rs:523-617 | One round: an event is taken and answered, a byte skipped, or the pass is over |
| `ConnectionLoop.Connection.TakeEvent` | src/network/connection.rs:524-617 | One round consumes at least a byte, waits for more or gives up, as the reference parser does |
| `ConnectionLoop.Connection.Decrypt` | src/network/connection.rs:625-692 | Tries the resolved key, or the candidates in order; registers the first that decrypts and forgets the candidates |
| `ConnectionLoop.Connection.Respond` | src/network/connection.rs:531-544 | One event, one action; keys of other connections are untouched |
| `ConnectionLoop.FirstKey` | src/network/connection.rs:651-671 | The first candidate that decrypts; none if and only if no candidate does |
| `ConnectionLoop.PayloadIsAnswered` | src/network/connection.rs:625-692 | What happens to one payload: the resolved key stays or the first candidate that decrypts becomes it, and a decryption of at least eight bytes under it is handed over |
| `ConnectionLoop.KeysStayOk` | src/network/connection.rs:625-671 | A key is resolved if and only if the candidates are spent, the shared map then holds it, and it never changes |
| `ConnectionLoop.ResolvedKeyIsFirst` | src/network/connection.rs:648-671 | The resolved key is the first candidate that decrypts the first payload that any candidate decrypts |
| `ConnectionLoop.OneKeyPerConnection` | src/network/connection.rs:625-692 | All requests of a connection are decrypted under one key, the registered one |
| `ConnectionLoop.ActAllAppend` | src/network/connection.rs:523-617 | Acting on two lists of events in turn is acting on both together |
| `ConnectionLoop.ItemsAreAnswered` | src/network/connection.rs:505-692 | Encoded items, cut into any reads, get one answer each, in order: a ping a pong, a frame its decryption under the one key of the connection, or a refusal if that key or a decryption is missing |
| `TollLaneCache.TollLaneCache.Put` | src/models/TollCache.rs:480-517 | At most the maximum stays, exactly the excess goes, no removed entry was used later than a survivor, and evictions grows by that number |
| `TollLaneCache.TollLaneCache.EvictIfNeeded` | src/models/TollCache.rs:699-735 | Removes the excess, oldest access first, from map and index |
| `TollLaneCache.TollLaneCache.Get` | src/models/TollCache.rs:520-542 | Returns an unexpired lane and marks it used; an expired one leaves the map but not the index |
| `TollLaneCache.TollLaneCache.GetByTollId` | src/models/TollCache.rs:546-590 | Answers from the index and removes what it finds expired |
| `TollLaneCache.HitsKeep` | src/models/TollCache.rs:546-590 | The answer holds the lane of every unexpired id of the index list, in its order and with repetitions, and no other |
| `TollLaneCache.TollLaneCache.Remove` | src/models/TollCache.rs:593-613 | Removes an entry and its index ids |
| `TollLaneCache.PushAtEnd` | src/models/TollCache.rs:498-504 | A put appends the id to the list of its toll and leaves the other lists alone |
| `TollLaneCache.RetainKeeps` | src/models/TollCache.rs:600-609 | Taking an id out of a list keeps the others, in order and as often as they were there |
| `TollLaneCache.TollLaneCache.CleanupExpired` | src/models/TollCache.rs:616-650 | Removes exactly the expired entries and counts them |
| `TollLaneCache.TollLaneCache.ReplaceAll` | src/models/TollCache.rs:674-696 | Exactly the listed lanes, each id with its last lane and a fresh entry; each toll lists the ids of its lanes in the order of the list, and no other toll is listed |
| `TollLaneCache.PutIsStep` | src/models/TollCache.rs:480-517 | What a put promises is a step of the runs below, whatever it evicts |
| `Lru.SortIsByAccess` | src/models/TollCache.rs:708-714 | Sorting by last access orders the entries |
| `Lru.FirstAreOldest` | src/models/TollCache.rs:437-444 | None of the first entries of that order was used later than an entry outside them |
| `TollCache.TollCache.Put` | src/models/TollCache.rs:231-261 | The toll is stored, at most the maximum stays, exactly the excess goes, no removed entry was used later than a survivor; counters follow |
| `TollCache.TollCache.EvictIfNeeded` | src/models/TollCache.rs:424-448 | Removes exactly the excess, oldest access first |
| `TollCache.TollCache.Get` | src/models/TollCache.rs:264-286 | Returns an unexpired toll and marks it used, removes an expired one |
| `TollCache.TollCache.GetByCode` | src/models/TollCache.rs:289-306 | Some unexpired toll with the code, if and only if there is one; it alone is marked |
| `TollCache.TollCache.GetAll` | src/models/TollCache.rs:309-339 | Every unexpired toll once; these are marked, the others removed |
| `TollCache.TollCache.CleanupExpired` | src/models/TollCache.rs:355-380 | Removes exactly the expired entries and counts them |
| `TollCache.TollCache.ReplaceAll` | src/models/TollCache.rs:402-421 | Exactly the listed tolls, each id with its last toll and a fresh entry |
| `TollLaneLaws.RunKeepsMaps` | src/models/TollCache.rs:480-696 | In every state of every run no entry is missing from the index, and lanes with one toll id are listed under no other |
| `TollLaneLaws.LookupMissesNothing` | src/models/TollCache.rs:546-590 | No unexpired entry of a toll is missing from its lookup |
| `TollLaneLaws.LookupExactIff` | src/models/TollCache.rs:546-590 | A lookup is the plain filter of the map if and only if no id listed under the toll belongs to an unexpired entry of another |
| `TollLaneLaws.ReachableLookupExact` | src/models/TollCache.rs:480-735 | If every lane keeps its toll, every lookup in every reachable state is the plain filter, despite duplicate and stale index ids |
| `TollLaneLaws.MovedLaneIsForeign` | src/models/TollCache.rs:498-504 | A lane put again under another toll shows up under the old one, too |
| `LeaderLock.AtMostOneLeader` | src/services/kafka_consumer_service.rs:577-620 | If no renewal comes after its lease has run out, every reachable state has at most one live leader, and the stored owner is that pod |
| `LeaderLock.PollOutcome` | src/cache/config/keydb.rs:303-348 | A poll takes a free lock for one lease unless it is refused; the pod leads if it hears so, and otherwise sleeps 10 s |
| `LeaderLock.RenewOutcome` | src/services/kafka_consumer_service.rs:596-608 | A renewal takes the lock from whoever holds it, unless it is refused, and the next tick is half a lease later |
| `LeaderLock.NextKeepsInv` | src/services/kafka_consumer_service.rs:583-619 | Every step from a state in which no leader has lapsed keeps that |
| `LeaderLock.SecondLeaderIff` | src/cache/config/keydb.rs:303-348 | A due poll makes a second leader if and only if the lease of the first has run out; the unconditional renewal of the first then takes the lock back |
| `LeaderLock.PromptRunsAreSafe` | src/services/kafka_consumer_service.rs:597-606 | If ticks are served within a delay and the lease outlasts the missed renewals, no run lapses |
| `LeaderLock.OneMissLapsesIff` | src/services/kafka_consumer_service.rs:597-598 | One renewal without effect lets the lease run out if and only if the lease time is even or ticks are late |
| `LeaderLock.OneMissMakesTwoLeaders` | src/services/kafka_consumer_service.rs:577-620 | A run from the beginning with the default lease of 60 s, every tick on time and one renewal without effect, after which two pods lead |
| `LeaderLock.FailoverBound` | src/services/kafka_consumer_service.rs:583-619 | From any state without a leader the lock is free within one lease, and as long as one waiting pod keeps polling, somebody has led after one lease and 10 s, plus one lease and 10 s for every poll that took the lock and lost its answer, plus 10 s for every refused poll of that pod |
| `LeaderLock.LeaderStays` | src/services/kafka_consumer_service.rs:596-608 | Whoever leads goes on leading until it crashes |
| `LeaderLock.CrashLeavesNoLeader` | src/services/kafka_consumer_service.rs:596-608 | The crash of the leader leaves such a state |
| `DbRetry.NoSessionLost` | src/cache/data/db_retry.rs:79-356 | Under any interleaving of enqueues, flushes and retries, with distinct session ids, every enqueued session is in KeyDB, in the buffer or on its way there, in a flush, in the database or was dropped; the buffer holds at most 500 |
| `DbRetry.DropsOnlyWhenFull` | src/cache/data/db_retry.rs:94-98 | A session is dropped only by a buffer of 500: the oldest, or one that comes back from a failed flush |
| `DbRetry.SameIdReplaces` | src/cache/data/db_retry.rs:79-88 | Without distinct ids a session can vanish |
| `DbRetry.ReAddFills` | src/cache/data/db_retry.rs:230-238 | A failed chunk goes back in order as far as there is room |
| `DbRetry.NewestStay` | src/cache/data/db_retry.rs:94-98 | However many sessions are pushed, the buffer holds the last 500 that came, oldest first |
| `DbRetry.FlushesStoreAll` | src/cache/data/db_retry.rs:214-240 | While KeyDB answers, one flush per 50 sessions brings all that were taken into KeyDB and leaves its other keys alone |
| `DbRetry.BufferReachesKeyDB` | src/cache/data/db_retry.rs:209-240 | Such a flush empties the buffer into KeyDB |
| `DbRetry.RetrySucceeds` | src/cache/data/db_retry.rs:320-356 | A session that is read, inserted and removed is in the database and no longer in KeyDB |
| `DbRetry.PutBackFills` | src/cache/data/db_retry.rs:252-284 | An entry that does not come back meets a full buffer |
| `DbRetry.PutBackOverwrites` | src/cache/data/db_retry.rs:252-284 | Entries that come back remove no key, replace what was enqueued meanwhile and are all kept if they fit |
| `DbRetry.RetryBuffer.PushSession` | src/cache/data/db_retry.rs:94-98 | The bounded push; all bounds kept |
| `DbRetry.RetryBuffer.PutConnServer` | src/cache/data/db_retry.rs:133-140 | A new key in a full buffer of 200 replaces exactly one other |
| `DbRetry.RetryBuffer.PutUser` | src/cache/data/db_retry.rs:172-179 | The same for users |
| `DbRetry.RetryBuffer.ReAddSessions` | src/cache/data/db_retry.rs:230-238 | Puts a failed chunk back; the bound is kept |
| `DbRetry.RetryBuffer.ReAddConnServers` | src/cache/data/db_retry.rs:252-261 | Puts failed entries back; the bound is kept |
| `DbRetry.RetryBuffer.ReAddUsers` | src/cache/data/db_retry.rs:275-284 | Puts failed entries back; the bound is kept |
| `CacheKeys.GenKey` | src/cache/config/cache_manager.rs:83-93 | Builds the prefix and the parts, each after a colon |
| `CacheKeys.KeyOfThree` | src/cache/config/cache_manager.rs:83-93 | What a key of three parts looks like |
| `CacheKeys.PrefixFree` | src/cache/config/cache_prefix.rs:41-62 | No prefix of the table begins another |
| `CacheKeys.KeyHasOnePrefix` | src/cache/config/cache_prefix.rs:41-62 | A generated key begins with its own prefix and no other |
| `CacheKeys.SplitKey` | src/cache/config/cache_manager.rs:83-93 | Splitting a generated key gives its prefix and parts back, if only the last part holds colons |
| `CacheKeys.KeyInjective` | src/cache/config/cache_manager.rs:83-93 | Such keys are equal if and only if prefix and parts are |
| `CacheKeys.ColonsCollide` | src/cache/config/cache_manager.rs:83-93 | With a colon in another part two keys can be equal |
| `CacheReload.CacheManager.Get` | src/cache/config/cache_manager.rs:27-44 | Answers what KeyDB holds and fills the in-process store with it |
| `CacheReload.CacheManager.Set` | src/cache/config/cache_manager.rs:47-53 | Writes both stores |
| `CacheReload.CacheManager.Remove` | src/cache/config/cache_manager.rs:64-67 | Removes from both stores |
| `CacheReload.CacheManager.MokaKeysCapped` | src/cache/config/moka_cache.rs:119-136 | Distinct in-process keys under the prefix, as many as there are or the bound, but at least one |
| `CacheReload.CacheManager.GetKeysWithPrefix` | src/cache/config/cache_manager.rs:96-110 | Exactly KeyDB's keys under the prefix: the in-process bound hides none |
| `CacheReload.CacheManager.AtomicReloadPrefix` | src/cache/config/cache_manager.rs:146-199 | Both stores get the new data, last pair per key, and lose min(stale, 5000) stale keys; they stay coherent |
| `CacheReload.ReloadInPlain` | src/cache/config/cache_manager.rs:146-199 | Key by key: both stores hold the new data, of the keys under the prefix without data 5000 are gone or all, and every other key is as it was |
| `CacheReload.CacheManager.RemovePrefix` | src/cache/config/cache_manager.rs:69-73 | KeyDB loses the whole prefix, the in-process store at most the bound |
| `CacheReloadLaws.ReloadShrinksStale` | src/cache/config/cache_manager.rs:146-199 | One reload installs every new value, shrinks the stale keys by min(stale, 5000) and changes nothing outside the prefix but the new data |
| `CacheReloadLaws.ReloadSparesOthers` | src/cache/config/cache_manager.rs:146-199 | No key of any other prefix changes in either store |
| `CacheReloadLaws.StaleAfter` | src/cache/config/cache_manager.rs:166-199 | After n reloads max(0, stale - 5000 n) stale keys are left |
| `CacheReloadLaws.ReloadsConvergeIff` | src/cache/config/cache_manager.rs:146-199 | n reloads leave under the prefix exactly the new keys, in both stores, if and only if 5000 n covers the stale keys of the first state |
| `CacheInterleaving.OriginIsLastIff` | src/cache/config/cache_manager.rs:27-199 | In every run of any number of interleaved calls, whose steps are single store calls: the value in process of a key that no call is in the middle of stems from the last write in KeyDB if and only if that writer and the call that put the value in process did not access the two stores in opposite orders |
| `CacheInterleaving.QuietCoherentIff` | src/cache/config/cache_manager.rs:27-199 | So, when different calls store different values, such a key agrees with KeyDB if and only if those two calls did not access the stores in opposite orders |
| `CacheInterleaving.SeparateCallsKeepCoherent` | src/cache/config/cache_manager.rs:27-199 | If no two calls overlap on a key, what is cached of it in process is what KeyDB holds whenever no call is in the middle of it; calls may overlap on all other keys |
| `CacheInterleaving.RunKeepsKeys` | src/cache/config/cache_manager.rs:27-199 | Every store call keeps the invariant of every key, for every interleaving |
| `CacheOverlaps.ReloadInstalls` | src/cache/config/cache_manager.rs:146-163 | The steps of a reload that nobody interrupts, up to its listing, put its data in both stores and change no other key |
| `CacheOverlaps.ReloadRemoves` | src/cache/config/cache_manager.rs:166-199 | Its other steps take the picked keys out of both stores and change no other key |
| `CacheOverlaps.OverlappingWrites` | src/cache/config/cache_manager.rs:47-67 | Two writes or removals of a key leave it apart only if one lies inside the other and the inner one sets a value that the outer one does not |
| `CacheOverlaps.LookupAcrossWrite` | src/cache/config/cache_manager.rs:27-67 | Of the six orders of a lookup's read and fill with the two halves of a write, the two without overlap are harmless; each of the other four leaves the key apart if and only if KeyDB held another value than the one written (a lookup that finds nothing fills nothing) |
| `CacheOverlaps.SetInsideReload` | src/cache/config/cache_manager.rs:178-183 | A run that ends with no call under way: a reload finds no data and one key under its prefix, a value set between the two halves of its removal stays in process and is gone from KeyDB |
| `CacheConvergence.OldKeysBounded` | src/cache/config/cache_manager.rs:146-199 | Over every run, with any other calls in between: after r reloads of the same keys in turn, the old keys left in KeyDB are at most those of the first state less 5000 r, plus the picked keys that KeyDB did not hold, plus the old keys that came in meanwhile |
| `CacheOverlaps.RemovedBeforeFill` | src/cache/config/cache_manager.rs:36-67 | Such a run with a removal between the read and the fill of a lookup |
| `CacheOverlaps.SetInsideSet` | src/cache/config/cache_manager.rs:47-53 | Such a run with one set inside another: the stores keep different values |
| `CacheReloadLaws.RemovePrefixIff` | src/cache/config/cache_manager.rs:69-73 | Removing a prefix keeps the stores coherent if and only if the in-process keys under it do not exceed the bound |
| `Collections.FromPairsIsLast` | src/cache/data/price_cache.rs:28-28 | Collecting pairs into a hash map keeps exactly the last pair of every key |
| `LogRotation.DailyRotatingFileWriter.SanitizeAndWrite` | src/logging/common.rs:57-80 | Appends the sanitised bytes, in one piece or byte by byte |
| `LogRotation.DailyRotatingFileWriter.EnsureFileForToday` | src/logging/daily_rotating_writer.rs:114-143 | Opens the file of the day, after flushing the one before |
| `LogRotation.DailyRotatingFileWriter.RotateBySizeIfNeeded` | src/logging/daily_rotating_writer.rs:75-112 | Copies a file that has reached the limit to its stamped name and empties it |
| `LogRotation.DailyRotatingFileWriter.Write` | src/logging/daily_rotating_writer.rs:164-194 | One step of the writer on files, buffer and counter; accepts the whole buffer |
| `LogRotation.SanitizedAppend` | src/logging/common.rs:57-80 | Sanitising is a homomorphism: it does not matter how the bytes are cut into writes |
| `LogRotation.SanitizedByte` | src/logging/common.rs:57-80 | Byte by byte: NUL becomes a backslash and a zero digit, other control characters but tab, line feed and carriage return a dot |
| `LogRotation.FlushAppends` | src/logging/daily_rotating_writer.rs:180-187 | A flush appends the sanitised buffer to the file of the day and empties it |
| `LogRotation.DayBegins` | src/logging/daily_rotating_writer.rs:114-143 | On another day the open file is flushed and that day's file opened at its end |
| `LogRotation.FullFileMoves` | src/logging/daily_rotating_writer.rs:75-112 | A file that has reached the limit goes to the stamped name and starts again |
| `LogRotation.SanitizedIsClean` | src/logging/common.rs:51-80 | Sanitised bytes hold no bad byte and are at most twice as many |
| `LogRotation.SanitizedSameIff` | src/logging/common.rs:51-61 | Sanitising changes nothing if and only if there is no bad byte |
| `LogRotation.PathsDiffer` | src/logging/daily_rotating_writer.rs:69-91 | Paths of days and of rotations never clash unless day and stamp are the same |
| `LogRotationLaws.RotatedKeeps` | src/logging/daily_rotating_writer.rs:75-112 | A rotation to a new name only moves bytes |
| `LogRotationLaws.NoBytesLost` | src/logging/daily_rotating_writer.rs:75-194 | Over any run whose rotations all meet new names: rotated files in order, then the current file, then the sanitised buffer are, byte for byte, what was there before and the sanitised writes of that day |
| `LogRotationLaws.StepSize` | src/logging/daily_rotating_writer.rs:164-194 | Every write adds its sanitised size and takes away only what a rotation writes over |
| `LogRotationLaws.AllBytesKeptIff` | src/logging/daily_rotating_writer.rs:88-101 | A run keeps every byte if and only if no rotation writes over a file with content |
| `LogRotationLaws.WriteFlushes` | src/logging/daily_rotating_writer.rs:164-194 | When 64 KiB have come together since the last flush of the day's file nothing stays in the buffer, otherwise the count goes on |
| `LogRotationLaws.RotatesIff` | src/logging/daily_rotating_writer.rs:75-194 | A write rotates if and only if it fills the 64 KiB and the day's file, with buffer and write, reaches the limit |
| `LogRotationLaws.BufferHolds` | src/logging/daily_rotating_writer.rs:169-178 | The buffer holds writes below its capacity, the last alone if it no longer fits behind the others |
| `LogRotationLaws.OpenFileBounded` | src/logging/daily_rotating_writer.rs:181-192 | With rotation on, over any run the open file stays below its limit plus 128 KiB, if every file is opened below the limit |
| `LogRotationLaws.LargeWriteRotates` | src/logging/daily_rotating_writer.rs:164-194 | A write as large as the limit and the flush interval rotates at once, and the rotated file holds it |
| `LogRotationLaws.SameStampLosesBytes` | src/logging/daily_rotating_writer.rs:75-112 | Two such writes with one stamp: the second rotation writes over the bytes of the first |
| `Decimals.ParsePrint` | src/cache/data/closed_cycle_transition_stage_cache.rs:163-164 | Every 64-bit integer, printed and parsed, is the same integer |
| `Decimals.PrintDigits` | src/cache/data/closed_cycle_transition_stage_cache.rs:163-164 | Decimal notation: last digit the remainder by ten, before it the quotient, a minus in front of a negative number |
| `Decimals.ParseRefuses` | src/cache/data/closed_cycle_transition_stage_cache.rs:163-164 | No sign alone, no other characters than digits after the first, nothing out of 64 bits is read as a number |
| `Decimals.PrintInjective` | src/cache/config/cache_manager.rs:83-93 | Two 64-bit integers print alike only if they are equal |
| `SegmentCache.SegmentKey` | src/cache/data/closed_cycle_transition_stage_cache.rs:27-33 | The pair in ascending order |
| `SegmentCache.LoadSegments` | src/cache/data/closed_cycle_transition_stage_cache.rs:193-218 | Groups the rows by unordered pair, transitions in the order of the rows |
| `SegmentCache.RowAddsTransition` | src/cache/data/closed_cycle_transition_stage_cache.rs:193-218 | A row adds its transition to the segment of its two tolls, in either order, and to no other |
| `SegmentCache.DecodeStageKey` | src/cache/data/closed_cycle_transition_stage_cache.rs:119-165 | For all pairs of 64-bit tolls, what the fallback reads out of a generated key is the pair it was made for |
| `SegmentCache.KeyIsRead` | src/cache/data/closed_cycle_transition_stage_cache.rs:158-172 | A key is read exactly if numbers follow its first and its second colon; any other is skipped |
| `SegmentCache.StageKeyExample` | src/cache/config/cache_manager.rs:83-93 | What the key of a segment looks like |
| `SegmentCache.RebuildFromKeyDB` | src/cache/data/closed_cycle_transition_stage_cache.rs:158-172 | Collects the listed keys that can be read |
| `SegmentCache.SegmentMemory.LoadFromKeyDB` | src/cache/data/closed_cycle_transition_stage_cache.rs:151-172 | Memory becomes what was rebuilt; an empty listing leaves it as it is |
| `SegmentCache.FallbackExactIff` | src/cache/data/closed_cycle_transition_stage_cache.rs:117-172 | From a listing that has the load's own keys, the fallback rebuilds exactly its segments if and only if every listed key is one of them |
| `SegmentReload.FallbackAfterReloads` | src/cache/data/closed_cycle_transition_stage_cache.rs:117-172 | After n reloads of what the database held, the fallback rebuilds exactly that if and only if at most 5000 n keys were stale before the first |
| `SegmentReload.CapLeavesASegment` | src/cache/data/closed_cycle_transition_stage_cache.rs:117-172 | For every encoding of lists, a run from 5001 old segments in KeyDB through a load that finds none, with the listing that the fallback reads and the one segment it rebuilds |
| `SegmentCache.LoadSegment` | src/cache/data/closed_cycle_transition_stage_cache.rs:373-417 | The query for one segment finds the rows of both directions |
| `SegmentCache.SegmentMemory.GetSegmentsForLeg` | src/cache/data/closed_cycle_transition_stage_cache.rs:321-371 | Answers what memory holds for either direction, whether or not the query would fail, else what the table holds, and remembers it; memory stays faithful to the table |
| `SegmentCache.SegmentMemory.LookupsSymmetric` | src/cache/data/closed_cycle_transition_stage_cache.rs:54-83 | Segment, stage and cycle lookups are symmetric in the two tolls |
| `SegmentCache.SegmentMemory.StageId` | src/cache/data/closed_cycle_transition_stage_cache.rs:54-83 | The first transition of the segment, if it has one |
| `SegmentCache.SegmentMemory.CycleId` | src/cache/data/closed_cycle_transition_stage_cache.rs:54-83 | The cycle of that stage, if it has one |
| `PriceOrder.StableSortSorts` | src/cache/data/price_cache.rs:74-90 | The stable sort orders the rows by tolls, vehicle type and date |
| `PriceOrder.TextLeTotal` | src/cache/data/price_cache.rs:85-89 | Texts are totally ordered |
| `PriceOrder.TextLeIff` | src/cache/data/price_cache.rs:85-89 | A text comes before another if it begins it, or has the smaller character where they first differ |
| `PriceCache.CacheKeySameIff` | src/cache/data/price_cache.rs:91-114 | The cache key tells rows apart by tolls and vehicle type, except that none is spelled like one named "None" |
| `PriceCache.SortedLastIsWinner` | src/cache/data/price_cache.rs:73-114 | Sorting and keeping the last row per key keeps the row that wins when, in query order, a row gives way only to one that is not earlier |
| `PriceCache.LoadedIsWinner` | src/cache/data/price_cache.rs:72-119 | Every key that has a row is loaded, with the row that won |
| `PriceCache.WinnerIsGreatest` | src/cache/data/price_cache.rs:72-90 | The winner is a row of its key and none of that key comes after it in the order |
| `PriceCache.NewestIff` | src/cache/data/price_cache.rs:72-119 | The loaded row has the greatest date among all rows of its key if and only if no row without vehicle type is later than all rows of type "None", if there are any |
| `PriceCache.NamedTypesKeepNewest` | src/cache/data/price_cache.rs:71-90 | For every other vehicle type the loaded row always has the greatest date |
| `PriceCache.PriceKeyIsCacheKey` | src/cache/data/price_cache.rs:91-240 | A lookup asks for the key of exactly the rows with its tolls and vehicle type, "None" standing for a missing one |
| `PriceCache.LoadedPriceIsFound` | src/cache/data/price_cache.rs:69-240 | From the table to the lookup: for a vehicle type by name, what a load puts under the key of a lookup is a row for its tolls and type with the latest date, if there is one |
| `PriceCache.StagesAreOfPrices` | src/cache/data/price_cache.rs:27-43 | Every price has its stage and vehicle type in the stage index, and every entry there is a price of its own |
| `PriceCache.UntypedRowLoses` | src/cache/data/price_cache.rs:74-98 | A later row without vehicle type loses to an older one of type "None" |
| `PriceCache.SameRowEverywhere` | src/cache/data/price_cache.rs:114-119 | After a load memory, the in-process cache and KeyDB hold the same row for every key |
| `PriceCache.LoadedDirected` | src/cache/data/price_cache.rs:91-119 | Every loaded price lies under the key of its own direction |
| `PriceCache.PriceMemory.ReplaceAllPrices` | src/cache/data/price_cache.rs:27-43 | Memory becomes the collected pairs; the stage index gets one price of every stage and vehicle type |
| `PriceCache.PriceMemory.LoadFromDb` | src/cache/data/price_cache.rs:69-119 | A load leaves the winners in memory |
| `PriceCache.PriceMemory.GetPrice` | src/cache/data/price_cache.rs:152-240 | Memory in both directions, then the table in both: the answer runs in the direction asked for, and one from the table is remembered so |
| `Network.ConnectionRouter.Route` | src/network/router.rs:51-69 | A reply finds a sender if and only if its connection is not in the closed set and is active; otherwise it is marked closed |
| `Network.ConnectionIds.Take` | src/network/server.rs:97-100 | Gives out the next id from 1 to 2147483647 and then starts again at 1 |
| `Network.IdsAreFresh` | src/network/server.rs:97-100 | The first 2147483647 connections get distinct ids |
| `Network.CleanKeptIff` | src/network/router.rs:42-69 | A step lets an active connection be on record as closed, or on its way there, if and only if it accepts an id that still is |
| `Network.ClosedSetIsClean` | src/network/router.rs:39-69 | In every reachable state with ids given out once, no active connection is in the closed set or on its way into it |
| `Network.ReplyPassesIffActive` | src/network/router.rs:55-69 | In every such state a reply passes if and only if its connection is active |
| `Network.RouteBySteps` | src/network/router.rs:55-69 | The router's steps for one reply do what its method does |
| `Network.DepartureBySteps` | src/network/server.rs:237-249 | A connection that ends has its sessions removed, leaves the map and is put on record as closed |
| `Network.RemovalsAreLogged` | src/network/session.rs:100-120 | The handshake timeout and the cleanup queue the removals they are for |
| `Network.NoSessionOfFinished` | src/network/server.rs:237-249 | In every reachable state in which a connection's last update has been applied, the session map has no session of it |
| `Network.CleanUpSparesActive` | src/network/session.rs:77-120 | The idle cleanup asks for a removal only when the connection has left the map, and at no later time is that session one of an active connection |
| `Network.LeftForGood` | src/network/server.rs:97-107 | A connection that has left the map never comes back to it while ids are fresh |
| `Sessions.PickIdle` | src/network/session.rs:84-96 | Exactly the sessions that have been idle for longer than the limit, with their connections |
| `Sessions.UpdateProcessor.Process` | src/network/session.rs:13-70 | Case by case: an insert sets its entry, a handshake only the time of a session that is there, a removal takes exactly that session and logs it out, a removal by connection exactly the sessions of it |
| `Sessions.NoSessionAfterRemoval` | src/network/session.rs:50-68 | After the removal by connection, and with no later insert for it, the map never holds a session of it again |
| `Sessions.SessionsWereInserted` | src/network/session.rs:17-30 | Every session in the map was put in by an update for its connection |
| `Sessions.SessionPresentIff` | src/network/session.rs:13-70 | Over every log of updates: the map holds a session for a connection if and only if some update put it in so and none has replaced or removed it since |
| `Sessions.HandshakeKeepsSession` | src/network/session.rs:32-96 | After a handshake the cleanup picks the session only when the limit has passed since |

## Left out

- The database itself (ODBC, pools, SQL text, row mappers): tables are maps whose statements may fail. Rows that cannot be mapped are left out of a query's answer by the program; the models have no such rows.
- AES, SHA-1, XXH3 and UUIDs: decryption is an arbitrary partial function of key and payload, a hash an arbitrary 64-bit number.
- KeyDB's wire protocol, reconnection and JSON: a map whose calls succeed or fail. The two-level cache is modelled with succeeding calls and this process as the only writer; a pipeline is one step.
- CacheReload.CacheManager.Get: one call by itself; overlapping calls are the subject of `CacheInterleaving`.
- CacheReload.CacheManager.Set: one call by itself, likewise.
- CacheReload.CacheManager.Remove: one call by itself, likewise.
- CacheReload.CacheManager.AtomicReloadPrefix: one call by itself, likewise. In `CacheInterleaving` a reload may pick any old keys under its prefix, in one step for both listings (`CacheConvergence` adds that it picks all of KeyDB's up to the bound), and the in-process store may drop a key at any time; `remove` and `remove_prefix` have no caller in the program; the first is among the calls, the second is not.
- Kafka: fetching, offsets, partitions and message envelopes. A leader whose client cannot be built keeps renewing the lock without consuming; store calls that are delayed in transit and a renewal under way when a pod crashes are not modelled either.
- Negative sequence values, and relaxed memory order: the atomics are modelled as sequentially consistent steps, each by itself; runs reorder the steps of different calls, not those within one call.
- Retrying a ticket request up to six times when the id is zero: `FallbackNonZero` and `TicketNonZero` show that it never is.
- TicketIdService.TicketIdService.GetNextTicketIdOnce: proved for a call that no other call interrupts; interleaved calls are the subject of `TicketIdProtocol`.
- The lock that serialises saves per transaction: `TcdSync` assumes that nothing else writes the rows of the transaction during a save.
- TcdLaws.CompletedExactIff: requires that the list belongs to the transaction, as all callers construct it.
- The database steps of the by-key retry queues, whose buffers alone are modelled; and newest-wins for retried writes, which does not hold (a flush can overwrite a newer value).
- DbRetry.NoSessionLost: assumes that KeyDB is registered, distinct session ids, and no writer of these keys but the queue.
- Sending terminate responses, request handlers, and replies dropped by the send limit or timeout. A pong for a connection that has left the connection map is sent by the model and skipped by the program.
- I/O errors of the log writer, after which it closes and re-opens its file, and the deletion of old days. Date and stamp of a write are parameters of the step.
- `src/logging/statistics.rs`, a near copy of the log writer.
- The cycle and toll tables loaded beside the segments, reduced to one map of cycles; and writing a segment or price back to the two-level cache on a miss.
- Network.CleanUpSparesActive: needs session ids that each belong to one connection; when the sequence fails the program uses the connection id instead, so that a clash is possible. The runs let the cleanup pick any session of the map, idle or not; `Sessions.PickIdle` says which it picks.
- The reuse of connection ids after 2147483647 connections beyond its effect on the closed set.
- Fixed-offset message structures, command tables, the IP denylist, configuration, route and fee computation and the checkin, commit and rollback handlers.
