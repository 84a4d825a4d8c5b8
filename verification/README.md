# NimbusDB: a verified model of the storage engine, replication and the control plane

NimbusDB stores each database in a write-ahead log and a file of 4 KB pages, with a memtable and two indexes in memory;
followers copy the leader's log, and a Go control plane provisions databases, places them on nodes, elects leaders, limits
request rates and projects capacity. This project models that logic in Dafny 4.11 and proves what it promises over all
inputs and all runs. `dafny verify dfyconfig.toml` checks everything.

The imperative parts are Dafny classes and loops (`WalManager`, `PageManager`, `StorageEngine`, `ReplicationEngine`,
`Server`, `RateLimiter`, ...). Each state-changing method equates its new state with a specification function of the old one
(`Opened`, `Appended`, `AfterPut`, `ApplyToPages`, `Updated`, ...), and the results below are about those functions and their
runs.

| file | models |
|---|---|
| `Prelude.dfy`, `Bytes.dfy` | options, big-endian coding, UTF-8 validity, writing into a file at an offset |
| `LogFormat.dfy`, `Wal.dfy` | the log's binary format, the scan loop, the log manager and its file cursor |
| `Pages.dfy`, `Recovery.dfy`, `ReplaySafety.dfy`, `Compaction.dfy` | page codec and allocator, replay into memory and pages, compaction |
| `Indexes.dfy`, `Engine.dfy` | the engine: log, pages, two indexes and the memtable together |
| `Durability.dfy`, `TornTails.dfy`, `Sessions.dfy`, `EngineRuns.dfy` | its runs through crashes, reopens and restores: what survives, what is lost, and the indexes |
| `Locations.dfy`, `ReopenedLocations.dfy` | whether index locations lead to the records |
| `Replication.dfy`, `Membership.dfy`, `Election.dfy` | log replication as a protocol of atomic steps, what its summaries say, leader election, and the two composed |
| `Metadata.dfy`, `Provisioning.dfy` | the metadata tables, and provisioning flows, reconciler and deletes interleaved over them |
| `Regression.dfy`, `RateLimit.dfy`, `Placement.dfy` | capacity regression, rate limiter, region-aware placement |

## Assumptions

- CRC-32 and `String::from_utf8_lossy` are arbitrary functions (`Lib`): every result holds whatever they compute. Keys are
  byte sequences that are well-formed UTF-8, compared byte by byte as Rust strings are. Lower-casing and case folding are ASCII.
- File reads and writes succeed and a truncation is durable. A crash keeps the synced log bytes and any prefix of the record
  being written; the page file may then be anything.
- LSNs and page ids stay within 64 bits and key and value lengths within 32 bits where a lemma says so; the `u16` record
  count of a page wraps, as in a release build.
- A snapshot is a faithful copy of the map; its entries come in any order.
- Metadata updates are atomic transactions and generated ids never repeat. What remote parties answer, which updates commit,
  which replies are lost, clocks and polls are arguments, and results hold for all of them.
- Replication: one thread appends and starts `replicate_record` for each record in log order; a follower starts with an empty
  log, applies its stream in order, and acknowledges no more than it applied. For the composed result, a candidate's
  `AppliedLSN` is the last LSN of its log; no code connects the two.
- Regression and placement scores are over the reals.

## Where the code differs from what is expected of it

- A torn tail of 1 to 7 bytes is "EOF", not corruption, so opening keeps it and replay leaves the cursor behind it. The torn
  operation itself costs nothing. But a record appended behind the tail is read from the wrong offset, and then the next open
  truncates it, everything appended after it, and the tail: one whole session is lost, and the log is clean again
  (`SessionLost`). What reads and reopens return in every run is computed from its events alone by a ledger (`Account`,
  `LedgerExactly`); one more acknowledged write survives a crash if and only if the ledger's tail is clean
  (`SurvivesInEveryRun`). Runs that append nothing behind a stale tail keep everything promised (`Durable`); in them a stale
  tail is there if and only if some crash left 1 to 7 bytes (`StaleTailExactly`).
  The loss is proved where the LSN byte that lands in the place of the operation code is not one, which includes all LSNs below
  256 for tails of 2 to 7 bytes; for a single record also behind one byte if the record is small (`OneByteBehind`).
- `restore` logs no deletes: a later reopen brings back every logged key that the snapshot lacks. Behind a stale tail the
  restore itself is lost at the next reopen (`RestoreExactly`).
- `replicate_record` counts acknowledgements of the current followers against the number it started with. A non-degraded
  return says that its members hold the record if and only if the followers are the same set again (`ReturnTellsExactly`);
  a follower that joins during the wait can hide one that lacks the record (`JoinerHidesMissingRecord`).
- A follower numbers records itself, so one that joins late does not converge (`ConvergesExactly`, `JoinerHidesMissingRecord`).
- Compaction moves records to one page, one over another, but leaves index locations alone: a location holds afterwards if and
  only if its page is the one filled, the Data page of the highest id, and, with fewer than 65536 live records, its record is
  the only one that fits a page (`LocationAfterCompaction`, `KeptByCompactionAlone`).
- Opening sends every index location to page 0, while replay writes records one over another to one page: a location holds if
  and only if that page is page 0 and ends with that record as the only one it counts (`LocationAfterOpen`); at most one does.
  A key's location is right again from its next put on (`LocationSinceLastPut`).
- The first request of a client is admitted even when its rule allows none (`FirstAlwaysAdmitted`).

## Model

| member | source | states |
|---|---|---|
| LogFormat.ReadBack | services/node-agent/src/storage/wal.rs:65-122 | an encoded record reads back as itself, whatever bytes follow it |
| LogFormat.CutRecordIsRejected | services/node-agent/src/storage/wal.rs:81-102 | any strict prefix of a record is "EOF" below 8 bytes and an error from 8 bytes on, never a record |
| LogFormat.AcceptedIsEncoding | services/node-agent/src/storage/wal.rs:81-122 | any bytes accepted as a record are exactly that record's encoding, with a right checksum |
| LogFormat.RoundTripExactly | services/node-agent/src/storage/wal.rs:65-122 | the round trip holds if and only if both lengths fit `u32` and the checksum is right |
| LogFormat.DeserializeExactly | services/node-agent/src/storage/wal.rs:49-122 | bytes are read as a record iff they have its outline and the checksum field is the CRC of all its other bytes; which bytes each field is |
| LogFormat.DamagedValue | services/node-agent/src/storage/wal.rs:49-63 | a record whose stored value was damaged is read only if the CRC of the damaged bytes is still the stored one |
| Bytes.ValidUtf8Exactly | services/node-agent/src/storage/wal.rs:97-98 | the keys accepted are exactly the encodings of sequences of Unicode scalar values |
| LogFormat.ScanSound | services/node-agent/src/storage/wal.rs:155-173 | on any file, the valid bytes are the encoding of the records returned, and the scan ends in an error iff 8 or more bytes remain |
| LogFormat.ScanEncoded | services/node-agent/src/storage/wal.rs:155-173 | whole records are read as themselves and the scan goes on with what follows |
| LogFormat.WholeRecordsIsLargest | services/node-agent/src/storage/wal.rs:155-173 | the count of records used by `PrefixParses` is the largest whose encoding ends at or before the cut |
| LogFormat.PrefixParses | services/node-agent/src/storage/wal.rs:155-175 | every byte prefix of a log parses to exactly the whole records inside it, with `valid_bytes` the end of the last |
| Wal.WalManager.ReadRecord | services/node-agent/src/storage/wal.rs:81-122 | reading field by field through the cursor computes `Deserialize`, and where it leaves the cursor |
| Wal.WalManager.Open | services/node-agent/src/storage/wal.rs:140-183 | the scan loop leaves the file, cursor and next LSN that `Opened` says |
| Wal.WalManager.Append | services/node-agent/src/storage/wal.rs:185-199 | the record is written at the cursor under the next LSN |
| Wal.WalManager.ReadAll | services/node-agent/src/storage/wal.rs:205-218 | returns all records, leaving the cursor at the end of the file, or fails iff the scan meets an error |
| Wal.OpenedScans | services/node-agent/src/storage/wal.rs:140-218 | after opening any file at all, the log reads to its end without an error and yields the same records |
| Wal.NextLsnIsFresh | services/node-agent/src/storage/wal.rs:151-180 | after opening any file the next LSN is one more than the highest in the log, or 1 |
| Wal.AppendAfterOpen | services/node-agent/src/storage/wal.rs:164-199 | after `open` the cursor is the end of the last valid record, and the next append covers any stale tail |
| Wal.CursorAfterReadAll | services/node-agent/src/storage/wal.rs:164-218 | after `open` and `read_all` the cursor is there if and only if the bytes left over were not 1 to 7 |
| Wal.OneByteBehind | services/node-agent/src/storage/wal.rs:81-122 | behind a single stale byte a small record is never read, whatever its LSN and checksum |
| Wal.AppendBehindStaleTailIsLost | services/node-agent/src/storage/wal.rs:81-122 | a record appended behind a 1 to 7 byte tail is dropped at the next open, whenever the misplaced operation byte is invalid or the tail is one byte and the record small |
| Wal.SmallLsnBytes | services/node-agent/src/storage/wal.rs:65-69 | for LSNs below 256 that byte is 0 for every tail of 2 to 7 bytes |
| Wal.AppendKeepsLog | services/node-agent/src/storage/wal.rs:185-199 | appending to a whole log with LSNs 1..n gives a whole log with LSNs 1..n+1, old records unchanged |
| Pages.HeaderRoundTrip | services/node-agent/src/storage/page.rs:40-68 | a page header survives encoding and decoding |
| Pages.PageRoundTrip | services/node-agent/src/storage/page.rs:90-141 | a written page reads back with its checksum filled in |
| Pages.DeserializePageExactly | services/node-agent/src/storage/page.rs:50-142 | 4096 bytes are read as a page iff the checksum field is the CRC of the others, that field and the reserved bytes taken as zero; which bytes each field is |
| Pages.ReadAfterWrite | services/node-agent/src/storage/page.rs:209-238 | writing a page changes what its own slot reads as and no other slot |
| Pages.PageManager.Open | services/node-agent/src/storage/page.rs:153-184 | the scan loop collects the readable Free pages in file order |
| Pages.PageManager.AllocatePage | services/node-agent/src/storage/page.rs:186-198 | pops the free list or extends the file, and writes a blank page |
| Pages.PageManager.FreePage | services/node-agent/src/storage/page.rs:200-207 | overwrites the page as Free and lists it once |
| Pages.PageManager.WritePage | services/node-agent/src/storage/page.rs:223-238 | the page's slot is replaced by its encoding |
| Pages.OpenedInv | services/node-agent/src/storage/page.rs:153-184 | any file whose readable pages carry their own ids, torn pages included, opens with the allocator invariant |
| Pages.AllocateKeepsInv | services/node-agent/src/storage/page.rs:186-198 | allocation keeps the allocator invariant, and the id handed out was free or past the end, never in use |
| Pages.FreeKeepsInv | services/node-agent/src/storage/page.rs:200-207 | freeing any existing page, even a free one, keeps the allocator invariant |
| Pages.ReopenKeepsInv | services/node-agent/src/storage/page.rs:153-184 | reopening rebuilds the same next id and the same free pages |
| Pages.AllocatorSafetyFromEmpty | services/node-agent/src/storage/page.rs:153-238 | over every run and reopen: no duplicates in the free list, which is exactly the pages marked Free on disk, the file is `next_page_id` whole pages, and all are readable |
| Recovery.ApplyRecordToPages | services/node-agent/src/storage/recovery.rs:54-98 | the search loop and LSN guards apply one record as `ApplyToPages` says |
| Recovery.Recover | services/node-agent/src/storage/recovery.rs:16-52 | returns the left fold of the records from the start LSN on, and the pages replayed in the same order |
| Recovery.FromLsnAre | services/node-agent/src/storage/recovery.rs:25-28 | a replay from a starting LSN looks at exactly the records not below it |
| Recovery.EntryReads | services/node-agent/src/storage/recovery.rs:86-88 | an entry is the key, a colon, and the value as text |
| Recovery.WithEntryEffect | services/node-agent/src/storage/recovery.rs:90-95 | writing an entry changes the front of the page, its LSN and its count, and nothing else |
| ReplaySafety.ApplyEffect | services/node-agent/src/storage/recovery.rs:54-98 | replay's target page stays the target, its LSN never decreases, and the record is absorbed |
| ReplaySafety.ReplayTwice | services/node-agent/src/storage/recovery.rs:16-98 | replaying any log twice, any LSNs and sizes, leaves the page store as after one replay |
| ReplaySafety.ReplayRestarted | services/node-agent/src/storage/recovery.rs:16-98 | stopping after any record and replaying from the start ends where an uninterrupted replay does |
| ReplaySafety.ReplayInterrupted | services/node-agent/src/storage/recovery.rs:16-98 | the same after any number of interrupted replays |
| ReplaySafety.ReplayAfterReopen | services/node-agent/src/storage/recovery.rs:16-98 | the same when the page file is reopened in between, once a record has been applied |
| ReplaySafety.ReplayKeepsInv | services/node-agent/src/storage/recovery.rs:54-98 | replay keeps the allocator invariant |
| Compaction.Compact | services/node-agent/src/storage/compaction.rs:9-57 | the three loops compute `Compacted`, and the statistics returned |
| Compaction.CompactionEffect | services/node-agent/src/storage/compaction.rs:9-57 | the one Data page left, which it is and what it reads as |
| Compaction.FilledPageIs | services/node-agent/src/storage/compaction.rs:35-46 | that page ends with the LSN and entry of the last record that fits, and counts every record written |
| Compaction.CompactionAccounting | services/node-agent/src/storage/compaction.rs:9-57 | with d readable Data pages before, one remains, max(d-1, 0) are reclaimed, other used pages and torn ones are untouched, and the file grows only without Data and Free pages |
| Indexes.BTreeIndex.RangeScan | services/node-agent/src/storage/btree_index.rs:36-45 | exactly the entries between the two keys, both included, in strictly increasing key order |
| Indexes.RangeIsUnique | services/node-agent/src/storage/btree_index.rs:36-45 | only one list meets that description |
| Indexes.LessExactly | services/node-agent/src/storage/btree_index.rs:36-45 | key order is that of Rust strings: a proper prefix first, otherwise the first differing byte decides |
| Engine.StorageEngine.Open | services/node-agent/src/storage/engine.rs:27-76 | recovery never fails; log, pages, memtable and both indexes are as `OpenedEngine` says |
| Engine.StorageEngine.Put | services/node-agent/src/storage/engine.rs:78-117 | log, page, both indexes and memtable updated under one LSN |
| Engine.StorageEngine.InsertVector | services/node-agent/src/storage/engine.rs:119-138 | a put under the prefixed key |
| Engine.VectorKeysApart | services/node-agent/src/storage/engine.rs:127-130 | vector keys start with "vec:" and differ as their ids do |
| Engine.StorageEngine.Get | services/node-agent/src/storage/engine.rs:201-203 | the memtable's value, if any |
| Engine.StorageEngine.Delete | services/node-agent/src/storage/engine.rs:205-220 | logs and removes a present key, does nothing for an absent one |
| Engine.StorageEngine.Restore | services/node-agent/src/storage/engine.rs:232-245 | clears memory and puts the snapshot's entries in order, or changes nothing if it does not load |
| Engine.StorageEngine.CompactPages | services/node-agent/src/storage/engine.rs:247-249 | only the pages change |
| Durability.AppendTorn | services/node-agent/src/storage/wal.rs:155-199 | after a torn append every earlier record is still read, and the new one iff it is whole |
| Durability.StepKeepsInv | services/node-agent/src/storage/engine.rs:78-245 | every operation, crash at any byte and reopen keeps disk, memory and promise in step, unless it appends behind a stale tail; and a stale tail is there afterwards iff it was before or the crash left 1 to 7 bytes |
| Durability.LoggedPut | services/node-agent/src/storage/engine.rs:78-86 | a put logs an insert if the key was not live and an update if it was, under the next LSN, and changes no earlier record |
| Durability.Durable | services/node-agent/src/storage/engine.rs:27-245 | over every run that appends nothing behind a stale tail, reads and reopens return exactly the acknowledged operations plus in-flight ones that reached the disk whole; log LSNs are 1..n |
| Durability.UntornIsClean | services/node-agent/src/storage/wal.rs:155-199 | every run in which no crash leaves 1 to 7 bytes is such a run |
| Durability.StaleTailExactly | services/node-agent/src/storage/wal.rs:155-218 | in such a run the log has a stale tail iff some crash left 1 to 7 bytes |
| Durability.MemtableRefinesLog | services/node-agent/src/storage/engine.rs:78-138 | from any files, without a restore or an append behind a stale tail, the memtable is the left fold of the log, in value and LSN |
| Durability.LiveIsDurable | services/node-agent/src/storage/engine.rs:27-245 | at every point of such a run, restores included, all that reads return is returned again after a crash and a reopen |
| TornTails.SurvivesExactly | services/node-agent/src/storage/wal.rs:185-218 | from every state reached by a clean run, an acknowledged put or delete survives a crash iff it was not appended behind a stale tail, or changed nothing |
| TornTails.DurableExactly | services/node-agent/src/storage/wal.rs:140-218 | after any clean run, one more acknowledged change survives a crash, with all before it, iff no crash of the run left 1 to 7 bytes |
| TornTails.TornThenPutExactly | services/node-agent/src/storage/wal.rs:205-217 | a put torn after any number of bytes, a reopen, and another put: that one is read after the next crash iff the first left no 1 to 7 bytes |
| TornTails.FirstPutLost | services/node-agent/src/storage/wal.rs:81-88 | on a new database every torn tail of 2 to 7 bytes costs the first acknowledged put, and a tail of one byte costs it if its record is small |
| Sessions.DoomedGrows | services/node-agent/src/storage/wal.rs:155-175 | once a record is misread behind a tail, nothing appended later is read either |
| Sessions.BehindStaleTail | services/node-agent/src/storage/wal.rs:81-122 | bytes behind a stale tail lengthen it up to 7 in all; from 8 on the next open truncates them with it |
| Sessions.StepKeepsRunInv | services/node-agent/src/storage/engine.rs:78-245 | every operation, crash at any byte and reopen, on a clean, stale or doomed log, keeps the engine in step with the ledger |
| Sessions.LedgerExactly | services/node-agent/src/storage/engine.rs:27-245 | over every run, appends behind stale tails included, reads and reopens return exactly what the ledger of its events says |
| Sessions.SurvivesInEveryRun | services/node-agent/src/storage/wal.rs:140-218 | after every such run, one more acknowledged put or delete survives a crash iff the ledger's tail is clean, or it changes nothing |
| Sessions.SessionLost | services/node-agent/src/storage/wal.rs:155-218 | a session that appends behind a stale tail is lost whole at the next open, which leaves a clean log |
| EngineRuns.RestoreExactly | services/node-agent/src/storage/engine.rs:232-245 | in every state of every run memory is the snapshot; a reopen gives the durable map overridden by it iff the tail is clean or that makes no difference; on a clean log the two agree iff every durable key is in the snapshot |
| EngineRuns.IndexesAlwaysAgree | services/node-agent/src/storage/engine.rs:49-114 | in every run at all, both indexes are equal, have the memtable's keys and LSNs, and offset 0 |
| EngineRuns.RangeScanIsLiveKeys | services/node-agent/src/storage/engine.rs:222-224 | a range scan returns exactly the live keys of the range, in order, with their LSNs |
| Locations.PutPlacesRecord | services/node-agent/src/storage/engine.rs:88-102 | a put's page holds its record and every other page is unchanged |
| Locations.HeldReads | services/node-agent/src/storage/engine.rs:88-96 | a page that holds a record that fits starts with its key, a colon and its value as text |
| Locations.PutKeepsLocation | services/node-agent/src/storage/engine.rs:88-117 | from any ordered page store, reopened ones included, a put makes its key's location right and keeps every other that is |
| ReopenedLocations.LocationsHoldOverRuns | services/node-agent/src/storage/engine.rs:27-249 | per key: through puts, deletes, restores, crashes, and compactions and reopens that meet the conditions below, its location stays right |
| ReopenedLocations.LocationSinceLastPut | services/node-agent/src/storage/engine.rs:78-249 | since its last put a key's location is right through every such run, whatever the other keys' are |
| Locations.LocationAfterCompaction | services/node-agent/src/storage/compaction.rs:21-46 | in any state: a live key's location holds after a compaction iff its page is the one filled, its record is the last written, and the record count wraps to one |
| Locations.CompactionPageIsHighest | services/node-agent/src/storage/compaction.rs:21-33 | a Data page is the one filled iff no Data page has a higher id |
| Locations.KeptByCompactionAlone | services/node-agent/src/storage/compaction.rs:35-46 | with fewer than 65536 records: iff its page is the one filled and it alone fits a page |
| Locations.LocationsAfterCompaction | services/node-agent/src/storage/engine.rs:247-249 | all locations hold after a compaction iff each meets that condition |
| Locations.LsnsFreshOverRuns | services/node-agent/src/storage/engine.rs:78-117 | in every run, lost sessions included, live records have distinct, positive LSNs |
| ReopenedLocations.ReplayedPage | services/node-agent/src/storage/recovery.rs:54-98 | replay rewrites one page only, which ends with the last rewriting record and counts them all |
| ReopenedLocations.LocationAfterOpen | services/node-agent/src/storage/engine.rs:49-52 | after an open a location holds iff page 0 is the page replay rewrites and ends with that record as the only one counted |
| ReopenedLocations.LocationsAfterOpen | services/node-agent/src/storage/engine.rs:49-52 | all locations hold after an open iff each meets that condition |
| ReopenedLocations.OpenLeavesOneLocation | services/node-agent/src/storage/engine.rs:49-52 | whatever is in the page file, after an open at most one live key's location holds |
| Locations.CompactionLeavesOneLocation | services/node-agent/src/storage/engine.rs:247-249 | whatever values it is given, of two live keys on different pages at most one location still holds |
| Replication.ReplicationEngine.RegisterFollower | services/node-agent/src/storage/replication.rs:34-37 | the follower's acknowledgement starts from 0 again |
| Replication.ReplicationEngine.ProcessFollowerAck | services/node-agent/src/storage/replication.rs:44-51 | a registered follower's acknowledgement is raised, never lowered |
| Replication.ReplicationEngine.ReplicateRecord | services/node-agent/src/storage/replication.rs:54-104 | each follower's stream gets the record, no other; degraded iff no poll found all followers' acknowledgements and the last no more than that |
| Replication.PollCountExactly | services/node-agent/src/storage/replication.rs:84-96 | the count is `total` if some poll finds exactly that many, otherwise what the last poll finds |
| Replication.NonDegradedPoll | services/node-agent/src/storage/replication.rs:84-96 | a non-degraded result means some poll found that many acknowledgements |
| Replication.ApplyReplicatedRecord | services/node-agent/src/storage/replication.rs:107-112 | the contents are appended under the follower's own next LSN |
| Replication.EveryFollowerLog | services/node-agent/src/storage/replication.rs:34-112 | in every run every follower's log, however often it was registered and removed, is the leader's contents appended while it was registered, as far as applied, numbered from 1 |
| Replication.FollowerLogExactly | services/node-agent/src/storage/replication.rs:34-112 | for a follower never removed that is the leader's contents from when it joined |
| Replication.FounderConverges | services/node-agent/src/storage/replication.rs:34-112 | a follower registered from the start has a prefix of the leader's log, LSNs and checksums included, replays to the same map, and holds every safely replicated record |
| Replication.ConvergesExactly | services/node-agent/src/storage/replication.rs:107-112 | a follower's log is a prefix of the leader's iff the contents it was sent repeat the leader's first ones |
| Replication.AcksNeverDecrease | services/node-agent/src/storage/replication.rs:34-51 | over every run that neither registers nor removes the follower, the LSN it acknowledged never decreases |
| Membership.CountSufficesExactly | services/node-agent/src/storage/replication.rs:84-96 | as many acknowledgements as there were members include all members', whatever they are, iff there were none, the followers are the same, or they are too few |
| Membership.ReturnTellsExactly | services/node-agent/src/storage/replication.rs:54-104 | over all runs, for all member sets at the call and at the return: a non-degraded return means every member holds the record iff there was none, the followers are the same, or they are too few to return so |
| Membership.MemberHolds | services/node-agent/src/storage/replication.rs:44-112 | a member that acknowledged a call's LSN holds its record, whenever it joined |
| Membership.SafeExactly | services/node-agent/src/storage/replication.rs:97-103 | the calls used by the no-loss theorem are exactly those whose non-degraded return means that |
| Membership.JoinerHidesMissingRecord | services/node-agent/src/storage/replication.rs:84-112 | the smallest run in which it does not, and in which a late joiner's log is no prefix of the leader's |
| Election.ElectNewLeaderRegion | services/control-plane/election/election.go:41-83 | fails iff no candidate's region is healthy or degraded; otherwise elects one with the highest LSN, and of those one that no other precedes in the order of region names |
| Election.BestByName | services/control-plane/election/election.go:61-76 | the sort's best candidate, by region names and statuses |
| Election.SortCandidates | services/control-plane/election/election.go:61-74 | a sorted permutation |
| Election.FirstIsBest | services/control-plane/election/election.go:61-76 | the first of any sorted order is a best candidate, however ties are left |
| Election.OutcomeUnique | services/control-plane/election/election.go:37-40 | the outcome is determined up to LSN and priority, and is one candidate iff no other eligible one ties with it |
| Election.ElectedLeaderLosesNothing | services/control-plane/election/election.go:37-83 | over all replication runs, the elected log extends every eligible candidate's and holds every record replicated non-degraded with unchanged membership |
| Metadata.Server.CreateDatabaseRecord | services/metadata-service/grpc/server.go:196-252 | inserts the row, and a leader replica if a node is given, or nothing |
| Metadata.Server.UpdateDatabaseStatus | services/metadata-service/grpc/server.go:255-322 | updates the row and, with a node, replaces all replicas by one leader; a missing row changes nothing |
| Metadata.Server.DeleteDatabaseRecord | services/metadata-service/grpc/server.go:415-453 | removes the row and all its replicas, or nothing |
| Metadata.InsertKeeps | services/metadata-service/grpc/server.go:196-252 | creation keeps rows and replicas consistent |
| Metadata.UpdateKeeps | services/metadata-service/grpc/server.go:255-322 | an update keeps rows and replicas consistent |
| Metadata.DeleteKeeps | services/metadata-service/grpc/server.go:415-453 | a delete keeps rows and replicas consistent |
| Metadata.InsertEffect | services/metadata-service/grpc/server.go:196-252 | creation adds this row and its replica, and changes no other database |
| Metadata.UpdateEffect | services/metadata-service/grpc/server.go:255-322 | an update writes status, endpoint, attempts and a given node of this row, and changes no other database |
| Metadata.DeleteEffect | services/metadata-service/grpc/server.go:415-453 | a delete removes this row and its replicas, and changes no other database |
| Provisioning.ProvisionDatabase | services/control-plane/orchestrator.go:34-190 | the retry loop performs exactly the actions of `WholeFlow`, for any answers |
| Provisioning.ChooseNode | services/control-plane/orchestrator.go:46-102 | the scheduler's node if it has not failed yet and its first entry has a hostname; if it has failed, the first usable untried one; and exactly when none |
| Provisioning.FlowOutcome | services/control-plane/orchestrator.go:42-190 | each create right after its placement; `active` with the endpoint returned at the end after a success, `failed` after attempt 3 otherwise; no attempt that has all it needs is skipped |
| Provisioning.FlowIsBounded | services/control-plane/orchestrator.go:42-178 | at most three create calls; a failed node is not called again while an untried usable one is listed; `active` is written only right after a successful create there |
| Provisioning.ProvisioningSafety | services/control-plane/orchestrator.go:105-189 | in every interleaving, lost replies included, rows and replicas agree, deleted ids have no rows, and an active row's node had a successful create for it |
| Provisioning.OthersLeaveAlone | services/metadata-service/grpc/server.go:196-453 | in every run, events on other databases change neither the row nor the replicas of a database |
| Provisioning.DeletedStaysDeleted | services/control-plane/handlers.go:196-249 | a deleted id has no row and no replica in any continuation |
| Provisioning.Reconcile | services/control-plane/reconciliation.go:46-86 | the sweep touches the stuck databases, and dispatches those whose touch is heard to go through |
| Provisioning.SweepEffect | services/control-plane/reconciliation.go:53-84 | a sweep puts exactly the touched databases in `provisioning`, dispatches only touched ones, touches only listed stuck ones, and moves none to another node |
| Provisioning.SweepIsComplete | services/control-plane/reconciliation.go:53-84 | every listed provisioning database without a node or too old is touched if it exists and the write goes through, and dispatched if that is heard |
| Provisioning.SweepIsSound | services/control-plane/reconciliation.go:53-64 | and only those are |
| Provisioning.SweepWrites | services/control-plane/reconciliation.go:70-74 | a touch keeps the node, clears the endpoint and writes the listed attempts |
| Regression.CalculateLinearRegression | services/capacity-planner/planner/planner.go:90-118 | the line returned has the least squared error of all lines, in both branches; samples on a line per 24 hours give that line; equal times give slope 0 |
| Regression.ExactFit | services/capacity-planner/planner/planner.go:98-117 | the best line through samples on a line, at different times, is that line |
| Regression.NormalIsOptimal | services/capacity-planner/planner/planner.go:109-117 | any line whose residuals sum to zero, plain and weighted, is optimal |
| Regression.DenominatorZero | services/capacity-planner/planner/planner.go:109-112 | the denominator is zero iff all sample times are equal |
| RateLimit.RateLimiter.Allow | services/auth-service/auth/ratelimit.go:46-81 | the client's bucket is created, refilled and spent as `Served` says, and no other bucket changes |
| RateLimit.AdmissionBound | services/auth-service/auth/ratelimit.go:55-80 | within T of a client's first request at most Max * (1 + T / W) are admitted |
| RateLimit.WindowBound | services/auth-service/auth/ratelimit.go:68-80 | any half-open interval of length W admits at most 2 * Max - 1 |
| RateLimit.BoundsByRole | services/auth-service/auth/ratelimit.go:50-53 | both bounds by the configured rules: a role with a rule is held to it, one without to the read-only rule |
| RateLimit.WindowBoundIsTight | services/auth-service/auth/ratelimit.go:68-80 | a run that reaches that bound, for every rule with a window of at least 2 |
| RateLimit.FirstAlwaysAdmitted | services/auth-service/auth/ratelimit.go:57-66 | the first request is admitted whatever the rule, so the bound needs Max >= 1 |
| Placement.GetFallbackRegions | services/metadata-service/region/region.go:127-155 | all regions, strictly nearest first, from the preferred region or India; the five orders by name |
| Placement.BaseRegionIs | services/metadata-service/region/region.go:128-134 | the region measured from, by name in any case; India if unknown |
| Placement.InferredIs | services/scheduler/placement/region_scheduler.go:71-89 | a node's region: the declared one in any case, else the first named in its hostname or cluster id, else India |
| Placement.ContainsExactly | services/scheduler/placement/region_scheduler.go:83-87 | naming a region means containing its name at some position |
| Placement.LatenciesDiffer | services/metadata-service/region/region.go:36-72 | distances from one region all differ and the matrix is symmetric, so the order is determined |
| Placement.ScheduleNode | services/scheduler/placement/scheduler.go:22-84 | fails iff every node is dead or draining; otherwise the first with the least 4 cpu + 3 memory + 3 disk, overloaded ones only if there are no others |
| Placement.ChoiceIsLeastLoaded | services/scheduler/placement/scheduler.go:22-84 | the highest score is the least weighted use of resources |
| Placement.ScoreIs | services/scheduler/placement/scheduler.go:20-26 | the score reported, as a formula of the three percentages |
| Placement.ScheduleNodeWithRegionFallback | services/scheduler/placement/region_scheduler.go:21-68 | succeeds iff flat scheduling on all nodes does; no nearer region has an available node; the node is the least loaded choice of its region |

## Left out

- HNSW graph, vector search and filters.
- Engine.StorageEngine.InsertVector: models the logged put; the `vector_records` map and the graph are not part of this model.
- Engine.StorageEngine.Delete: leaves out the removal from `vector_records` and the graph.
- Engine.StorageEngine.Restore: leaves out clearing `vector_records` and the graph, which a restore does not rebuild.
- `restore` from a snapshot that cannot be read is one failure; JSON, snapshot files and directories are not modelled.
- Pages that go bad while the process runs. After a crash the page file is arbitrary; the allocator, replay, compaction and
  location results need only that readable pages carry their own ids.
- TornTails.SurvivesExactly: the loss is stated for records that are certainly unreadable behind the tail (`Unreadable`).
- Sessions.LedgerExactly: asks of an append behind a stale tail that it puts no operation code where one belongs (`Guarded`);
  whether a record with one there can be read from the wrong offset depends on its CRC.
- EngineRuns.RestoreExactly: asks the same of the first of its puts, for what a later reopen returns; not for memory.
- File write failures, and what the engine's methods leave behind when one occurs midway.
- The batched sync policy and `flush`: the engine always syncs each append.
- Threads and mutexes of `ReplicationEngine`: `Replication.System` takes their effects as atomic steps.
- `sort.Slice`: any sorted permutation; `SortCandidates` and `InsertRegion` are insertions standing in for it.
- Node agents' own state: a create call succeeds or fails, and `DeleteDatabase` calls on nodes have no effect in the model.
- Names, clusters, timestamps and endpoints of database rows beyond what status updates write.
- Generated gRPC code, HTTP handlers, configuration, telemetry, gateway, dashboard and webhook.
- Deployment controller, health manager, autoscaler, SLA monitor, API keys, JWT.
- Floating-point rounding in scores and regression, and the capacity projection around `calculateLinearRegression`.
- `RollupRegionHealth`, `remove_follower` beyond its map update, and read-only accessors.
