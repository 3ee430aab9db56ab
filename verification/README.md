# Models of the algorithmic cores

This project models the parts of the Nostr library whose correctness does not show in any single
function body, and proves what they promise. `dafny verify dfyconfig.toml` checks all of it.

## What is modelled

**Negentropy set reconciliation** (NIP-77). `NegentropyTypes`, `NegentropyReconcile` and
`NegentropyProtocol` describe the two-party protocol as a sequence of messages over sorted lists;
`NegentropySegments` and `NegentropyReports` carry the accounting that makes a run exact;
`NegentropyTermination` gives the bound on its length and `NegentropyEndless` the runs without one.
`NegentropyCodec` is the wire format, `NegentropyFormat` says in numbers which bytes it consists of,
`NegentropyWire` and `NegentropyNode` the imperative reader, writer and node, and `NegentropySync`
runs two nodes against each other on bytes. The fingerprint is an arbitrary function; exactness is
stated for runs in which it does not collide. `Accumulator` is the 256-bit addition under the real
fingerprint, whose carry test can miss a carry: the exact condition is proved.

**The pebbledb2 store.** `StoreKeys` and `StoreTables` say which keys a set of events stands for,
`StoreSpec` what a group of requests means, and `StoreCommit` is the single writer with its batch,
seen sets, replace ledger and counter deltas. On top of it: what a group does to the counters
(`StoreLaws`), when a group means what its requests mean one by one (`StoreSequential`,
`StoreInterference`), whole streams of groups (`StoreHistory`) and the writer loop that commits them
(`StoreWriter`), the counts read from counters (`StoreCounts`), the hour and day rollup
(`StoreRollup`, `StoreRollupLaws`), planning, merge and cursor (`StoreSources`, `StoreMerge`,
`StoreCursor`, `StoreQuery`), signatures and sharded text search (`Bloom`, `Horspool`,
`StoreSearch`), and the two entry points (`StoreService`). `StoreEffects` and `StoreMeaning` restate
writes and answers field by field and in numbers, apart from the definitions the operations are
built of. Every answer is compared with brute force over the stored events, whichever of them have
a signature. `KeyBytes` ties the structured keys to their bytes, so that the ordered map of the
model and the ordered byte strings of the engine are the same thing.

**The Bolt merge**: `IndexIterators`, `Quickselect` and `ThresholdMerge`.

**The relay dispatcher** and the listeners of its clients: `Dispatcher` and `Listeners`.

**Smaller algorithms**: `LcsDiff`, `EventSerialization`, `Nip44Padding`.

## Where code and intent part

Each of these is a lemma, with the exact condition under which the code does meet its intent.

- An upload-only negentropy client ends only when there was nothing to do (`UploadOnlyCloses`);
  otherwise the two sides end up repeating the same two messages for ever (`ListsForEver`).
- The fingerprint accumulator can drop a carry (`SumExact`).
- A stored addressable event without a "d" tag is counted again when it is replaced by itself
  (`CountedIff`, `DoublesUntagged`; `LoneReplaceCounts` for a single request).
- Requests of one write group may disturb each other. A group of any saves, deletes and replaces
  answers as its requests would one by one if and only if none is interfered with (`GroupExact`, with
  the condition `Interfered` on the requests and the events stored before), and so does a stream of
  groups (`BatchingExact`). A version saved in the group of its replacement survives it
  (`SavedVersionEscapes`); one deleted there still refuses it (`DeletedVersionRefuses`); one without
  a "d" tag goes, though no search for versions would find it (`UntaggedGoes`).
- A scan takes an empty list and a negative `until` for absent, where `Filter.Matches` matches
  nothing (`EmptyAuthors`, `NegativeUntil`), and a tag the store does not index finds nothing
  (`UnindexedTag`). `FoundExactAlways` tells from filter and index rule alone when every store is
  answered as meant.
- The rollup COUNT by kind skips the second edge hour of a day, because the set of counted kinds is
  shared by both (`KindsExactIff`); hour numbers wrap in the last representable hour
  (`LastHourWraps`) and alias when there is no upper bound (`UnboundedExactIff`, `RollupLastDay`).
- A text search folds the pattern and the content in two ways; it is an ASCII search if and only if
  they agree on the pattern (`FoldsAlikeIff`).
- Removing a subscription stops early when its filter repeats an author or kind
  (`RemovalCompleteIff`), and the entry left behind is yielded as a zero subscription
  (`LeftoverYielded`).
- NIP-44 unpadding accepts nonzero padding and a long header for a short text (`AcceptedIff`,
  `CanonicalIff`).
- Serialization leaves backspace and form feed unescaped (`EscapeMeetsStandardIff`,
  `SerializeMeetsStandardIff`).

Comments in the code that the code does not follow: `quickselect` puts the greatest elements first,
not last; `hasSpecial` also finds carriage returns; `dataTimeRange` and `searchTask` walk the time
index, not the body index. The model follows the code.

## Model

| member | source | states |
|---|---|---|
| `NegentropySegments.MinimalBoundSeparates` | nip77/negentropy/encoding.go:79-94 | the bound written between two neighbours is above the first and not above the second |
| `NegentropySegments.MinimalBoundCuts` | nip77/negentropy/encoding.go:79-94 | so whoever holds both neighbours cuts its sorted list exactly between them |
| `NegentropyCodec.VarIntRoundTrip` | nip77/negentropy/encoding.go:96-135 | every varint below 2^63 is read back, whatever follows it |
| `NegentropyCodec.TimestampRoundTrip` | nip77/negentropy/encoding.go:10-71 | timestamps travel as deltas plus one, infinity as 0, and come back from matching reader state |
| `NegentropyCodec.BoundRoundTrip` | nip77/negentropy/encoding.go:35-77 | a bound no earlier than the one before it is read back unchanged |
| `NegentropyCodec.MessageRoundTrip` | nip77/negentropy/negentropy.go:139-203 | a whole message with non-decreasing bounds is read back range by range, skip, fingerprint and id-list payloads included |
| `NegentropyFormat.VarIntIff` | nip77/negentropy/encoding.go:114-135 | a string is the varint of a number if and only if its bytes are that number in base 128, most significant first, all but the last with 128 added, and the first is not a padding 128 |
| `NegentropyFormat.VarIntRead` | nip77/negentropy/encoding.go:96-112 | the reader returns the number below 2^63 that such bytes stand for, in the shortest form or not, and leaves what follows |
| `NegentropyFormat.RangeIff` | nip77/negentropy/negentropy.go:139-203 | a range is its timestamp as a delta plus one or 0 for infinity, the length and bytes of its id prefix, and then 0 for a skip, 1 and 16 bytes for a fingerprint, or 2, a count and the ids for a list |
| `NegentropyFormat.UnknownMode` | nip77/negentropy/negentropy.go:257-258 | any other mode is refused |
| `NegentropyWire.WriteVarInt` | nip77/negentropy/encoding.go:114-135 | the seven-bit groups filled backwards into a buffer are the varint |
| `NegentropyWire.ReadVarInt` | nip77/negentropy/encoding.go:96-112 | the reading loop returns what the recursive reader of the same bytes returns, end of input and 64-bit wrap included |
| `NegentropyReconcile.BucketsCover` | nip77/negentropy/negentropy.go:281-329 | the sixteen buckets of a split, with their remainder rule, cover the range end to end |
| `NegentropyReconcile.BucketSizes` | nip77/negentropy/negentropy.go:281-329 | no bucket is empty and each is strictly smaller than the range it came from |
| `NegentropySegments.SplitHonest` | nip77/negentropy/negentropy.go:281-329 | a split describes the segment it replaces: its fingerprints and id lists are those of the items between its bounds |
| `NegentropySegments.HandleHonest` | nip77/negentropy/negentropy.go:114-278 | after any prefix of a message the party stands at the cut of the last bound, and what it wrote describes its own list |
| `NegentropyReports.CompareMeaning` | nip77/negentropy/negentropy.go:205-229 | striking our ids out of a received list leaves exactly the two set differences |
| `NegentropyReports.AnswerAccounts` | nip77/negentropy/negentropy.go:133-278 | each message passes on exactly what it received to account for, plus what the party reported while answering: nothing is lost or reported twice |
| `NegentropyProtocol.RunInvariant` | nip77/negentropy/negentropy.go:76-278 | in every state of every run each id held by one side only is either reported once or still lies in a range in flight |
| `NegentropyProtocol.ClosedRunIsExact` | nip77/negentropy/negentropy.go:87-112 | when the client closes, it has emitted exactly client minus server on Haves and server minus client on HaveNots, each id once |
| `NegentropyProtocol.SeparationIsEnough` | nip77/negentropy/negentropy.go:168-181 | a condition on the two lists alone under which no run meets a fingerprint collision |
| `NegentropyTermination.RunCloses` | nip77/negentropy/negentropy.go:164-259 | every downloading client closes after at most Depth(client) + Depth(server) + 3 messages, collisions or not |
| `NegentropyTermination.DepthLogarithmic` | nip77/negentropy/negentropy.go:281-329 | that bound is logarithmic to base 16 in the sizes of the lists |
| `NegentropyTermination.UploadOnlyCloses` | nip77/negentropy/negentropy.go:220-255 | a client without HaveNots closes if and only if the lists are equal and hold at least 32 items |
| `NegentropyEndless.ListsForEver` | nip77/negentropy/negentropy.go:220-255 | otherwise, from a bounded number of messages on, every message repeats the one two before it: only id lists and skips, at least one list, each side its own ids in the same ranges |
| `NegentropyNode.Negentropy.FindLowerBound` | nip77/negentropy/storage/vector/vector.go:57-60 | the binary search over the sealed items finds the first item not below the bound, counting from the given index |
| `NegentropyNode.Negentropy.SplitRange` | nip77/negentropy/negentropy.go:281-329 | the writing loop emits the encoded split and leaves the writer at its last timestamp |
| `NegentropyNode.Negentropy.Answer` | nip77/negentropy/negentropy.go:161-259 | one received range is answered as the specification says, with its reports on the two channels |
| `NegentropyNode.Negentropy.ReconcileAux` | nip77/negentropy/negentropy.go:114-278 | bytes in, bytes out: version mismatch, truncated input and each mode give the reply the specification gives |
| `NegentropyNode.Negentropy.Reconcile` | nip77/negentropy/negentropy.go:87-112 | the channels close exactly when a client would reply with the version byte alone |
| `NegentropyNode.Negentropy.Start` | nip77/negentropy/negentropy.go:76-85 | the opening message is the encoded split of the whole list |
| `NegentropyFormat.ShortOpening` | nip77/negentropy/negentropy.go:281-292 | of fewer than 32 items it is 0x61, 0, 0, 2, their number and their ids |
| `NegentropyFormat.LongOpening` | nip77/negentropy/negentropy.go:293-329 | of 32 items or more it is 0x61 and sixteen ranges of mode 1, each bounded by the shortest string between two neighbours and the last by infinity, with the fingerprints of their items |
| `NegentropyFormat.MinimalBoundIs` | nip77/negentropy/encoding.go:79-94 | the bound between two neighbours has the later timestamp and the fewest bytes of the later id that keep it above the earlier item: none between different timestamps |
| `NegentropyFormat.ForeignVersion` | nip77/negentropy/negentropy.go:118-131 | to a message of another version a server answers 0x61 alone, and a client fails |
| `NegentropyFormat.ReplyShape` | nip77/negentropy/negentropy.go:114-278 | a message of version 0x61 fails exactly if its ranges cannot be read, and is otherwise answered by 0x61 and the ranges of the answer |
| `NegentropySync.ReplyOnWire` | nip77/negentropy/negentropy.go:87-278 | on encoded messages the byte-level reply is the encoding of the range-level answer |
| `NegentropySync.Synchronise` | nip77/negentropy/negentropy.go:76-278 | two nodes exchanging bytes terminate, and unless fingerprints collided the channels hold the two set differences |
| `Accumulator.SumExact` | nip77/negentropy/storage/accumulator.go:25-42 | the word-by-word addition is addition modulo 2^256 if and only if no word but the last drops its carry |
| `Accumulator.CarryDetected` | nip77/negentropy/storage/accumulator.go:33-36 | a single carry goes unnoticed exactly when both words are all ones and a carry comes in |
| `Accumulator.LostCarryExample` | nip77/negentropy/storage/accumulator.go:25-42 | two inputs whose sum comes out wrong |
| `Accumulator.Accumulator.AddWords` | nip77/negentropy/storage/accumulator.go:25-42 | the in-place loop computes that addition |
| `StoreKeys.IndexKeysFor` | eventstore/pebbledb2/keys.go:375-403 | every index key of an event, each exactly once, whatever its tags repeat |
| `StoreKeys.PrefixesAre` | eventstore/pebbledb2/keys.go:375-403 | an event stands under its author, its kind, both, all events, and each tag of at least two items with an indexed name, a name below 256 and a value below 65536 bytes |
| `StoreKeys.BucketsAre` | eventstore/pebbledb2/store.go:589-598 | it is counted under day createdAt / 86400 and hour createdAt / 3600, modulo 2^32, alone and by kind, and by author and kind |
| `StoreTables.WriteDescribes` | eventstore/pebbledb2/store.go:669-682 | writing the rows of an event turns a database describing some events into one describing them and it |
| `StoreTables.DropDescribes` | eventstore/pebbledb2/store.go:687-696 | dropping its rows turns it into one describing the others |
| `StoreTables.SignaturesOptional` | eventstore/pebbledb2/keys.go:117-119 | whichever signatures are missing, what remains can be read |
| `StoreCommit.PebbleStore.FindReplaceVersions` | eventstore/pebbledb2/store.go:933-963 | the scan of the author and kind index returns every version the filter matches, newest first, and the newest of them |
| `StoreCommit.Group.WriteEvent` | eventstore/pebbledb2/store.go:718-731 | locator, body, index keys and signature go into the batch together; no counter is touched |
| `StoreCommit.Group.BumpCounters` | eventstore/pebbledb2/store.go:589-598 | each of the five counters of an event moves by the delta and no other does |
| `StoreCommit.Group.Supersede` | eventstore/pebbledb2/store.go:637-652 | the versions a winner removes are taken once each, never itself and never one removed before |
| `StoreCommit.Group.ReplaceOne` | eventstore/pebbledb2/store.go:605-701 | one replace against the in-group ledger does what the fold says, on every branch |
| `StoreCommit.PebbleStore.CommitGroup` | eventstore/pebbledb2/store.go:508-800 | after a group the locator, body, index and signature keys are exactly those derived from the surviving events, the replies are the fold's, and each counter moved by the logged amount |
| `StoreLaws.SelfMatch` | eventstore/pebbledb2/store.go:938-940 | an event is among the versions of its own key if and only if it is not addressable or carries a "d" tag |
| `StoreLaws.StepSound` | eventstore/pebbledb2/store.go:600-763 | every step of the fold keeps the ledger consistent with the events, and the counters drift only by a replace let in with an event stored already |
| `StoreLaws.GroupCounts` | eventstore/pebbledb2/store.go:585-598 | over any group the logged movement of a counter is the change in the number of stored events in its bucket plus the number of times one was stored again |
| `StoreLaws.CountedIff` | eventstore/pebbledb2/store.go:666-684 | a group keeps exact counters exact if and only if it lets in no replace with an event that is stored at that point |
| `StoreLaws.DoublesUntagged` | eventstore/pebbledb2/store.go:612-630 | only an addressable event without a "d" tag, stored before the group, can be let in so |
| `StoreWriter.WriterLoop` | eventstore/pebbledb2/store.go:456-506 | over any sequence of groups the tables stay right, the replies are the folds', each counter runs ahead by what was stored twice, and exact counters stay exact if and only if nothing was |
| `StoreWriter.LoneReplaceCounts` | eventstore/pebbledb2/store.go:626-701 | a replace leaves the counters exact if and only if it does not bring a stored event without a "d" tag past every version it can find |
| `StoreWriter.DoubleCountExample` | eventstore/pebbledb2/store.go:938-940 | an addressable event without tags, replaced by itself, is stored once and counted twice |
| `StoreCounts.CountAuthorKinds` | eventstore/pebbledb2/query.go:207-230 | COUNT of authors and kinds without positive bounds, read from counters, is the number of events the plan's reading of the filter matches |
| `StoreCounts.LaxMatches` | eventstore/pebbledb2/query.go:152-195 | reading empty lists and bounds that are not positive as absent admits all that the filter matches, and more only if the filter matches nothing |
| `StoreSequential.LoneReplace` | eventstore/pebbledb2/store.go:878-891 | a replace alone is refused by a version as new, or else displaces every version of its key and returns them |
| `StoreEffects.ReplaceEffect` | eventstore/pebbledb2/store.go:605-700 | a lone replace, in terms of fields: kinds 30000 to 39999 compete by author, kind and "d" value, all others by author and kind; if every competitor is older they all go, are listed newest first, and everything else stays, and otherwise nothing changes |
| `StoreEffects.SaveEffect` | eventstore/pebbledb2/store.go:703-734 | a lone save adds the event under its id, or is refused if the id is stored |
| `StoreEffects.DeleteEffect` | eventstore/pebbledb2/store.go:735-763 | a lone delete takes the stored event with that id and no other |
| `StoreEffects.ReplaceEvent` | eventstore/pebbledb2/store.go:891-899 | kinds 0, 3, 10000 to 19999 and 30000 to 39999 are replaced, every other kind is saved |
| `StoreInterference.FoldTracks` | eventstore/pebbledb2/store.go:522-763 | what the seen sets and the ledger hold after each request, and how the next is answered, in terms of the requests and the events stored before the group |
| `StoreInterference.VictimsListed` | eventstore/pebbledb2/store.go:637-652 | a winning replace removes, newest first, the stored versions, or the last winner of its key, unless they are gone to the batch |
| `StoreInterference.GroupExact` | eventstore/pebbledb2/store.go:600-763 | any group of saves, deletes and replaces answers as its requests one by one if and only if no request is interfered with, and then leaves the same events: those that are live |
| `StoreHistory.BatchingExact` | eventstore/pebbledb2/store.go:456-506 | a stream cut into groups in any way gives the replies of its requests one by one if and only if none is interfered with in its group, and then the same events |
| `StoreHistory.GroupIsSequential` | eventstore/pebbledb2/store.go:522-763 | an orderly group, replaceable kinds arriving as replaces with one "d" value and the others as saves, is never interfered with: it leaves the same events and gives the same replies as its requests one by one |
| `StoreHistory.BatchingIsInvisible` | eventstore/pebbledb2/store.go:452-506 | so however a stream of orderly requests is cut into groups, the outcome and the replies are the same |
| `StoreHistory.NewestSurvives` | eventstore/pebbledb2/store.go:878-890 | whatever groups the writer makes of an orderly stream, at most one event survives per author, kind and "d" value; it was received, and none received under its key is newer |
| `StoreEffects.NoTwoSurvive` | eventstore/pebbledb2/store.go:605-700 | after any stream of such requests no two stored events share author and kind if the kind is 0, 3 or 10000 to 19999, nor author, kind and a "d" value if it is 30000 to 39999 |
| `StoreHistory.SaveDeleteExact` | eventstore/pebbledb2/store.go:703-762 | a group of saves and deletes answers as its sequence would if and only if no request undoes an earlier one that took effect |
| `StoreHistory.SavedVersionEscapes` | eventstore/pebbledb2/store.go:613-624 | a version saved in the same group escapes a replace that would have removed it had the two been committed in turn |
| `StoreHistory.DeletedVersionRefuses` | eventstore/pebbledb2/store.go:613-630 | a version deleted in the same group still refuses a replace, whose event is lost |
| `StoreHistory.UntaggedGoes` | eventstore/pebbledb2/store.go:647-656 | an addressable event without a "d" tag is removed by the next replace of its group, and would stay otherwise |
| `StoreRollup.FilterRun.SumCounters` | eventstore/pebbledb2/query.go:382-396 | adding up the counters that exist under a prefix counts the events whose truncated number is in the range |
| `StoreRollup.FilterRun.ScanCountKeys` | eventstore/pebbledb2/query.go:398-421 | an index scan counts its range, and fails exactly when the budget runs out first |
| `StoreRollup.FilterRun.CountRollup` | eventstore/pebbledb2/query.go:258-380 | the sums and scans, including the wrapping 32-bit comparisons, add up to RollupValue; narrow ranges are left to a scan |
| `StoreRollupLaws.RollupBounded` | eventstore/pebbledb2/query.go:258-380 | below 3600 * 2^32 the full days, full hours and edge hours are a disjoint cover, except that a kind filter loses the later edge hour of each edge day |
| `StoreRollupLaws.TimeOnlyExact` | eventstore/pebbledb2/query.go:258-380 | a count by time alone is exact |
| `StoreRollupLaws.KindsExactIff` | eventstore/pebbledb2/query.go:332-369 | a count by kind is exact if and only if no event of those kinds lies in a later edge hour |
| `StoreRollupLaws.LastHourWraps` | eventstore/pebbledb2/query.go:309-316 | from the last representable hour on everything earlier is counted as well |
| `StoreRollupLaws.RollupUnbounded` | eventstore/pebbledb2/query.go:263-316 | without an upper bound the events of one alias window of hours are counted a second time |
| `StoreRollupLaws.RollupLastDay` | eventstore/pebbledb2/query.go:263-380 | from the last day before 3600 * 2^32 on, an unbounded count loses all hours after the first, and in the last hour adds the first hours of all |
| `StoreRollupLaws.UnboundedExactIff` | eventstore/pebbledb2/query.go:263-316 | so an unbounded count by time alone is exact if and only if the alias window is empty, and in the last day if and only if what is lost and what is added are as many |
| `StoreRollupLaws.CountByTime` | eventstore/pebbledb2/query.go:234-238 | the rollup COUNT by time alone is the number of events the filter matches plus a stated surplus, zero below the last numbered hour between two bounds |
| `StoreRollupLaws.CountByKind` | eventstore/pebbledb2/query.go:234-238 | the rollup COUNT by kind between two bounds is the number of events the filter matches less those of the later edge hours |
| `StoreMeaning.BoundedDriftIs` | eventstore/pebbledb2/query.go:258-380 | the rollup between two bounds departs from the count by the later edge hours of the kinds, or in the last numbered hour by everything before it, in seconds and without naming the counters |
| `StoreMeaning.OpenDriftIs` | eventstore/pebbledb2/query.go:258-380 | without an upper bound it departs by the events of 3642132214800 to 3642132293999, less the edge hour or all but the first hour of the last day, plus the first seven hours of all in the last hour |
| `StoreSources.BuildPrefixes` | eventstore/pebbledb2/query.go:490-572 | the iterators of each plan, with the post-check where one is asked for, select exactly the matches of the filter, or unchecked of its lax reading; none if the driving tag is not indexed; and are as many as the plan says |
| `StoreSources.DrivingTag` | eventstore/pebbledb2/query.go:527-542 | the driving tag has the fewest values, ties going to the first name |
| `StoreMerge.PopNew` | eventstore/pebbledb2/query.go:632-639 | popping the greatest head takes the next position of the timeline of the union |
| `StoreMerge.PopRepeat` | eventstore/pebbledb2/query.go:641-643 | skipping a repeat of the last position loses nothing |
| `StoreCursor.FilterCursor.Load` | eventstore/pebbledb2/query.go:782-813 | signature test where there is a signature, body load, filter and text check together accept exactly what passes |
| `StoreCursor.FilterCursor.Collect` | eventstore/pebbledb2/query.go:729-761 | a batch holds up to 32 distinct positions, the next of the timeline; it stops short only at the end or over budget |
| `StoreCursor.FilterCursor.Advance` | eventstore/pebbledb2/query.go:681-866 | each advance yields the next hit, or stops because none is left, the limit is reached or the budget is spent |
| `StoreCursor.FilterCursor.AdvanceOne` | eventstore/pebbledb2/query.go:612-651 | the same for counts that need no bodies |
| `StoreQuery.FoundExactAlways` | eventstore/pebbledb2/query.go:152-195 | a query finds what matches in every store if and only if the bounds leave no time, or the driving tag is indexed and the candidates are checked or the filter is plain, or it is not indexed and the filter is not plain |
| `StoreQuery.UnindexedTag` | eventstore/pebbledb2/query.go:526-550 | an event with a tag of a name that is not indexed matches and is not found |
| `StoreQuery.EmptyAuthors` | eventstore/pebbledb2/query.go:152-182 | an empty list of authors matches no event, yet a scan by kind finds it |
| `StoreQuery.NegativeUntil` | eventstore/pebbledb2/query.go:184-195 | a negative upper bound matches no stored event, yet a scan by kind finds it |
| `StoreQuery.QueryScan` | eventstore/pebbledb2/query.go:45-91 | a query streams exactly the first `limit` events it is to find, newest first, unless its iterators hold more keys than the budget |
| `StoreQuery.QueryVersions` | eventstore/pebbledb2/store.go:933-957 | the search for versions run through the cursor returns all of them unless the budget is smaller than the number of stored events |
| `StoreQuery.CountScan` | eventstore/pebbledb2/query.go:239-250 | a scanning COUNT is the number of events a query would find |
| `StoreQuery.RunIDs` | eventstore/pebbledb2/query.go:891-980 | an ids filter gives the same answer by point lookups |
| `StoreMeaning.MeetsIff` | filter.go:31-69 | the filter a query is compared with, restriction by restriction: ids, kinds, authors, a tag with one of the values under every name, both bounds unless zero, and the text but for the case of letters |
| `StoreMeaning.AnswerIs` | eventstore/pebbledb2/query.go:45-91 | an answer holds stored events that meet the filter, each later than the next, at most limit of them; any other that meets it comes after a full list |
| `StoreMeaning.HitsCounted` | eventstore/pebbledb2/query.go:93-107 | and the count is the number of events that meet it |
| `StoreMeaning.CaseOfContents` | eventstore/searcher/searcher.go:7-16 | writing contents or pattern in other letters, A to Z for a to z or back, changes no answer |
| `StoreService.QueryEvents` | eventstore/pebbledb2/query.go:45-91 | whichever path a filter takes and whichever signatures there are, the answer is what is to be found; where no list is empty, every tag indexed and the upper bound not negative it is the answer the fields of the filter ask for; enough budget rules out an error |
| `StoreService.CountEvents` | eventstore/pebbledb2/query.go:93-107 | COUNT of a filter with an id, author, tag value or text is the number of events to be found; of kinds and times alone, below 3600 * 2^32, it is that number plus the stated drift; and for an ordinary filter that is the number of events that meet it, plus the drift |
| `Bloom.ContentBloom` | eventstore/pebbledb2/bloom.go:59-87 | the signature has exactly the bits of the content's trigrams, early exit on saturation included |
| `Bloom.BloomSetCount` | eventstore/pebbledb2/bloom.go:42-57 | adds the bits of a trigram and says whether any was new |
| `Bloom.BuildSearchGrams` | eventstore/pebbledb2/bloom.go:89-117 | distinct trigrams of the lowered pattern, all of them unless the cap of sixteen was met |
| `Bloom.BloomMaybeContains` | eventstore/pebbledb2/bloom.go:119-138 | passes exactly the signatures that hold every bit of every trigram |
| `Bloom.SignatureSound` | eventstore/pebbledb2/bloom.go:119-138 | content that contains the pattern is never denied |
| `Bloom.SignatureIs` | eventstore/pebbledb2/bloom.go:59-87 | content of three bytes or more has a signature: the four probes of each of its lowered trigrams |
| `Bloom.FnvVectors` | eventstore/pebbledb2/bloom.go:23-40 | the two hashes on known strings: FNV-1a with 64 bits, and the same from the other offset |
| `Bloom.ProbesOfAbc` | eventstore/pebbledb2/bloom.go:42-57 | the four bits of "abc": 843, 998, 129 and 284 |
| `Bloom.MaskIs` | eventstore/pebbledb2/bloom.go:48-51 | bit b lies in byte b / 8 with the value 2^(b % 8) |
| `StoreSearch.SplitRange` | eventstore/pebbledb2/search.go:20-48 | the unsigned 64-bit arithmetic never wraps: the pieces are nonempty, adjacent and cover the range |
| `StoreSearch.OnePiece` | eventstore/pebbledb2/search.go:20-48 | every point of the range lies in a piece, and pieces do not overlap |
| `StoreSearch.DataTimeRange` | eventstore/pebbledb2/search.go:50-70 | oldest and newest creation time bound every stored event |
| `StoreSearch.SearchTasks` | eventstore/pebbledb2/search.go:72-98 | at most eight shards hold every stored event the bounds admit |
| `StoreSearch.MergeFinds` | eventstore/pebbledb2/search.go:247-254 | the signature stream is at the current body exactly when the body has a signature |
| `StoreSearch.Searching.SearchTask` | eventstore/pebbledb2/search.go:185-297 | a shard visits each body once and reports exactly its hits, or the newest `limit` of them |
| `StoreSearch.SameTop` | eventstore/pebbledb2/search.go:169-177 | truncating the shards and then the whole truncates the whole |
| `StoreSearch.SearchRun` | eventstore/pebbledb2/search.go:100-183 | text search returns what brute force would, whatever signatures exist: the answer that the bounds and the text, but for the case of letters, ask for, and their number |
| `KeyBytes.BigEndianOrder` | eventstore/pebbledb2/keys.go:54-59 | big-endian byte order is number order |
| `KeyBytes.KeyLayout` | eventstore/pebbledb2/keys.go:12-24 | every key by offsets: its first byte, the fields and where they stand, and its length, as the table of the key layout says |
| `KeyBytes.SketchLayout` | eventstore/pebbledb2/keys.go:128-142 | the same for the keys of sketches |
| `KeyBytes.TagPrefixFree` | eventstore/pebbledb2/keys.go:100-111 | tag prefixes are a prefix-free code |
| `KeyBytes.PrefixFree` | eventstore/pebbledb2/keys.go:78-113 | no index prefix begins another |
| `KeyBytes.KeysInjective` | eventstore/pebbledb2/keys.go:12-209 | distinct keys of all key spaces but the sketches have distinct bytes |
| `KeyBytes.SketchesApart` | eventstore/pebbledb2/keys.go:128-142 | and so have the keys of HyperLogLog sketches, among each other and from all others |
| `KeyBytes.IndexOrder` | eventstore/pebbledb2/keys.go:315-322 | under one prefix byte order is timeline order |
| `KeyBytes.TailReadBack` | eventstore/pebbledb2/query.go:453-458 | timestamp and id are read back from the end of a key |
| `KeyBytes.PrefixSuccessor` | eventstore/pebbledb2/keys.go:359-371 | keys with the prefix are exactly those from the prefix up to its successor |
| `KeyBytes.TimeBounds` | eventstore/pebbledb2/keys.go:324-341 | the bounds of a time range, the unbounded case included |
| `KeyBytes.InTimeBounds` | eventstore/pebbledb2/keys.go:324-341 | an index key lies within the bounds if and only if it was built from that prefix with a time in the range |
| `KeyBytes.CounterBounds` | eventstore/pebbledb2/keys.go:343-357 | the bounds of a range of counter numbers, the largest number included |
| `KeyBytes.InCounterBounds` | eventstore/pebbledb2/keys.go:343-357 | of all keys of the database those within the bounds are the counters of that family with a number in the range |
| `KeyBytes.BodiesComeLast` | eventstore/pebbledb2/search.go:53-69 | the greatest key of the database is its newest body, which is what the open-ended seek relies on |
| `Horspool.Searcher.constructor` | eventstore/searcher/searcher.go:24-38 | the skip table built in place is sound for as much of the folded pattern as the pattern is long |
| `Horspool.Searcher.Contains` | eventstore/searcher/searcher.go:40-71 | true exactly when the needle is not empty and at some place each byte of the text is the byte of the needle, or is 0x41 to 0x5A and 32 below it |
| `Horspool.FoldsAlikeIff` | eventstore/searcher/searcher.go:24-71 | in every text this is an ASCII search if and only if the two folds agree on the pattern |
| `Horspool.NoMatchSkipped` | eventstore/searcher/searcher.go:68 | no shift passes over an occurrence |
| `IndexIterators.Iterator.Pull` | eventstore/boltdb/helpers.go:47-75 | pulling moves keys from what is left to what waits, makes progress, and leaves nothing newer than the last key behind |
| `IndexIterators.Iterator.Release` | eventstore/boltdb/query.go:117-124 | swap-deleting takes exactly the waiting keys at or above the threshold |
| `IndexIterators.DueCounts` | eventstore/boltdb/helpers.go:47-75 | the keys due are those with the prefix and a time of at least `since`, each as often as it occurs |
| `IndexIterators.StoppingLosesNothing` | eventstore/boltdb/helpers.go:53-62 | since keys run backwards, an iterator that stops at the first key without the prefix or older than `since` has given every key due |
| `Quickselect.InsertionSort` | eventstore/boltdb/helpers.go:127-133 | sorts the small range and never moves anything across its edges |
| `Quickselect.Partition` | eventstore/boltdb/helpers.go:148-166 | the in-place partition puts the pivot where everything before is at least it and everything after at most it |
| `Quickselect.Select` | eventstore/boltdb/helpers.go:119-178 | permutes the iterators so that the first k were last at times no older than all others, and terminates |
| `Quickselect.Threshold` | eventstore/boltdb/helpers.go:180-189 | the maximum over the first k |
| `Quickselect.ThresholdIsMax` | eventstore/boltdb/helpers.go:180-189 | which after the selection bounds every iterator |
| `ThresholdMerge.Round` | eventstore/boltdb/query.go:109-159 | what a round releases comes after all that was emitted and before all that is left |
| `ThresholdMerge.PullMore` | eventstore/boltdb/query.go:174-186 | every round pulls a key, exhausts an iterator or drops one, and loses nothing |
| `ThresholdMerge.Query` | eventstore/boltdb/query.go:71-190 | the merge terminates and, of all the keys before its cursors that have the prefix and are no older than `since`, each as often as it stands there, emits in non-increasing order of creation the `limit` newest events that pass the checks |
| `ThresholdMerge.PrecedesIs` | utils.go:68-73 | a round is sorted by descending time, then by descending id |
| `Dispatcher.RemovalCompleteIff` | relay/listener.go:92-130 | removing a subscription is complete in every state if and only if its author and kind lists repeat nothing that matters |
| `Dispatcher.UnsafeRemoval` | relay/listener.go:100-119 | for any other filter a state in which the removed subscription stays indexed |
| `Dispatcher.LeftoverYielded` | relay/listener.go:132-209 | after such a removal some event yields the entry left behind as the zero subscription |
| `Dispatcher.RunSound` | relay/listener.go:54-130 | after any sequence of additions and removals the live subscriptions are indexed as they should be, and with safe filters nothing else is |
| `Dispatcher.Dispatcher.AddSubscription` | relay/listener.go:54-90 | the loops link the subscription under each of its keys |
| `Dispatcher.Dispatcher.RemoveSubscription` | relay/listener.go:92-130 | the loops unlink it key by key, early returns included |
| `Dispatcher.Dispatcher.Candidates` | relay/listener.go:132-209 | each live subscription whose filter matches, ids aside, is yielded exactly once, and the zero subscription once for every entry left behind under the author or the kind |
| `Listeners.Relay.AddListener` | relay/listener.go:243-270 | a listener joins while its client is connected; every other subscription stays |
| `Listeners.Relay.Request` | relay/handlers.go:285-302 | a filter with ids adds no listener, any other does |
| `Listeners.Relay.RemoveListenerId` | relay/listener.go:272-290 | exactly the client's listeners with that subscription id go |
| `Listeners.Relay.RemoveClientAndListeners` | relay/listener.go:292-302 | exactly the client's listeners go |
| `Listeners.Relay.NotifyListeners` | relay/listener.go:304-319 | an event is sent once to every listener whose filter matches it in full, and to no other unless an entry was left behind |
| `Listeners.Serve` | relay/listener.go:245-302 | after any calls of the clients the live subscriptions are those asked for and not given up, and with safe filters nothing is left behind |
| `Listeners.ServeAndNotify` | relay/listener.go:245-319 | so after any calls an event goes once to each live listener whose filter matches it, and with safe filters to nobody else |
| `LcsDiff.SplitLines` | nip34/gitnaturalapi/diff.go:261-267 | the lines, each ended, are the text with its last line ended, and hold no 0x0A |
| `LcsDiff.FillTable` | nip34/gitnaturalapi/diff.go:273-288 | the in-place table holds the recurrence |
| `LcsDiff.TableBounds` | nip34/gitnaturalapi/diff.go:278-288 | no common subsequence of two prefixes is longer than its cell |
| `LcsDiff.Backtrack` | nip34/gitnaturalapi/diff.go:290-311 | the walk back collects, in reverse, the operations that the table calls for |
| `LcsDiff.ScriptIs` | nip34/gitnaturalapi/diff.go:290-311 | which rebuild both sides and keep as many lines as the last cell says |
| `LcsDiff.ScriptPlaced` | nip34/gitnaturalapi/diff.go:290-311 | and are placed: read from the end, two like last lines are kept; otherwise the old one is deleted if a longest common subsequence can do without it, and the new one added if none can |
| `LcsDiff.OnlyOne` | nip34/gitnaturalapi/diff.go:290-311 | no two different lists of operations are so placed: ties are settled in one way |
| `LcsDiff.AdditionsFirst` | nip34/gitnaturalapi/diff.go:290-318 | so an addition never directly follows a deletion |
| `LcsDiff.LcsOperations` | nip34/gitnaturalapi/diff.go:269-318 | the operations rebuild the old and the new lines, keep a longest common subsequence, and are the one list so placed |
| `EventSerialization.HasSpecialIs` | event.go:165-179 | the word test is true exactly when one of the eight bytes is special |
| `EventSerialization.WordIsClean` | event.go:195-197 | on a loaded word, exactly when one of the eight characters needs an escape |
| `EventSerialization.AppendJSONString` | event.go:181-230 | the eight-byte loop appends the byte-by-byte escape |
| `EventSerialization.WriteJSONString` | event.go:232-278 | the hash is fed the same bytes |
| `EventSerialization.AppendSerialized` | event.go:90-124 | appends the canonical serialization |
| `EventSerialization.SerializedHash` | event.go:126-163 | the stream hashed into the id is the same serialization |
| `EventSerialization.SerializationInjective` | event.go:90-124 | two events with the same serialization agree on author, time, kind, tags and content |
| `EventSerialization.EscapeByteIs` | event.go:73-88 | the escapes in numbers: 0x22, 0x5C, 0x0A, 0x0D and 0x09 get a backslash and their letter, every other byte stays |
| `EventSerialization.HexIs` | event.go:90-97 | keys are written as pairs of lower-case hexadecimal digits |
| `EventSerialization.DecimalIs` | event.go:96-98 | times are written in decimal digits that read back as the number, without leading zeros, after a minus sign if negative |
| `EventSerialization.EscapeMeetsStandardIff` | event.go:73-88 | the escapes are those of NIP-01 if and only if the text has neither a backspace nor a form feed |
| `EventSerialization.SerializeMeetsStandardIff` | event.go:90-124 | the serialization is that of NIP-01 if and only if neither the content nor any item of a tag has one |
| `Nip44Padding.PaddingSize` | nip44/nip44.go:222-229 | padding covers the text and adds less than 32 bytes or less than a quarter |
| `Nip44Padding.PaddingMonotone` | nip44/nip44.go:222-229 | a longer text is never padded to a shorter length |
| `Nip44Padding.PaddingIdempotent` | nip44/nip44.go:222-229 | a padded length is its own padded length |
| `Nip44Padding.PaddingLeast` | nip44/nip44.go:222-229 | up to 256 bytes the padded length is the least multiple of 32 that covers the text; above 2^k, for k from 8 on, up to 2^(k+1) the least multiple of 2^(k-2) |
| `Nip44Padding.HeaderIs` | nip44/nip44.go:70-78 | lengths below 65536 are written in two bytes, others in six of which the first two are zero, most significant byte first |
| `Nip44Padding.Pad` | nip44/nip44.go:61-78 | the buffer holds header, text and zeros; the empty text is refused |
| `Nip44Padding.RoundTripIff` | nip44/nip44.go:61-78 | unpadding returns the text if and only if its length fits in 32 bits, across the change of header at 2^16 |
| `Nip44Padding.AcceptedIff` | nip44/nip44.go:145-161 | a buffer yields a text if and only if it is a header for its length, the text, and anything up to the padded length |
| `Nip44Padding.CanonicalIff` | nip44/nip44.go:145-161 | a buffer is the padding of a text if and only if it is accepted as that text, its header is the short one where it can be, and the rest is zero |
| `Nip44Padding.LaxExample` | nip44/nip44.go:145-161 | a buffer padded with nines is accepted |

## Left out

- NegentropyProtocol.ClosedRunIsExact: is stated for runs without fingerprint collisions, since the fingerprint is 16 bytes of a hash; termination needs no such condition.
- NegentropyNode.Negentropy.Answer: the frame size limit is taken as unlimited, so an id list is never cut short.
- NegentropyNode.Negentropy.ReconcileAux: the frame size limit is taken as unlimited, so the branch that cuts a reply short is not modelled; hexadecimal framing of messages is left out, and lengths that would panic the reader are errors.
- NegentropySync.Synchronise: channels are sequences of the ids sent on them; goroutines and their scheduling are not modelled.
- Accumulator.SumExact: the digest taken of the sum is not modelled.
- StoreCommit.PebbleStore.CommitGroup: assumes that an id names one event, and that the engine does not fail; counters are unbounded integers; HyperLogLog sketches are not written.
- StoreCommit.Group.WriteEvent: the HyperLogLog merges written beside the rows are not modelled.
- StoreCommit.PebbleStore.FindReplaceVersions: scans without a budget, as does the fold; StoreQuery.QueryVersions gives the same search through the cursor, which can fail only if the budget is smaller than the number of stored events. A replace refused for that error is not modelled.
- StoreWriter.WriterLoop: the collection of requests into groups by time and size is a parameter.
- StoreHistory.GroupIsSequential: is stated for orderly requests: replaceable and addressable kinds arrive as replaces, others as saves, no delete among them, and an arriving addressable event has a "d" tag and one "d" value; of the stored events under a replaced author and kind it asks only that none has two "d" values. StoreInterference.GroupExact covers all other groups.
- StoreHistory.BatchingIsInvisible: is stated for the same requests; StoreHistory.BatchingExact covers all other streams.
- StoreHistory.NewestSurvives: is stated for the same requests; a stored event keeps a newest version if it can be found under its own key.
- StoreRollupLaws.RollupBounded: upper bounds from 3600 * 2^32 on, other than none, and starting times from there on are covered by the value of StoreRollup.FilterRun.CountRollup only.
- StoreRollupLaws.RollupUnbounded: starting times in the last day before 3600 * 2^32 are covered by StoreRollupLaws.RollupLastDay.
- StoreRollupLaws.CountByTime: the same bounds as StoreRollupLaws.RollupBounded.
- StoreSources.BuildPrefixes: a driving tag is assumed to fit the one and two length bytes of a tag key; longer names and values would be truncated.
- StoreQuery.QueryScan: the same assumption on the driving tag, and a search text on which the Unicode and the ASCII fold agree.
- StoreQuery.CountScan: the same assumptions.
- StoreService.QueryEvents: the same assumptions; the limit is the effective one, after clamping.
- StoreService.CountEvents: the same assumptions; an error of the rollup path under a small budget is not characterised beyond StoreRollup.FilterRun.ScanCountKeys.
- StoreCursor.FilterCursor.Advance: bodies of a batch are loaded in index order; `container/heap` is extract-max.
- Horspool.Searcher.constructor: `strings.ToLower` is a parameter; a fold shorter than the pattern, on which the code would panic, is not modelled.
- StoreQuery.RunIDs: the same assumption on the search text.
- StoreSearch.SearchRun: the same assumption on the search text; with a pattern on which the folds differ, the signature test and the body test ask for different texts. Shards run one after the other, and sorting is the unique descending arrangement of distinct positions.
- ThresholdMerge.Query: looking up an entry and its post-checks are one function of the entry, consistent with the index on creation times; `limit` and the batch size are at least 1. Badger's iterator notices its end one pull later and is not modelled apart.
- Listeners.Relay.NotifyListeners: the hook that may prevent a broadcast is taken as absent; what sending the zero subscription does is not modelled.
- Dispatcher.Dispatcher.Candidates: the order within one index is not specified; locking is not modelled.
- Nip44Padding.PaddingSize: logarithms are exact; the code takes them in floating point.
- EventSerialization.SerializedHash: SHA-256 is a stream that is fed.
- Websocket and HTTP plumbing, cryptography, the storage engines, codecs and statistics are not part of this model.
- The filter planners of Bolt, Badger and the first Pebble store, the HyperLogLog estimator, slice stores, NIP-specific parsers and wallet flows are not modelled.
