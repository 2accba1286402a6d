# BugHan, modelled and verified

BugHan is a self-hosted error tracker that speaks the Sentry protocol. This project models its ingest
transaction, its source-map engine, its background protocols and its normalisation code in Dafny, and proves
what they promise over all inputs, all runs or all interleavings.

Each component has its own module. Tables are maps and sets, and one SQL statement is one atomic step. A loop
of the program is a method proved equal to a specification function; what the program promises is then
proved about that function, or about a step relation and every run of it.

| file | component |
|---|---|
| `IngestDb.dfy`, `IngestLaws.dfy` | the rows an error event touches, statement by statement; the law that ties every counter to the stored events |
| `Interleaving.dfy`, `IngestSignals.dfy` | any number of ingest transactions under READ COMMITTED; what their alert signals tell |
| `Pipeline.dfy` | one envelope in one transaction, and its accounting |
| `Hll.dfy`, `Sessions.dfy`, `SessionRaces.dfy` | HyperLogLog sketches, their 6-bit packing, the session rollups that store and merge them, and sessions delivered at once |
| `Vlq.dfy`, `SourceMap.dfy`, `LineSearch.dfy`, `Symbolicate.dfy` | Base64 VLQ and mappings (ECMA-426, sections "Base64 VLQ" and "Mappings structure"), lookup, one symbolicated frame |
| `Resolve.dfy`, `PathLaws.dfy`, `EventView.dfy`, `ArtifactKey.dfy`, `EventCache.dfy` | the artifact index, what paths and references become, one event's view, the cache key and the write-back cache |
| `Migrate.dfy`, `Rollup.dfy`, `JobQueue.dfy`, `AlertDelivery.dfy`, `AuthCache.dfy` | migrations, hourly rollups, the job queue, alert quiet periods, the auth cache |
| `Envelope.dfy`, `Grouping.dfy`, `BundlePath.dfy`, `Fingerprint.dfy` | envelope framing and grouping keys |
| `SelfTime.dfy` | the trace view's self-time breakdown |
| `Text.dfy`, `Powers.dfy`, `Wrappers.dfy` | shared strings, powers of two, Option and Result |

## Conventions

- A Go string is a byte sequence: a Dafny `string` holds one byte per character. Case folding and trimming
  are those of ASCII.
- JSON, base64 and URL decoding, hashing, number scanning, `EqualFold` and `percentile_cont` are function
  parameters. Where a theorem needs more of them (a collision-free hash, header
  lines that are read back), it says so in its `requires`.
- Clock readings are parameters or steps; instants are integers in nanoseconds (seconds in `IngestDb.dfy`).
- `int64` arithmetic wraps explicitly (`Powers.Wrap64`) in the VLQ decoder, the mapping deltas and the job backoff.
- The random id of an issue row stands for its (project, fingerprint) pair.

## What the code does, where its comments or documents say otherwise

- IsNew and IsRegression come from a status pre-read that takes no lock. They tell what the upsert does, for every
  transaction at every moment of a run, exactly when the committed row never appears, and is never resolved or
  unresolved, while a transaction is between pre-read and upsert (`IngestSignals.SignalsTellExactlyWhen`). Otherwise two
  transactions can both signal IsNew or both IsRegression, and a regression can go unsignalled
  (`IngestSignals.TwoTransactionsSignalNew`, `IngestSignals.TwoTransactionsSignalRegression`,
  `IngestSignals.RegressionGoesUnsignalled`); the creator always signals IsNew (`IngestSignals.CreatorsSignalNew`).
- Sessions load their row's sketches without a lock. Counters are never lost (`SessionRaces.CountersAreNeverLost`); dids
  are kept exactly when no commit changes the sketches between another session's load and its upsert in a way that
  session does not make up for (`SessionRaces.DidsAreKeptExactlyWhen`, `SessionRaces.FirstDidIsLost`).
- `first_seen` is the first arrival (`IngestLaws.FirstSeenIsFirstArrival`); it is the oldest timestamp exactly when no
  later arrival is older (`IngestLaws.OldestIsShownExactlyWhen`).
- A VLQ field survives exactly when its magnitude is below 2^62 (`Vlq.RoundTripExactly`).
- An artifact uploaded without a dist overrides an exact-dist upload of the same name, although exact-dist
  uploads are listed first (`Resolve.BareOverridesExact`).
- Lookup on a line whose columns are out of order can miss the segment a scan would find. It finds it for every column
  exactly when the line is searchable, a condition on the midpoints that some unordered lines meet
  (`LineSearch.LookupIsScanExactlyWhen`, `LineSearch.UnsortedLookupMisses`).
- A name or dist that holds the byte 0x1f gives different artifact sets one cache key; 0x1e alone does not. Among sets
  without 0x1f the key is faithful (`ArtifactKey.SameKeyExactlyWhenSameRows`); among all, every set of two or more rows
  shares its key with a single row (`ArtifactKey.KeyIsItsOwnExactlyWhen`).
- The byte 0x1f inside an SDK fingerprint part reads like two parts, so every fingerprint of several parts shares its
  key with one of a single part (`Fingerprint.SdkGroupsExactlyWhen`, `Fingerprint.SeparatorsMergeGroups`); a NUL in a
  title does the same to title and culprit (`Fingerprint.DefaultGroupsExactlyWhen`, `Fingerprint.NulMovesTheBorder`).
- A migration with a version below 1 is never applied (`Migrate.WholeListExactlyWhen`).
- The first rollup pass looks back two hours, not to the earliest raw row: it drains the raw rows exactly when none
  started more than two hours before the current hour (`Rollup.FirstPassDrainsExactlyWhen`), and no later pass makes up
  for it (`Rollup.BacklogIsNeverDrained`). A repeated pass is a no-op exactly when the watermark was missing or at most
  a day behind the current hour plus one (`Rollup.RepeatIsNoOpExactlyWhen`).
- Overlapping rollup passes can move the watermark back or skip hours (`Rollup.SlowPassMovesBack`,
  `Rollup.FirstPassesSkip`); exactly which store orders avoid that is `Rollup.NobodyBehindExactlyWhen` and
  `Rollup.CoveredExactlyWhen`, and one pass at a time does (`Rollup.OneAtATimeIsInOrder`).
- The backoff duration overflows from the 29th attempt on (`JobQueue.BackoffIsExactWhen`), and the 29th retry would
  be due at once (`JobQueue.RetriesAreLaterExactlyWhen`); jobs are enqueued with three attempts.
- Spans that share an id are subtracted once for each: the self-times fall short of the duration by exactly that excess
  (`SelfTime.RawTimesAddUp`, `SelfTime.ExtraExactlyWhen`).

## Model

| member | source | states |
|---|---|---|
| IngestDb.EventOverlayIsApply | internal/ingest/store.go:65-97 | the seven statements of an event, each reading committed rows below the transaction's own, amount to one atomic update of the four tables |
| IngestDb.RunIsDeliver | internal/ingest/store.go:65-110 | publishing a transaction's rows equals delivering its events one after the other |
| IngestDb.DeliverConcat | internal/ingest/store.go:21-110 | delivering two batches in turn equals delivering their concatenation |
| IngestLaws.ApplyKeepsDerived | internal/ingest/store.go:65-164 | one event, duplicate or not, keeps issue, user and rollup rows exactly those of the stored events: each rollup row starts on a whole hour and counts its issue's stored events of the 3600 seconds from there, counts equal cardinalities, last_seen is the newest timestamp and first_seen one of the timestamps |
| IngestLaws.DeliverKeepsDerived | internal/ingest/store.go:65-164 | every sequence of deliveries keeps that law |
| IngestLaws.HoursAreSpans | internal/ingest/store.go:92-97 | rows counted by the hour of each event start on whole hours and count the events of the 3600 seconds from there |
| IngestLaws.EventsHaveTheirHour | internal/ingest/store.go:92-97 | under that law every stored event falls into the 3600 seconds of some rollup row of its issue |
| IngestLaws.SetStatusKeepsDerived | internal/httpapi/issues.go:834-836 | a triage action that rewrites a status keeps that law |
| IngestLaws.CountsAgree | internal/ingest/store.go:92-97 | an issue's count is the sum of its hourly rollups and the number of its accepted events; user_count is the number of its user rows |
| IngestLaws.RedeliveryIsNoOp | internal/ingest/store.go:70-79 | redelivering an event later in any run changes nothing at all |
| IngestLaws.DeliverAbsorbs | internal/ingest/store.go:65-79 | the event table after a run is the old rows plus the first occurrence of each new key, whatever the order |
| IngestLaws.StatusesAfter | internal/ingest/store.go:131-138 | over every run of deliveries a resolved issue that gets a new event ends unresolved and regressed, and any other keeps status and substatus; first_seen of an existing issue never changes |
| IngestLaws.SameEventsSameCounters | internal/ingest/store.go:85-104 | tables under the law with equal event rows agree on user rows, rollups, counts and last_seen |
| IngestLaws.OrderIsForgotten | internal/ingest/store.go:65-110 | the same events in any order and repetition give the same events, user rows, rollups, counts, last_seen, statuses and substatuses |
| IngestLaws.FirstSeenIsFirstArrival | internal/ingest/store.go:130-138 | after any deliveries a new issue exists exactly when one of its events arrived, with the first such event's timestamp as first_seen |
| IngestLaws.OldestIsShownExactlyWhen | internal/ingest/store.go:130-138 | first_seen is the oldest timestamp of the issue's events exactly when no arrival is older than the first |
| IngestLaws.FirstSeenAgreesExactlyWhen | internal/ingest/store.go:130-138 | two orders of the same events agree on first_seen exactly when the issue was there before or their first arrivals are equally old |
| IngestLaws.LastArrivalIsShown | internal/ingest/store.go:134-136 | an issue shows level, title and culprit of the event that arrived last, whatever its timestamp |
| Interleaving.StatementFrame | internal/ingest/store.go:127-161 | a commit that shares no row with a statement's result does not change what the statement writes |
| Interleaving.ForeignCommitKeepsInStep | internal/ingest/store.go:65-164 | another transaction's commit leaves an active transaction's rows what its statements would write on the new tables |
| Interleaving.RunKeepsInv | internal/ingest/store.go:65-164 | in every interleaving the committed tables are the commit log replayed and active transactions hold disjoint rows |
| Interleaving.CommitsAreSerial | internal/ingest/store.go:65-164 | every interleaving commits what the same commits would do serially in commit order |
| Interleaving.CommittedCountersAgree | internal/ingest/store.go:65-104 | in each committed state of every interleaving, with rollbacks anywhere, count, rollup sum, event number and user rows agree for every issue |
| Interleaving.InterleavingIsForgotten | internal/ingest/store.go:65-110 | two interleavings that commit the same events, however split, ordered or repeated, agree on every counter |
| IngestSignals.CreatorsSignalNew | internal/ingest/store.go:117-142 | every issue row that appears was created by a committed transaction that signalled IsNew |
| IngestSignals.SignalsTellExactlyWhen | internal/ingest/store.go:117-143 | for every run and issue: at no moment has a wrong signal been logged, or would an active transaction left alone log one, exactly when no commit or triage changes what the pre-read looks at while a transaction is between pre-read and upsert |
| IngestSignals.CompletionIsCommitted | internal/ingest/store.go:65-143 | every run goes on to one in which a given active transaction, left alone, commits exactly those signals |
| IngestSignals.AloneSignalsNewExactly | internal/ingest/pipeline.go:39-39 | in every run in which no two transactions with events of an issue are active before its row is committed, each of its signals says IsNew exactly when that event created the row |
| IngestSignals.AloneSignalsRegressionExactly | internal/ingest/pipeline.go:40-40 | when such transactions exclude each other while the row is missing or resolved, and no triage falls between a pre-read and its upsert, IsRegression is signalled exactly when the event flipped the row from resolved |
| IngestSignals.TwoTransactionsSignalNew | internal/ingest/store.go:118-123 | for any two first events of an issue, a run in which both transactions signal IsNew and one of them did not create the row |
| IngestSignals.TwoTransactionsSignalRegression | internal/ingest/store.go:118-138 | for any two events of a resolved issue, a run in which both transactions signal IsRegression and only one flipped the row |
| IngestSignals.RegressionGoesUnsignalled | internal/ingest/store.go:118-138 | a run in which an issue is resolved after the pre-read, its row is marked regressed and no regression is signalled |
| Pipeline.IngestStore.UpsertIssue | internal/ingest/store.go:117-164 | the new issue and user rows, and the IsNew and regression flags |
| Pipeline.IngestStore.StoreEvent | internal/ingest/store.go:65-110 | all four tables change by the serial effect of the event, which keeps the law above; IsNew says that the issue had no row, IsRegression that it was resolved; a key conflict touches nothing and signals nothing |
| Pipeline.IngestStore.Process | internal/ingest/pipeline.go:48-112 | an envelope stores all its items or, when an item is malformed or a statement or the commit fails, leaves every row as it was |
| Pipeline.EveryItemCountedOnce | internal/ingest/pipeline.go:27-112 | accepted, ignored, unknown and duplicates add up to the item count; one signal per stored event |
| Pipeline.EachCountSays | internal/ingest/pipeline.go:56-104 | duplicates are the event and transaction items whose key was stored or came earlier in the envelope, accepted the other supported ones, ignored the listed types, unknown all the rest |
| Pipeline.UnknownTypesAreCounted | internal/ingest/pipeline.go:100-108 | an unknown type's counter grows by its number of items, and no other type's counter moves |
| Pipeline.EnvelopeDelivers | internal/ingest/pipeline.go:56-80 | a stored envelope delivers exactly its events to the event tables and keeps their law |
| Pipeline.RedeliveredEnvelope | internal/ingest/pipeline.go:58-65 | an envelope of known events is answered with duplicates only and changes no row |
| Pipeline.StoredOnceMeansPresent | internal/ingest/pipeline.go:58-70 | storing an envelope of events and sending it again is such a case |
| Hll.RankFits | internal/hll/hll.go:38-45 | every hash has rank 1 to 52 or 63, the position of the first one bit of its low 52 bits |
| Hll.HashSplits | internal/hll/hll.go:36-45 | the top twelve bits of a hash choose its register, the position of the first one bit of the other 52 is its rank |
| Hll.InsertAdds | internal/hll/hll.go:36-49 | inserting a hash turns the sketch of a set into the sketch of the set with that hash |
| Hll.JoinIsUnion | internal/hll/hll.go:58-65 | merging two sketches gives the sketch of the union |
| Hll.SubsetIsBelow | internal/hll/hll.go:58-65 | the sketch of a subset is register-wise at most the sketch of the set |
| Hll.SketchIsUnique | internal/hll/hll.go:38-49 | the set of hashes fixes every register |
| Hll.ReachableRegisters | internal/hll/hll.go:38-49 | every register a set can produce is 0 to 52 or 63, so six bits hold it |
| Hll.JoinLaws | internal/hll/hll.go:58-65 | merging is commutative, associative, idempotent and commutes with insertion |
| Hll.PackUnpackInverse | internal/hll/hll.go:90-123 | packing and unpacking are mutually inverse between six-bit registers and 3072-byte blobs |
| Hll.PackLayout | internal/hll/hll.go:90-103 | bit k of the blob, the least significant of each byte first, is bit k mod 6 of register k / 6 |
| Hll.SevenBitsAreLost | internal/hll/hll.go:94-101 | a register of 64 or more would not survive packing |
| Hll.Sketch.InsertHash | internal/hll/hll.go:38-49 | the shifting loop raises the hash's register to its rank and touches no other |
| Hll.Sketch.Merge | internal/hll/hll.go:59-65 | the loop leaves the register-wise maximum |
| Hll.Sketch.MarshalBinary | internal/hll/hll.go:91-103 | the bit-cursor loops write the packed blob |
| Hll.UnmarshalBinary | internal/hll/hll.go:106-123 | the bit-cursor loops restore the registers of a blob of the right size and refuse any other |
| Sessions.SessionStore.StoreSession | internal/ingest/store.go:300-347 | one session: sketches loaded, fed and stored, counters added, each as EachColumnCountsItsOutcome says; an unreadable blob is an error and changes nothing |
| Sessions.SessionStore.StoreAggregates | internal/ingest/store.go:398-434 | at most 100 entries add to their rows and leave the sketches alone; more are refused, a bad start ends the item there with an error |
| Sessions.BlobsAreSketches | internal/ingest/store.go:300-377 | after any serial deliveries each row's two blobs unpack to the sketches of the dids delivered to it and delivered to it as crashed |
| Sessions.SameDidsSameSketches | internal/ingest/store.go:302-315 | order and repetition of deliveries leave no trace in the sketches |
| Sessions.CrashedIsBelowDistinct | internal/ingest/store.go:310-315 | the crashed sketch is register-wise at most the distinct one |
| Sessions.OutcomesSplitTotal | internal/ingest/store.go:325-342 | a row's total is its crashed, abnormal, errored and exited counts plus the sessions that ended uneventfully |
| Sessions.EachColumnCountsItsOutcome | internal/ingest/store.go:325-342 | after any deliveries a row's crashed, abnormal, exited and errored columns are the number of its sessions with that status (ok with errors for errored) plus its aggregates' counts, its total counts them all, and its duration is the sum of its sessions' |
| Sessions.AggregatesKeepSketches | internal/ingest/store.go:418-428 | no aggregate item changes a row's sketches |
| SessionRaces.CountersAreNeverLost | internal/ingest/store.go:322-345 | in every interleaving of transactions that deliver sessions and aggregates, the committed counters are those of the serial deliveries in commit order |
| SessionRaces.DidsAreKeptExactlyWhen | internal/ingest/store.go:300-345 | for every run and row: at no moment does the row differ from the serial one, or would a session that has loaded it store other sketches than from a fresh load, exactly when no commit changes the sketches, in a way the session does not make up for, between a load and its upsert |
| SessionRaces.UndisturbedRowsKeepAllDids | internal/ingest/store.go:300-345 | in such a run a row's blobs are the sketches of all committed dids, and of those delivered as crashed |
| SessionRaces.FirstDidIsLost | internal/ingest/store.go:302-345 | for any two sessions of a row with dids in different registers, a run that counts both and stores the second did only |
| Sessions.SketchTable.Add | internal/perf/store.go:420-441 | a release's first sketch is kept, later ones are merged into it in place, and no other release's sketch changes |
| Sessions.ReleaseHealth | internal/perf/store.go:404-462 | the loop folds the selected rows by release, and fails exactly when one of them has an unreadable sketch |
| Sessions.ReportedReleases | internal/perf/store.go:411-415 | a release is reported exactly when it has a selected row |
| Sessions.HealthTotals | internal/perf/store.go:416-419 | a release's four counters are the sums over its rows |
| Sessions.HealthIsUnion | internal/perf/store.go:420-441 | a release's merged sketches are the sketches of the union of its rows' did sets |
| Vlq.DecodeVLQSegment | internal/sourcemap/vlq.go:20-49 | the loop decodes the fields, with the errors for a bad character, a shift past 60 and a truncated segment |
| Vlq.FieldsDecode | internal/sourcemap/vlq.go:20-49 | encoded fields below 2^62 in magnitude decode to themselves |
| Vlq.RoundTripExactly | internal/sourcemap/vlq.go:29-44 | a field survives encoding and decoding exactly when its magnitude is below 2^62 |
| Vlq.DecodedFieldsAreBounded | internal/sourcemap/vlq.go:29-44 | no decoded field exceeds 2^62 in magnitude |
| Vlq.AlphabetIs | internal/sourcemap/vlq.go:5-16 | the alphabet is A to Z, a to z, 0 to 9, plus and slash in that order, and nothing else |
| Vlq.FieldMeans | internal/sourcemap/vlq.go:29-44 | a field of up to twelve digits is half of what its digits are worth in base 32, least first, negative when that is odd |
| SourceMap.Map.DecodeMappings | internal/sourcemap/map.go:69-121 | the loops over lines and segments append exactly the decoded lines |
| SourceMap.MappingsRoundTrip | internal/sourcemap/map.go:69-121 | encoding any table of 1-, 4- and 5-field segments with values below 2^62 and decoding it returns it, less one final empty line |
| SourceMap.SegmentsAreSums | internal/sourcemap/map.go:69-121 | on any line of segments, given by their fields, column, source, source line, source column and name are the running sums of the first to fifth fields; the column starts at 0 on every line |
| SourceMap.LineEndsAtSums | internal/sourcemap/map.go:69-121 | the next line goes on from the sums of this one |
| SourceMap.ThreeFieldsAreSourceless | internal/sourcemap/map.go:96-112 | at the start of any line text a 3-field segment, whatever its other two fields, decodes like its column alone, and so does what follows it |
| SourceMap.SegmentsNameTheirLine | internal/sourcemap/map.go:100-115 | every decoded segment carries the number of the line it is on |
| SourceMap.Lookup | internal/sourcemap/map.go:135-148 | the binary-search loop |
| SourceMap.LookupIsScan | internal/sourcemap/map.go:132-148 | on a line in column order it finds the last segment at or before the column |
| SourceMap.HitIsAtOrBefore | internal/sourcemap/map.go:143-147 | on any line a hit is a segment of that line at or before the column |
| LineSearch.SearchIsScanExactlyWhen | internal/sourcemap/map.go:143-147 | for every line, the binary search finds the scan's position for every column exactly when no midpoint turns a column away from a later segment it is past |
| LineSearch.LookupIsScanExactlyWhen | internal/sourcemap/map.go:135-148 | on a line of distinct segments Lookup gives the scan's segment for every column exactly under that condition |
| LineSearch.AscendingIsSearchable | internal/sourcemap/map.go:135-148 | lines in column order meet it |
| LineSearch.UnsortedLookupMisses | internal/sourcemap/map.go:69-148 | every encodable line that does not meet it is decoded from some mappings, and Lookup misses on it |
| LineSearch.BothKindsExist | internal/sourcemap/map.go:143-147 | columns 5, 3 are searchable though unordered; columns 5, 9, 1 are not |
| Symbolicate.SnippetAt | internal/sourcemap/symbolicate.go:76-89 | the two context loops build the excerpt |
| Symbolicate.SnippetIsAWindow | internal/sourcemap/symbolicate.go:75-89 | an excerpt exists exactly for a line of the content; reversed Pre, the line and Post are one contiguous window of at most two lines each side, clipped at the ends |
| Symbolicate.ResolvedShowsTheSegment | internal/sourcemap/symbolicate.go:39-60 | on any decoded map a resolved frame shows a segment of its own line at or before its column, the last such one in column order, one-based, with source, name and window |
| Symbolicate.ResolvedExactlyWhen | internal/sourcemap/symbolicate.go:39-47 | a frame is resolved exactly when its one-based position has a segment whose source the map knows |
| Symbolicate.SourceRootJoins | internal/sourcemap/symbolicate.go:62-73 | root and source are joined by exactly one slash, and an empty root adds nothing |
| Text.JoinOfSplit | internal/sourcemap/symbolicate.go:77 | joining the lines of a content gives the content back, and no line holds the separator |
| Resolve.CleanPathLoop | internal/sourcemap/resolve.go:169-190 | the segment loop drops "", "." and resolves ".." |
| Resolve.CleanPathIsFixed | internal/sourcemap/resolve.go:169-190 | a cleaned path has no empty, "." or ".." segment left and cleaning it again changes nothing |
| Resolve.LastSlash | internal/sourcemap/resolve.go:131-156 | base and directory are the text after and before the last slash |
| PathLaws.UrlPathIsKept | internal/sourcemap/resolve.go:131-205 | of a URL the path is kept, without scheme, host, query and fragment |
| PathLaws.PlainPathIsKept | internal/sourcemap/resolve.go:131-205 | a path without scheme is kept up to its query or fragment |
| PathLaws.RelativeReferences | internal/sourcemap/resolve.go:150-190 | a reference with n leading ".." names the file n directories above the referring one's |
| PathLaws.RootedReferences | internal/sourcemap/resolve.go:150-190 | a reference with a leading slash names the file from the root |
| PathLaws.FoundByItsNames | internal/sourcemap/resolve.go:52-64 | an artifact is found under its name, its normalised path and its base name, by a path or that path's base name, and under nothing else |
| PathLaws.TildeNamesServeAnyOrigin | internal/sourcemap/resolve.go:52-72 | an upload named ~/dir/file is found, by its file name, for every path that ends in that file, as long as no earlier one is registered under the path or the file name |
| Text.QueryIsGone | internal/sourcemap/resolve.go:194-198 | what is kept of a path is its longest prefix without query or fragment |
| Resolve.Candidates | internal/sourcemap/resolve.go:29-40 | exact-dist uploads, then bare ones |
| Resolve.CandidatesAreVisible | internal/sourcemap/resolve.go:26-40 | an artifact is a candidate exactly when its dist is empty or the event's |
| Resolve.NameIndex.Add | internal/sourcemap/resolve.go:52-64 | registering one more candidate keeps both maps answering as a last-match scan does |
| Resolve.ResolveMap | internal/sourcemap/resolve.go:47-106 | the indexed search answers as the naive scan over the candidates, which FoundExactlyWhen says in full |
| Resolve.FoundExactlyWhen | internal/sourcemap/resolve.go:75-105 | a hit is returned exactly when it is: the map last tagged with the first image id that has one; failing that, the one last tagged with the found artifact's own debug id; failing that, its sourceMappingURL, inline or by name; failing that, what is found for the path plus ".map"; each with the document its body or reference parses to |
| Resolve.MissingExactlyWhen | internal/sourcemap/resolve.go:75-105 | nothing is found exactly when no image id names a last candidate that is a map, the artifact found for the path reaches none by its debug id or sourceMappingURL, and none is found for the path plus ".map" |
| Resolve.NeverAnotherDist | internal/sourcemap/resolve.go:26-40 | the answer is one of the release's artifacts, of no dist or of the event's |
| Resolve.BareOverridesExact | internal/sourcemap/resolve.go:52-64 | a key resolves to a bare upload exactly when one is registered under it, whatever exact-dist uploads share the key |
| EventView.ImageDebugIds | internal/sourcemap/event.go:278-297 | the ids of the images whose code file is the frame's or shares its base name, in order |
| EventView.ImageIdsExactly | internal/sourcemap/event.go:278-297 | an id is tried exactly when some image has it whose code file is the frame's path or has its base name |
| EventView.SymbolicateUncached | internal/sourcemap/event.go:128-168 | the nested loops compute every frame view, the symbolicated flag and the missing-map hints |
| EventView.EveryFrameIsShown | internal/sourcemap/event.go:128-168 | every exception and frame is shown in place, each frame with what its own map makes of its position, under the map's function name or else its own |
| EventView.FlagTellsResolved | internal/sourcemap/event.go:156-164 | an event counts as symbolicated exactly when one of its frames is shown resolved |
| EventView.HintedPathsExactly | internal/sourcemap/event.go:140-146 | a path is to be hinted at exactly when it is a frame's non-empty absolute path and no map was found for it |
| EventView.HintsAreExact | internal/sourcemap/event.go:140-146 | at most twenty distinct hints, each a path without a map; below twenty none is left out |
| ArtifactKey.ArtifactSetKey | internal/sourcemap/event.go:252-276 | the loops hash the release and the sorted rows |
| ArtifactKey.SameKeyExactlyWhenSameRows | internal/sourcemap/event.go:250-276 | without 0x1f in names and dists, and with a collision-free hash, keys agree exactly when the (name, dist, sha) rows do, whatever their order |
| ArtifactKey.KeyIsItsOwnExactlyWhen | internal/sourcemap/event.go:267-274 | for every list of artifacts, no list of other rows shares its key exactly when it is empty or a single artifact without 0x1f in name and dist; otherwise a single artifact shares it |
| ArtifactKey.SameKeySameRelease | internal/sourcemap/event.go:267-274 | releases without NUL never share a key, whatever their artifacts |
| EventCache.EventRow.SymbolicateEvent | internal/sourcemap/event.go:102-168 | one view returns the stored result when its key matches, else computes and stores a fresh one |
| EventCache.BodyIsLoadedExactlyWhen | internal/sourcemap/event.go:199-236 | an artifact's body is loaded exactly when it has a debug id, its name ends in .map or its reference starts with data:, in either case |
| EventCache.SameKeySameArtifacts | internal/sourcemap/event.go:250-276 | lists with the same key hold the same artifacts, references and bodies included |
| EventCache.EveryViewIsFresh | internal/sourcemap/event.go:102-169 | in every run of uploads, deletes and concurrent views, a view returns what an uncached computation returns on exactly the artifacts it loaded, in some row order |
| Migrate.LoadMigrations | internal/db/migrate.go:96-129 | the loops parse, sort and check the embedded files |
| Migrate.LoadedIsAscending | internal/db/migrate.go:121-128 | a loaded list is strictly ascending and holds exactly the parsed files |
| Migrate.LoadsExactlyWhen | internal/db/migrate.go:107-127 | loading fails exactly when a .sql name is malformed or two versions are equal |
| Migrate.LoadedAreTheFiles | internal/db/migrate.go:107-121 | a migration is loaded exactly when a file NNNN_name.sql gives its version, its name after the first underscore and its content as SQL |
| Migrate.Database.Migrate | internal/db/migrate.go:40-78 | one process alone appends, in order, the rows and SQL of the versions above the maximum it found |
| Migrate.AppliedExactlyWhen | internal/db/migrate.go:59-66 | against a committed prefix the re-check skips a version exactly when it is applied or never pending |
| Migrate.CommittedIsAPrefix | internal/db/migrate.go:40-78 | with any number of processes crashing anywhere, rows and SQL committed are the same prefix of the pending list; a finished process leaves all of it |
| Migrate.WholeListExactlyWhen | internal/db/migrate.go:40-66 | a finished process has applied the whole embedded list exactly when every version is at least 1 |
| Rollup.RollupStore.RunRollupPass | internal/worker/rollup.go:34-85 | one pass recomputes every raw-bearing hour of a whole-hour window of at most a day that starts at or before the watermark and two hours back, changes no other row, and moves the watermark to its end |
| Rollup.WindowIsExact | internal/worker/rollup.go:59-76 | a window of whole hours gives each raw-bearing hour the aggregate of all its rows and touches no other key |
| Rollup.RollupSays | internal/worker/rollup.go:59-76 | a rollup row counts the transactions of its name that started in the 3600 seconds of its hour and those of another status than none or ok, and holds the 50th, 95th and 99th percentiles of their durations |
| Rollup.WindowShape | internal/worker/rollup.go:35-57 | windows are hour-aligned, start at or before the watermark, last at most 24 hours and never move it back |
| Rollup.CatchesUp | internal/worker/rollup.go:49-57 | a lag of n hours is drained within ceil(n / 24) passes of one hour, whatever rows arrive between them |
| Rollup.RepeatIsNoOpExactlyWhen | internal/worker/rollup.go:35-83 | a repeated pass changes nothing exactly when there was no watermark or it was at most 24 hours behind the current hour plus one |
| Rollup.FirstPassDrainsExactlyWhen | internal/worker/rollup.go:38-51 | a first pass aggregates every raw-bearing hour up to the current one exactly when no such raw row started more than two hours before the current hour |
| Rollup.BacklogIsNeverDrained | internal/worker/rollup.go:38-85 | from an empty start, no pass of any run, overlapping or crashing, aggregates an hour more than two before the run's first clock |
| Rollup.NobodyBehindExactlyWhen | internal/worker/rollup.go:54-83 | with any number of passes at once, none under way would ever move the watermark back exactly when no pass stores its watermark while one whose window ends earlier is under way |
| Rollup.WatermarkNeverGoesBack | internal/worker/rollup.go:34-85 | over every such run, crashes between the two writes included, the watermark never moves back |
| Rollup.CoveredExactlyWhen | internal/worker/rollup.go:34-83 | no hour up to the watermark is left out, now or by a pass under way, exactly when the first watermark is not stored while a pass is under way whose window leaves unaggregated hours before it |
| Rollup.NoHourIsSkipped | internal/worker/rollup.go:34-85 | in every reachable state of such a run each hour up to the watermark has been aggregated, and the table holds exactly the aggregates of the rows each hour had at its last statement |
| Rollup.OneAtATimeIsInOrder | internal/worker/rollup.go:34-85 | a single worker's runs meet both conditions |
| Rollup.SlowPassMovesBack | internal/worker/rollup.go:78-83 | for any two instants in different hours, a run in which the earlier pass stores last and the watermark moves back |
| Rollup.FirstPassesSkip | internal/worker/rollup.go:35-83 | for two first passes far enough apart, a run that leaves an hour below the watermark unaggregated |
| Rollup.EveryWriteIsExact | internal/worker/rollup.go:59-76 | however passes overlap, each aggregation of any run gives every raw-bearing hour of its window the aggregate of that hour's rows right then, and starts at or before the watermark its pass read |
| JobQueue.BackoffIsExactWhen | internal/worker/worker.go:144-150 | the delay is 2^(n-1) minutes exactly for n up to 28 |
| JobQueue.RetriesAreLaterExactlyWhen | internal/worker/worker.go:144-150 | every retry lies in the future exactly when a job has at most 29 attempts |
| JobQueue.ClaimsAreExclusive | internal/worker/worker.go:99-117 | in every reachable state a job is held by at most one worker, pending means attempts below the maximum, and running 1 to the maximum |
| JobQueue.TerminalIsFinal | internal/worker/worker.go:99-143 | a done or failed row never changes again |
| JobQueue.StatusTellsOutcome | internal/worker/worker.go:120-153 | in every reachable state a job is done exactly when one of its recorded outcomes is a success, and failed only when it has used all attempts and its last outcome is a failure |
| JobQueue.ReportDecides | internal/worker/worker.go:120-153 | in every run a report of success ends the job done; one of failure ends it failed when its attempts are used up, else pending after the backoff |
| JobQueue.AttemptsBackOff | internal/worker/worker.go:120-153 | a job starts at most max_attempts times, attempt n, up to the 29th, at least 2^(n-1) - 1 minutes after the first |
| JobQueue.Queue.Take | internal/worker/worker.go:99-117 | a claim moves the earliest due pending job to running and changes nothing else |
| JobQueue.Queue.Execute | internal/worker/worker.go:120-153 | a success is recorded as done, a failure at the maximum as failed, any other failure as pending after the backoff |
| JobQueue.Queue.RunDue | internal/worker/worker.go:75-88 | at a fixed time it ends with nothing due, having run each initially due job exactly once, earliest first; a job whose handler succeeds ends done, one that fails at its maximum failed, any other waits for its retry |
| AlertDelivery.AlertStore.Matches | internal/alerts/alerts.go:57-68 | the filter loops accept a signal exactly when every non-empty list holds its value up to case |
| AlertDelivery.AlertStore.EvaluateAndDeliver | internal/worker/alerts.go:92-119 | the rule loop: matching, dedupe, delivery and touch, ending at the first failed count |
| AlertDelivery.QuietPeriodsHold | internal/worker/alerts.go:186-213 | over every history of evaluations, retries included, two deliveries for one rule and issue are at least the second's quiet minutes apart |
| AlertDelivery.SentExactlyWhen | internal/worker/alerts.go:92-119 | a rule is delivered exactly when it is enabled, its filters let the signal through, its trigger holds (a new issue, a regression, or the window count at the threshold) and no touch lies inside its quiet minutes |
| AuthCache.Resolver.Resolve | internal/ingest/auth.go:52-94 | one call: a cached decision is answered as it stands; otherwise it succeeds with project, organisation and id of an unrevoked key of that very project, and fails exactly when there is none; the decision stands for thirty seconds and both maps keep within their bound |
| AuthCache.StoredStands | internal/ingest/auth.go:76-93 | a stored decision is what every lookup of the next thirty seconds finds; below the bound no other decision is displaced |
| AuthCache.PlainPairsDiffer | internal/ingest/auth.go:56 | a pair without the separator shares its cache key with no other pair |
| AuthCache.AnswersAreRecent | internal/ingest/auth.go:52-94 | in every interleaving a success names an unrevoked key of that very project, with its organisation and id, and a failure says there is none, as of some instant less than 30 seconds before the call's clock read or later; neither map passes 10,001 entries |
| AuthCache.RevokedKeysStopWorking | internal/ingest/auth.go:52-94 | no call whose clock reads 30 seconds or more after revocation succeeds |
| Envelope.ParseEnvelope | internal/ingest/envelope.go:69-127 | the loop parses the header line and the items |
| Envelope.RoundTrip | internal/ingest/envelope.go:66-127 | framing a header and items and parsing returns them, the first 1000 of a longer list, with or without a final newline |
| Envelope.SurvivesExactlyWhen | internal/ingest/envelope.go:105-124 | one item survives framing exactly when it has a type and its length prefix is right, or it has none and its payload no newline |
| Envelope.EnvelopeIsWoven | internal/ingest/envelope.go:90-127 | the payloads are disjoint slices of the input in order, and at most 1000 |
| Envelope.BrokenItemFails | internal/ingest/envelope.go:90-112 | one of the first 1000 items whose header cannot be read, names no type or declares more bytes than are left fails the envelope |
| Envelope.HeaderLineDecides | internal/ingest/envelope.go:70-84 | so do no text at all and an unreadable header line; an empty header line is an empty header |
| Grouping.TitleIsFixed | internal/ingest/grouping.go:112-143 | a title holds no digit and no eight hex digits in a row, even at the 256-byte cut, and normalising it again changes nothing |
| Grouping.ShortMeans | internal/ingest/grouping.go:126 | the run-counting predicate says that among any eight neighbours one is no hex digit |
| Grouping.TitleIsAPrefix | internal/ingest/grouping.go:115-143 | the title is the parameterised "type: value", or value alone, cut after 256 bytes |
| Grouping.PlainTextStays | internal/ingest/grouping.go:124-134 | text without digits and long hex runs is kept |
| Grouping.UuidBecomes | internal/ingest/grouping.go:125-131 | a UUID becomes {uuid} |
| Grouping.HexBecomes | internal/ingest/grouping.go:126-132 | eight or more hex digits become {hex}, even when all are decimal |
| Grouping.NumberInTextBecomes | internal/ingest/grouping.go:127-133 | a number in other text becomes {num}, and that text is kept |
| Grouping.ParameterizeAround | internal/ingest/grouping.go:130-134 | text before and after a character that is neither hex digit nor dash is parameterised on its own |
| Grouping.NumbersDoNotMatter | internal/ingest/grouping.go:121-134 | messages that differ only in digit runs inside hex runs below eight get the same title |
| BundlePath.NormalizeInPlace | internal/ingest/grouping.go:184-200 | the loop rewrites the segments in place |
| BundlePath.DottedMatches | internal/ingest/grouping.go:180 | any match of the dotted pattern is the one that is found |
| BundlePath.DottedFinds | internal/ingest/grouping.go:180 | what is found is a match of the dotted pattern |
| BundlePath.DashedMatches | internal/ingest/grouping.go:181 | any match of the dashed pattern is the one that is found |
| BundlePath.DashedFinds | internal/ingest/grouping.go:181 | what is found is a match of the dashed pattern |
| BundlePath.DottedBecomes | internal/ingest/grouping.go:187-190 | name.hash.ext becomes name.{hash}.ext |
| BundlePath.DashedBecomes | internal/ingest/grouping.go:191-194 | failing that, name-hash and its extension become name-{hash} and the extension |
| BundlePath.OthersStay | internal/ingest/grouping.go:195-197 | failing that, a bare hash becomes {hash} and every other segment is kept |
| BundlePath.SlashesSeparate | internal/ingest/grouping.go:184-200 | what stands before and after a slash is normalised on its own |
| BundlePath.PathIsFixed | internal/ingest/grouping.go:175-200 | normalising a normalised path changes nothing, for every path |
| Fingerprint.NormalizedCulprit | internal/ingest/grouping.go:148-173 | the loop from the newest frame down |
| Fingerprint.CulpritEmptyExactlyWhen | internal/ingest/grouping.go:145-162 | the culprit is empty exactly when no frame is eligible |
| Fingerprint.CulpritIsTopFrame | internal/ingest/grouping.go:145-173 | the topmost eligible frame gives the culprit: its file name, or absolute path, normalised and without query, then " in " and its function |
| Fingerprint.EligibleExactlyWhen | internal/ingest/grouping.go:148-157 | a frame is eligible exactly when it is in-app, has a real function name and nothing of it says webpack |
| Fingerprint.NewestExceptionDecides | internal/ingest/grouping.go:63-76 | the newest exception gives title and culprit, whatever came before it; without exceptions the message is the title |
| Fingerprint.PartExpands | internal/ingest/grouping.go:92-98 | a trimmed part that holds a {{ default }} token, with or without inner white space, stands for the whole default hash, any other for itself |
| Fingerprint.ComputeFingerprint | internal/ingest/grouping.go:86-100 | the loop expands the SDK parts |
| Fingerprint.SdkGroupsExactlyWhen | internal/ingest/grouping.go:83-100 | two SDK fingerprints group together exactly when their expanded parts, cut at every 0x1f, are the same pieces, and never with a default one |
| Fingerprint.PlainSdkGroupsExactlyWhen | internal/ingest/grouping.go:83-100 | without 0x1f in the expanded parts that is equality of the parts |
| Fingerprint.SeparatorsMergeGroups | internal/ingest/grouping.go:90-100 | every SDK fingerprint of two or more parts shares its key with one of a single part |
| Fingerprint.NulMovesTheBorder | internal/ingest/grouping.go:102-112 | a NUL moved between title and culprit keeps the key |
| Fingerprint.DefaultGroupsExactlyWhen | internal/ingest/grouping.go:102-112 | default keys agree exactly when title and culprit, cut at every NUL, are the same pieces |
| Fingerprint.PlainDefaultGroupsExactlyWhen | internal/ingest/grouping.go:102-112 | for titles without NUL, default keys agree exactly when title and culprit do |
| Fingerprint.NumbersShareAGroup | internal/ingest/grouping.go:53-79 | events that differ only in such digit runs have the same title, culprit and fingerprint |
| SelfTime.SelfTimes | internal/httpapi/web_perf.go:311-358 | the loops compute each span's clamped self-time and the root's |
| SelfTime.RawTimesAddUp | internal/httpapi/web_perf.go:311-355 | for all spans, before clamping, self-times and root add up to the duration less what is subtracted more than once |
| SelfTime.BreakdownConserves | internal/httpapi/web_perf.go:311-358 | for all spans the breakdown is at least the duration less that excess, and equal exactly when nothing was clamped |
| SelfTime.UniqueIdsLoseNothing | internal/httpapi/web_perf.go:311-358 | with unique non-empty ids, whatever the parent links, the excess is zero |
| SelfTime.ExtraExactlyWhen | internal/httpapi/web_perf.go:312-323 | a span is subtracted too often exactly when its parent id is repeated, or is empty and some span's id |
| SelfTime.ExcessIsZeroExactlyWhen | internal/httpapi/web_perf.go:312-355 | where no duration is negative, nothing is lost before clamping exactly when every such span takes no time |
| SelfTime.TimeIsLostExactlyWhen | internal/httpapi/web_perf.go:312-358 | the breakdown falls below the duration exactly when the excess outweighs what clamping added |

## Left out

- Deletion, retention, partition calendars and pruning of user rows: the ingest law is about runs of deliveries and triage.
- touchRelease, project_event_rollups, feedback linking and its backfill: they write other tables and no modelled counter depends on them.
- JSON payload parsing, timestamps, event ids and user hashes: an event enters already parsed; `events_part` conflicts on (id, timestamp) alone, as the statement says.
- The content of transactions, feedback and unknown-item rows beyond their keys and counts.
- Validation of session items and the truncation of their start to the hour: a delivery arrives with its row's key.
- Session rows (`sessions_part`) and their terminal-status rule; the rollup row's part of the statement is modelled.
- Sessions.BlobsAreSketches: deliveries are serial; `SessionRaces.dfy` says what holds of concurrent ones. Deadlocks between row locks are not modelled: a waiting statement just does not run.
- Rollup passes read the clock and the watermark in one step.
- Estimate and the crash-free rates: floating point and statistics.
- Path and id lower-casing and trimming beyond ASCII.
- The stored result's format version: every run uses one version.
- Artifact body sizes, quotas and the upload conflict answer: an upload of a new name inserts, any other changes nothing.
- EventCache.EveryViewIsFresh: a load is one atomic read; the code reads metadata and bodies by two statements, between which an artifact can vanish.
- CREATE TABLE, partition creation after the loop and lock timeouts in Migrate: a failing statement is a crash step.
- AuthCache.AnswersAreRecent: queries succeed; a failing query is answered like a missing key and cached as one.
- Rows deleted from projects or keys: a key ends by revocation.
- RunDue's cancellation and ticker, and handlers that enqueue jobs already due.
- AlertDelivery.QuietPeriodsHold: reads and touches of the dedupe table succeed; a worker that dies between a delivery and its touch can deliver again.
- Test deliveries: they neither read nor touch the dedupe table.
- Delivery bodies, SMTP and webhooks, HMAC: a delivery is one recorded step, whatever its actions answer.
- DSN and X-Sentry-Auth parsing, decompression, and the web handlers, pages and configuration around all of this.
- Span placement, dimming, sorting and the top-five list in the trace view.
