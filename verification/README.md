# EflortableJD: a verified model

EflortableJD is a small document database: nested JSON documents, a checksummed write-ahead log, atomic snapshots,
backups with point-in-time restore, a query engine, hash indexes, a framed client/server protocol, token-bucket
rate limiting and a hash-chained audit log. This project models the parts of it that carry its promises and proves them,
for all inputs and all runs. `dafny verify dfyconfig.toml` checks everything.

| file | what it models |
|---|---|
| `Text.dfy`, `Values.dfy` | strings, numerals, JSON values and the Python operators applied to them |
| `JsonCodec.dfy`, `JsonScan.dfy` | canonical JSON printing and parsing; nesting of JSON text |
| `Replay.dfy`, `Wal.dfy` | log replay for any record format; the log's own format and class |
| `Snapshot.dfy`, `Durability.dfy` | snapshots and their replacement; the crash machine over log and snapshot |
| `Formats.dfy` | the texts written, character by character, and which dicts read as records and snapshots |
| `Backup.dfy` | point-in-time restore and the backup manifest |
| `Paths.dfy`, `HeapPaths.dfy` | dotted paths on values; the same updates in place on dicts that refer to dicts |
| `Query.dfy`, `QueryMeaning.dfy` | matching and its algebra; what each construct decides |
| `Projection.dfy`, `StableSort.dfy`, `Sorting.dfy` | projection, sorting |
| `Indexes.dfy`, `IndexScan.dfy` | hash indexes; agreement of index reads and full scans |
| `Protocol.dfy`, `Client.dfy`, `SharedClient.dfy` | frames over a chunked stream, the handler; the client and its retries; several callers on one client |
| `RateLimit.dfy`, `Audit.dfy` | token buckets; the audit chain |

## How the model reads

- **Text.** In the log, the snapshots and the protocol a text is its UTF-8 code units, one `char` to a byte. Everything
  JSON singles out is ASCII, so escaping, newline splitting and cutting at a byte act on units as on
  characters. In the query engine a `char` is a code point.
- **Dicts** are maps: two dicts with the same entries are equal, as in Python. `HeapPaths` adds references, so that
  updates in place and sharing can be seen.
- **Numbers** are integers and booleans, with Python's `True == 1` kept at every depth (`Values.Norm`); the rate limiter uses reals.
- **Primitives** without logic of their own here are parameters: `repr`, `re.search` and `int` of a string
  (`Values.Python`), CRC-32, SHA-256, the clock, the dispatcher and the effect of a mutation. Results hold for every choice
  of them; injectivity of a digest is assumed only where a member says so.
- **Exceptions** are values: `None`, an error constructor, or a phase of a machine.
- **Loops and fields** of the source are loops and fields here; each method is proved equal to a function, and what the
  source promises is proved of that function. Where several threads or a crash come in, the program is a machine over its steps.

## Where the promise needs a condition

- A complete last log line that fails its checksum makes `replay` raise (`Wal.ChecksumFailureRaises`); ARCHITECTURE.md:47 says
  that it is ignored as a torn write. The model follows wal.py:58-69.
- `replay` skips a torn tail but leaves it in the file, so the next record is glued to it. `Replay.AppendAfterTail`: the record
  survives exactly when there was no tail; otherwise it is dropped silently and one more append makes every replay raise.
  `Durability` therefore removes torn bytes before the first append after a recovery (its step `Repair`).
- An append that raises may leave part of its record. `Replay.AppendAfterFailure`: if the process goes on, the next record is
  recovered exactly when nothing was left, or all of it with a smaller sequence. `Durability` goes on only when nothing was left
  (its step `Withdraw`); otherwise the database is opened again.
- `write_snapshot` ignores a failed directory sync. `Durability.CutNeedsDurableRename`: if the log is cut before the rename is
  durable, nothing is lost exactly when the old snapshot already covers everything. The machine cuts the log after it is durable.
- Restoring picks the last written version exactly when the sequences of a history strictly increase
  (`Backup.LatestIsLastIffIncreasing`). After new writes on a database restored at n, later restores are right exactly when the
  restore left no entry after n in the histories (`Backup.RestoresAfterWrites`); it does keep such entries, and they return
  (`Backup.LaterEntryReturns`).
- Index reads agree with scans exactly when the values bound are scalars, or every document selected has the query's `repr`
  (`IndexScan.ContainerScan`, `IndexScan.CompositeContainerScan`).
- The sort comparator orders documents exactly under the condition of `Sorting.ComparatorConsistentIff`, for one key of
  `Sorting.KeyConsistentIff`; sorting is then the one stable sort. A column of 9, 10 and "1a" does not meet it.
- Projection reads `_id` as the document does exactly when the requested paths leave it alone or reach all of it
  (`Projection.ProjectionLeast`).
- `$nin` and the opposite ranges are complements exactly under the conditions of `Query.OperatorComplements`.
- Audit records form a chain exactly when recording is serialized (`Audit.ChainIffSerialized`).
- A shared client gives a call its own answer exactly when no reply was still to be read on its connection
  (`SharedClient.OwnReplyIffNoneAhead`); this fails when a call starts between another's failure and its close
  (`SharedClient.LateReplyMisread`). `Client.Correlation` is about a client whose calls are serialized.
- A unique index survives a refused replace only because the refusal is found before the old entry is removed
  (`Indexes.RefusalNeedsPreflight`). PRODUCTION_INVARIANTS.md:11 promises that check, and `Indexes.Apply` assumes it.

## Model

| member | source | states |
|---|---|---|
| Text.SortedKeysIncrease | utils.py:16-17 | keys are written in strictly increasing code-point order, so the text of a value is canonical |
| Text.SortedKeysAre | utils.py:16-17 | the only increasing list of the keys |
| Text.LexMeans | utils.py:16-17 | a string comes before another iff it is a proper prefix of it or the first characters that differ are in order |
| JsonCodec.RoundTrip | utils.py:16-17 | loading what was printed, with or without a final newline, gives the value printed, for every JSON value with string keys |
| JsonCodec.PrintInjective | utils.py:16-17 | different values have different texts |
| JsonCodec.PrintHasNoControl | wal.py:36-37 | printed text has no raw control character, hence no newline: a record is one line |
| Formats.PrintMeans | utils.py:16-17 | the text of every kind of value: fields by increasing keys, a comma between two, no space |
| Formats.EscapeMeans | utils.py:16-17 | which characters are escaped, and how |
| Formats.LoadsPadded | wal.py:55 | space around a value is skipped |
| Formats.RecordFormat | wal.py:32-37 | a log line written out: the checksum of the rest, operation, payload, sequence and version 1, in that order |
| Formats.DecodeMeans | wal.py:55-70 | which dicts are records: fatal unless the checksum is that of the other fields and the version 1; then malformed unless the sequence reads; the body reads iff there are an operation and a payload that makes a dict |
| Formats.BareValueLine | wal.py:55-70 | a last line that is a list is ignored as torn; one that is any other JSON value but a dict makes replay raise |
| Formats.SnapshotFormat | snapshot.py:20-28 | the snapshot file written out |
| Formats.SnapshotMeans | snapshot.py:47-57 | a dict is read as a snapshot iff the stored digest is that of its payload, the version is 1 and sequence and collections read |
| JsonScan.LoadsBalanced | wal.py:55 | text that loads closes every bracket and quote it opens |
| JsonScan.CutObjectStaysOpen | wal.py:51-55 | a printed object cut strictly inside leaves a bracket open |
| JsonScan.GluedRecordNeverLoads | wal.py:37-55 | what is left of a record followed by a whole record never loads |
| Wal.DecodeWithChecksum | wal.py:31-63 | a written line decodes to its record if the stored checksum is that of the canonical rest, and is fatal otherwise |
| Wal.WalCodecReadsBack | wal.py:31-63 | reading back every appended line gives its sequence, operation and payload, no line holds an inner newline, and glued lines are malformed |
| Wal.ChecksumFailureRaises | wal.py:57-70 | a complete last record with a wrong checksum makes replay raise after applying the records before it |
| Wal.WriteAheadLog.Append | wal.py:31-40 | the file grows by exactly the record's line, and with `sync` all of it is on the disk |
| Wal.WriteAheadLog.Replay | wal.py:42-72 | the loop computes the replay outcome of the file's bytes, calls `apply` on exactly those records in order, counts them and leaves the file alone |
| Wal.WriteAheadLog.Truncate | wal.py:74-82 | the file is empty, with `sync` on the disk too |
| Replay.BytePrefixTheorem | wal.py:42-72 | a log cut at any byte never raises, applies in order exactly the records whose newline survived, and reports one torn record iff the cut is inside a line |
| Replay.CutLog | wal.py:37-53 | a log cut at any byte is a shorter log and a newline-free prefix of the next record |
| Replay.ReplayLogAndFragment | wal.py:49-53 | a log with an unterminated tail replays every record and reports the tail |
| Replay.ReplayOutcome | wal.py:42-72 | on arbitrary bytes: replay succeeds iff all lines but possibly the last are records in sequence and the last is one, torn or malformed; then every line is accounted for, at most the last is ignored, sequences strictly increase and the last is returned |
| Replay.FatalLineRaises | wal.py:58-70 | a complete line that fails its checks raises wherever it stands |
| Replay.AppendAfterTail | wal.py:26-72 | appending after a tail survives iff the tail is empty; otherwise the record is dropped silently and the append after it makes replay raise |
| Replay.AppendAfterFailure | wal.py:31-72 | after an append that raised and left part of its record, the next record is recovered iff nothing was left, or all of it with a smaller sequence |
| Snapshot.SnapshotRoundTrip | snapshot.py:20-57 | a written snapshot reads back as its sequence and collections |
| Snapshot.DigestFailureRefused | snapshot.py:55-56 | a payload whose digest is not the stored one is refused |
| Snapshot.SnapshotStore.WriteSnapshot | snapshot.py:24-44 | the steps in program order, from any state: at every moment a crash leaves what it could leave before or the new snapshot complete, from a settled one the old or the new, and at the end the new one is durable, unless the sync of the directory failed |
| Snapshot.ReplaceAtomicIffSynced | snapshot.py:30-35 | after a rename a crash leaves what it could leave before or the new file, which is complete iff the temporary was synced |
| Durability.RecoverMeans | wal.py:42-72 | on any files, recovery raises iff the snapshot does not read or replay raises; otherwise it applies to the snapshot's collections exactly the log's records after the snapshot, in order |
| Durability.RecoverExact | wal.py:42-72 | a snapshot of the first k mutations and a log that holds the rest recover exactly the fold of all mutations, stale records skipped |
| Durability.CrashLog | wal.py:37-40 | whatever part of the log a crash leaves is whole records and a fragment, and of the record in flight all or nothing counts |
| Durability.CrashKeeps | snapshot.py:24-44 | a crash at any step of an append or a checkpoint keeps the invariant |
| Durability.CheckpointKeeps | snapshot.py:24-44 | every step of a checkpoint, between replace and truncate included, keeps snapshot and log complete together |
| Durability.RunKeeps | README.md:71 | in every run, memory is the fold of all mutations in effect and the disk can rebuild them |
| Durability.CrashSafety | README.md:71 | whatever part of the unsynced log and whichever snapshot a crash leaves at any moment of any run, recovery succeeds and yields the mutations in effect plus at most the one in flight, with every acknowledged one among them |
| Durability.AcknowledgedForever | PRODUCTION_INVARIANTS.md:7 | mutations acknowledged by some moment are recovered after any later crashes, at increasing positions among mutations of increasing sequence |
| Durability.CrashedReopens | ARCHITECTURE.md:47 | a crashed database can always be opened and repaired, to the fold of the mutations in effect and a clean log |
| Durability.CrashAnywhere | wal.py:37-40 | a crash is a step from every state, to any of these logs and snapshots |
| Durability.MutationCompletes | wal.py:31-40 | a waiting database can log, sync and acknowledge any mutation with a later sequence |
| Durability.CheckpointCompletes | snapshot.py:24-44 | a waiting database can complete a checkpoint: the snapshot of memory is durable, the log empty, memory the same |
| Durability.FailuresGoOn | wal.py:31-40 | an append that raises and leaves nothing, and a temporary that is not written, are steps to a waiting database with the same mutations |
| Durability.CutNeedsDurableRename | snapshot.py:35-44 | cutting the log before the rename is durable loses nothing iff the durable snapshot covers everything |
| Durability.RenamedUncovered | snapshot.py:30-44 | a run reaches that moment with a mutation that the durable snapshot does not cover |
| Durability.RepositoryFaithful | snapshot.py:24-57 | the repository's log and snapshot formats meet the assumption of the durability results |
| Backup.PointInTimeRestore | manager.py:82-108 | a restore is written iff the backup verifies, the destination is empty, 0 <= sequence <= the backup's and every history reads; which refusal is raised otherwise; it holds every collection materialized from its history |
| Backup.RestoreDocuments | manager.py:95-104 | the inner loop collects, for each id, the document of its latest entry at or before the sequence, deletions left out, and fails iff an entry does not read |
| Backup.HistoryReads | manager.py:95-104 | a stored history of such entries, an absent sequence being 0 and an absent or null document a deletion, reads as the versions its mutations left |
| Backup.HistoryReadable | manager.py:95-104 | exactly which stored histories read |
| Backup.KeptHistory | manager.py:95-105 | a stored history of a document written twice, and another deleted in the batch of the second write, meets what `RestoredSnapshot` asks |
| Backup.KeptDocuments | manager.py:95-105 | it restores to the first write at 1 and to the second at 2 |
| Backup.Latest | manager.py:99-102 | the entry picked has the greatest sequence not above the bound and is the first such; none is picked iff all are later |
| Backup.RestoreReplaysPrefix | manager.py:95-105 | with sequences that increase document by document, the documents at n are those after the mutations with sequence at most n |
| Backup.RestoredSnapshot | manager.py:82-108 | a verified backup whose stored histories list, under each id, entries with the sequence and the document of its mutations restores, at every sequence up to its own, to an empty log and a snapshot that reads back as that sequence and, in every collection, the documents after the mutations up to there and the histories and indexes kept |
| Backup.RestoreTwice | manager.py:91-107 | restoring a restored backup at an earlier sequence gives the files that restoring the original there gives, and a restore's documents are those its own histories give at its own sequence |
| Backup.LatestIsLastIffIncreasing | manager.py:102 | the entry picked is the last written one at every sequence iff sequences strictly increase |
| Backup.WriteAfterRestore | manager.py:99-105 | a write to a restored database at s is what a restore at s itself picks iff no kept entry carries s |
| Backup.RestoresAfterWrites | manager.py:99-105 | every restore at or after n is right after writes to the database restored at n iff that restore kept no entry later than n |
| Backup.LaterEntryReturns | manager.py:99-105 | entries at 1 and 9, restored at 5 and written at 8: the abandoned entry 9 returns |
| Backup.VerifiesIffUntouched | manager.py:38-67 | with an injective digest, a backup verifies iff each file it took is unchanged and its snapshot loads |
| Backup.ManifestRefused | manager.py:60-67 | a signed manifest of another version, without files or sequence, or with a file missing or of another size or digest, is refused |
| Backup.AlteredManifestRefused | manager.py:58-61 | a manifest altered in any field but not re-signed is refused |
| Paths.SplitJoined | utils.py:22-33 | splitting a path at its dots loses nothing and leaves no dot in a part |
| Paths.GetSet | utils.py:20-43 | after a set, the path reads the value and every path below it reads inside the value |
| Paths.GetSetUnrelated | utils.py:32-43 | paths that are neither prefix nor extension read as before, also when a non-dict intermediate was replaced |
| Paths.SetSet | utils.py:32-43 | the second write to a path wins |
| Paths.SetGet | utils.py:32-43 | writing what is there changes nothing |
| Paths.SetInParent | utils.py:32-43 | the dict the last part is set in gains that field alone, and is new where there was no dict |
| Paths.DeleteRemoves | utils.py:44-51 | deletion returns true iff the path was there; it and everything below it are then missing, and a failed deletion changes nothing |
| Paths.DeleteUnrelated | utils.py:44-51 | unrelated paths read as before |
| Paths.DeleteInParent | utils.py:44-51 | the dict that held the last part loses that field alone and stays, even empty |
| HeapPaths.Heap.GetPath | utils.py:20-29 | the walk along references reads the path |
| HeapPaths.Heap.SetPath | utils.py:32-43 | the loop over dict references updates the store as specified and leaves no dangling reference |
| HeapPaths.Heap.DeletePath | utils.py:44-51 | the loop updates the store as specified and returns whether a field was removed |
| HeapPaths.ReadInPlace | utils.py:20-29 | reading along references gives what reading the value gives |
| HeapPaths.SetInPlace | utils.py:32-43 | on an unshared document, in-place set yields the value Paths.Set gives, keeps it unshared and touches no other dict |
| HeapPaths.DeleteInPlace | utils.py:44-51 | the same for deletion |
| HeapPaths.SharedDictAliases | utils.py:32-43 | with a shared dict, writing below one field is writing below the other |
| HeapPaths.SharingExamples | utils.py:32-43 | a nested dict is unshared, the same dict in two fields is not |
| Values.PyEqMeans | engine.py:22-25 | `==` holds of numbers of the same value, whatever their type, of equal texts, of nulls, of lists of equal items and of dicts of equal values under the same keys |
| Query.Match | engine.py:49-75 | the loops with early return compute the verdict, exceptions included |
| Query.MatchOperators | engine.py:67-72 | the operator loop computes the verdict of a field's operators |
| Query.WellFormedNeverRaises | engine.py:17-75 | a query with supported operators and good operands never raises, on any document |
| Query.QueryIsConjunctionOfParts | engine.py:52-75 | a query matches iff each of its single-field single-operator parts does |
| Query.SamePartsSameVerdict | engine.py:52-75 | well-formed queries with the same parts, in any order or grouping, select the same documents |
| Query.OrderMattersOnlyForErrors | engine.py:52-75 | the order of a query's clauses is irrelevant iff it is not the case that one fails and another raises |
| Query.DeMorgan | engine.py:53-60 | De Morgan between all and any, for all lists, empty ones and raising members included |
| Query.NegationLaws | engine.py:53-64 | `$not` is exact complement and distributes over `$and` and `$or` |
| Query.OperatorComplements | engine.py:20-37 | `$ne` complements `$eq` always; `$nin` complements `$in`, and opposite ranges each other, iff no TypeError arises (and, for ranges, the field is present); with a list operand `$in` and `$nin` always do |
| Query.RangeOperators | engine.py:26-33 | all four ranges are the numeric order on numbers and the code-point order on strings |
| Query.ListRanges | engine.py:26-33 | ranges on lists are decided by the first items that differ, and without such by the lengths |
| Query.ListOperators | engine.py:34-41 | `$in` is membership, or a common element for lists; `$all` is inclusion and agrees with `$contains` on one value |
| Query.MissingFields | engine.py:18-21 | on a missing field a condition holds iff each operator is `$ne`, `$nin` or `$exists` with a falsy operand, and nothing raises, not even an unsupported operator |
| Query.Presence | engine.py:18-19 | `$exists` tells presence; the falsy operands are null, False, 0 and the empty string, list and dict |
| Query.NotComplements | engine.py:26-37 | 5 against 3 for `$in` and `$nin`, "a" against 3 for ranges: both sides fail |
| QueryMeaning.AndMeans | engine.py:53-56 | `$and` holds iff every item matches; it fails, or raises, iff the first item that does not match fails, or raises |
| QueryMeaning.OrMeans | engine.py:57-60 | `$or` fails iff every item does; it holds, or raises, iff the first item that does not fail matches, or raises |
| QueryMeaning.ClausesMean | engine.py:49-75 | the clauses of a query are read like the items of `$and`; a query that is no dict raises, and `$and` or `$or` of no list fails |
| QueryMeaning.NotMeans | engine.py:61-64 | `$not` holds iff its query fails and raises iff it raises |
| QueryMeaning.EqualityMeans | engine.py:22-25 | `{field: v}` and `$eq` hold iff the field is there and equal, `$ne` iff not; none raises |
| QueryMeaning.SizeOperator | engine.py:42-43 | `$size` compares the size of a list, string or dict with the operand as a number, and raises iff that is text `int` rejects |
| QueryMeaning.RegexOperator | engine.py:44-45 | `$regex` searches strings, and raises iff the pattern does not compile |
| QueryMeaning.ContainsOperator | engine.py:38-39 | `$contains` on a list, a string, a dict and anything else |
| QueryMeaning.InOperator | engine.py:34-35 | `$in` of a list, string, dict and anything else, for a value that is no list |
| QueryMeaning.AllOperator | engine.py:40-41 | `$all` of a list, string, dict and anything else |
| QueryMeaning.OperatorRaises | engine.py:17-46 | one operator raises iff the field is there and it is unknown, or `int` or `re.search` raises on its operand |
| QueryMeaning.WellFormedIffNeverRaises | engine.py:17-46 | a single condition is well-formed iff it raises on no document |
| Projection.Project | engine.py:78-88 | the loop builds the projection field by field and adds `_id` if it is absent |
| Projection.ProjectionLeast | engine.py:78-88 | without a request the whole document; otherwise the projection reads the same on every requested path, reads `_id` the same iff the requested paths leave it alone or reach all of it, and is contained in every sub-document that reads all of them the same |
| Projection.ScalarIdKept | engine.py:86-87 | a scalar `_id`, and a requested one, meets the condition of `ProjectionLeast` |
| Projection.ProjectionOrderFree | engine.py:78-88 | requests that cover each other's paths project alike, on every document: order, repetition and overlap do not matter |
| Projection.ProjectionIdempotent | engine.py:78-88 | projecting twice is projecting once, on every document and for every request |
| Projection.CutId | engine.py:82-87 | the condition can fail: a request for one path below a dict `_id` loses the rest of `_id` |
| StableSort.StableSortUnique | engine.py:117 | under a total preorder there is exactly one stably sorted arrangement |
| StableSort.SortTwice | engine.py:100-117 | sorting by the second key and then stably by the first is sorting by both |
| Sorting.Compare | engine.py:100-115 | the loop over the keys with early return computes the comparator |
| Sorting.AntisymmetricIff | engine.py:106-112 | any column: swapping two values turns the comparison round iff `<` compares them or they print differently |
| Sorting.ComparatorConsistentIff | engine.py:100-115 | any documents and keys: the comparator is a total preorder iff the documents can be sorted by the keys: the first column is separated, the other keys decide where text lies between equal values, and they sort each group of equal values |
| StableSort.LexConsistentIff | engine.py:100-115 | comparing by one key and then by the others is a total preorder iff the first orders what it tells apart, the others decide between equal elements that another one lies between, and they order each class of equal elements |
| Sorting.KeyConsistentIff | engine.py:100-115 | any column: one key's comparison is a total preorder, in either direction, iff values `<` cannot compare print differently and no text lies between two values the wrong way round, or between two equal ones |
| Sorting.AllOrderedIsOrderedBy | engine.py:100-115 | documents all of whose columns are ordered can be sorted |
| Sorting.ComparableIsOrdered | engine.py:106-112 | a column in which no comparison raises a TypeError is ordered |
| Sorting.EqualPrintsAreEven | engine.py:106-112 | a separated column whose equal values print alike is ordered |
| Sorting.OverlappingLists | engine.py:106-112 | [], [1] and ["a"]: an ordered column with values `<` cannot compare |
| Sorting.SortDocumentsStable | engine.py:96-117 | for documents that can be sorted by the keys the result is their one stably sorted arrangement |
| Sorting.DescendingMeans | engine.py:114 | the directions that descend are "desc" in any mixture of cases |
| Sorting.SortedInOrder | engine.py:96-117 | of two sorted documents that agree on the first k keys, the earlier one's value of the next may precede the other's: it is less or equal, or first as text where `<` cannot compare, missing ones last; the other way round for "desc" |
| Sorting.NumbersSorted | engine.py:96-117 | a field of numbers sorted by "asc" does not decrease and by "desc" does not increase |
| Sorting.UnsortedStay | engine.py:97-98 | without keys the documents stay as they are |
| Sorting.KeyByKey | engine.py:96-117 | on ordered columns, sorting by several keys is stable sorting key by key from the last to the first |
| Sorting.MissingAtTheEnd | engine.py:91-105 | documents without the first field come last ascending and first descending |
| Sorting.MixedColumnExamples | engine.py:106-112 | 9 < 10 < "1a" < 9, and 1 and "1" are each after the other: columns that do not fit |
| Sorting.NamesTie | engine.py:111-112 | null and "None", and the booleans and their names, are each after the other |
| Indexes.HashIndex.AddKey | hash.py:29-34 | an id joins its key's bucket unless a unique index has another id there; a refusal changes nothing |
| Indexes.HashIndex.RemoveKey | hash.py:36-43 | an id leaves its key's bucket, and an emptied bucket goes |
| Indexes.HashIndex.Lookup | hash.py:45-46 | the bucket of the normalised key, empty when there is none |
| Indexes.HashIndex.Add | hash.py:55-58 | a document with the field or all fields is added under its key, any other is not |
| Indexes.HashIndex.Remove | hash.py:60-63 | the document's id leaves the bucket of its key |
| Indexes.AddToInverse | hash.py:29-34 | adding a document to the inverse image of documents gives the inverse image of one more |
| Indexes.RemoveFromInverse | hash.py:36-43 | removing one gives the inverse image of one fewer, with no empty bucket |
| Indexes.HistoryIsInverse | hash.py:29-92 | after any history of inserts, replaces and deletes the buckets are exactly the inverse image of the current documents, and unique ones hold one id to a key |
| Indexes.ChangeRefusedIffTaken | hash.py:29-92 | a change is refused iff the index is unique and another document has the new key; otherwise the documents and the inverse image change by it |
| Indexes.SomeHistory | hash.py:29-92 | a document that comes, changes and goes |
| Indexes.RefusalNeedsPreflight | hash.py:29-43 | a replace whose add is refused after its remove leaves the index as it was iff the old document was not indexed; checked first, it always does |
| Indexes.RefusedReplace | hash.py:29-43 | a concrete replace that is refused and loses the old entry |
| Indexes.Build | hash.py:103-120 | building over a list of documents succeeds iff uniqueness allows it, and then gives the inverse image of their set, whatever the order |
| Indexes.CanAddMeansNoDuplicate | hash.py:29-34 | the next document is refused only if an earlier one with another id has its key, and if it is not, there is still no duplicate |
| Indexes.IndexManager.Create | hash.py:103-120 | an existing index is returned; creation fails iff two documents with different ids share a key or there are no fields, and then no index changes |
| Indexes.IndexManager.Drop | hash.py:122-126 | exactly the named index goes |
| IndexScan.SingleFieldScanAgrees | hash.py:45-46 | for every query that binds the field to a scalar, filtering the lookup's documents gives the full scan |
| IndexScan.CompositeScanAgrees | hash.py:77-92 | the same for a composite index whose fields are all bound to scalars |
| IndexScan.LookupExact | hash.py:20-46 | a lookup finds exactly the ids of the documents with an equal value, except that strings and representations of containers share keys |
| IndexScan.CompositeLookupExact | hash.py:77-92 | a composite lookup finds exactly the ids of the documents that have every field, with values equal one by one, or, where some value is a container, with the same representation of the tuple |
| IndexScan.ClauseBinds | hash.py:45-46 | `{field: v}` and an `$eq` among a field's operators bind the field |
| IndexScan.ContainerScan | hash.py:20-46 | for every query that binds the field, filtering the lookup's documents gives the full scan iff the value is a scalar or every document selected prints it alike |
| IndexScan.CompositeContainerScan | hash.py:77-92 | the same for a composite index with all fields bound: iff all values are scalars or every document selected prints the tuple alike |
| IndexScan.ContainerMissed | hash.py:20-27 | [True] equals [1] and prints differently: the document is missed |
| Protocol.HeaderOrder | protocol.py:34 | the length header is big-endian: headers are ordered like lengths |
| Protocol.RecvExact | protocol.py:37-46 | under any chunking the loop ends with exactly the bytes asked for and the stream right after them, or with an end of file |
| Protocol.DecodeFrame | protocol.py:49-60 | one frame is decoded and the stream left at its end |
| Protocol.ReadEncoded | protocol.py:29-60 | an encoded message decodes to itself with version 1 added, iff it carries no other version, and decoding stops at the frame's end |
| Protocol.TruncatedFrame | protocol.py:37-50 | a frame cut anywhere never yields a message |
| Protocol.InsideFrameNeverDecodes | protocol.py:49-60 | decoding that starts inside a reply never gives a message, whatever follows |
| Protocol.FramingTheorem | protocol.py:29-60 | concatenated frames cut anywhere decode to exactly the complete messages in order, then end of file |
| Protocol.ReadFrames | protocol.py:29-60 | frames before any other bytes decode to their messages in order |
| Protocol.FrameMeans | protocol.py:29-34 | a frame is the length in four bytes and the message as JSON, every field kept and version 1 added if it has none; a body of more than 8 MiB is not sent |
| Protocol.ReadFrameMeans | protocol.py:49-60 | which bytes are refused, and with which text |
| Protocol.Handle | protocol.py:98-119 | the loop of the handler sends exactly the specified replies, with the texts and codes of errors, and leaves the specified database |
| Protocol.ServeAnswersInOrder | protocol.py:98-119 | each whole request gets one reply, in order, computed on the database the previous one left |
| Protocol.AnswersMean | protocol.py:98-119 | reply k is the response, under the request's id, or the error and code, of dispatching request k to the fold of the dispatcher over the requests before it; the database afterwards is that fold, up to the request whose reply was too large |
| Protocol.ServeFrames | protocol.py:98-119 | whole frames and then bytes that are none: the answers, and one reply that names the reason if the bytes are refused |
| Client.RunKeeps | protocol.py:165-184 | every run keeps client, connections and handlers in step, although any step may fail |
| Client.Correlation | protocol.py:165-184 | a call that returns a result returns the server's answer to that very request, which is the call's operation with a fresh id: the answer echoes the id and its `ok` is true |
| Client.HandleServesBytes | protocol.py:98-119 | a step of the machine's handler is what the handler does with the bytes of the request |
| Client.DispatchedWithinAttempts | protocol.py:165-184 | a call is dispatched at most as often as it may try |
| Client.AtMostOnce | protocol.py:166 | a call that is not idempotent is dispatched at most once, whatever fails |
| Client.AnythingMayFail | protocol.py:165-184 | calls start, attempts fail and connections break, in the machine, whenever they may |
| Client.RetryReturns | protocol.py:165-184 | the bound is met: a call with two attempts is dispatched twice and returns the second answer |
| SharedClient.RunKeeps | protocol.py:165-184 | every run of several callers keeps lock, connections and requests in order |
| SharedClient.OwnReplyIffNoneAhead | protocol.py:165-184 | a call on a shared client returns the answer to its own request iff no reply was still to be read on the connection when it was sent |
| SharedClient.SerializedCallsCorrelate | protocol.py:165-184 | when no call takes the lock between another's failure and its close, every call returns its own answer |
| SharedClient.LateReplyMisread | protocol.py:169-181 | a run in which a caller reads the late reply to another's request |
| SharedClient.AnythingMayFail | protocol.py:165-184 | the same for callers that share a client, part of a reply read included |
| SharedClient.SerializedRun | protocol.py:165-184 | a serialized run in which a call fails and another returns its own answer |
| RateLimit.TokenBucket.Consume | core.py:192-200 | the tokens before a call are the lesser of the capacity and tokens + refill * elapsed; it is granted iff the amount is at most that, and then taken |
| RateLimit.TokensAreLeastAllowance | core.py:184-200 | after any calls the tokens are exactly the least, over all windows so far, of capacity plus inflow less what was granted |
| RateLimit.RefusedIffSomeWindowBreaks | core.py:197-200 | a call is granted iff it breaks the bound of no window |
| RateLimit.WindowBound | core.py:192-200 | under a monotone clock, what is granted from any call on is at most capacity + refill * the time from it to the last call |
| RateLimit.WaitingGrants | core.py:194-200 | a call of at most the capacity is granted once (amount - tokens) / refill has passed |
| RateLimit.BurstExact | core.py:210-214 | a new key is granted exactly as many checks at one moment as the capacity has units |
| RateLimit.RateLimiter.Check | core.py:210-214 | the key's own bucket, created full if new, decides; no other bucket changes |
| RateLimit.KeysAreIndependent | core.py:210-214 | interleaved keys behave as buckets of their own |
| RateLimit.DecisionsAreIndependent | core.py:210-214 | each decision is the one the key's own bucket makes |
| Audit.AuditLogger.constructor | core.py:218-231 | opening succeeds iff every line carries a hash, continues from the last one, from 64 zeros if there is none, and so opens a file that recording wrote where recording left it |
| Audit.AuditLogger.Record | core.py:233-242 | one record linked to the previous hash is appended, its hash becomes the previous one, and the file stays what serialized recording writes |
| Audit.WrittenIsChain | core.py:233-242 | every serialized sequence of records links each to the one before |
| Audit.WrittenKeepsBodies | core.py:233-242 | record i is body i and two hashes |
| Audit.ReopenFindsHead | core.py:222-230 | reopening a chain finds its final hash |
| Audit.FinalHashBinds | core.py:233-242 | with a binding digest, chains with the same final hash are equal: any change, loss or reordering shows |
| Audit.SameHashSameBodies | core.py:233-242 | with a binding digest, logs with the same final hash recorded the same events in the same order |
| Formats.TextBinds | core.py:235 | the text that is digested is itself a binding digest |
| Audit.ChainIffSerialized | core.py:233-242 | with a binding digest, a log is a chain iff each call read the previous hash after all records before its own were written |
| Audit.RacingRecordsBreakTheChain | core.py:234-242 | the smallest race: two records that read the previous hash before either is written are no chain |

## Left out

- The storage engine, collections, batches, the cluster, aggregation, the planner and the HTTP and command-line layers: their code is not part of this model; only the contract they keep towards the log and the snapshots is used.
- Sorting.KeyByKey: asks that every column is ordered by itself, because sorting by a key whose column is not has no definite result.
- JsonCodec.RoundTrip: numbers with fractions or exponents are no values here.
- Wal.WriteAheadLog.Replay: a line that is not UTF-8 is malformed in the source, and may decode here; `apply` does not raise.
- Durability.CrashedReopens: the repair of a torn log is a step of the model that the source does not have; see above.
- Query.Match: a query is given as its ordered clauses; reading them from a dict is not modelled.
- IndexScan.ContainerScan: `repr` is a function of the value, so two equal dicts with different key orders cannot be told apart.
- Durability.CrashSafety: a crash leaves a prefix of what was written; sectors written out of order or corrupted in place are not modelled.
- JSON fractions and exponents, NaN and infinities, escapes above `\u007f`, and lone surrogates: the parser rejects them.
- Floating point: token buckets use exact reals; `$gt` and the like compare integers, booleans, strings and lists.
- `dict()` of a non-empty list in a foreign log payload counts as malformed.
- Error texts but those the protocol sends, file permissions, directory creation, timeouts as durations, and asynchronous exceptions such as an interrupt.
- HashIndex and CompositeHashIndex are one class with a specification of what is indexed, and the manager's two dictionaries one map by it.
- A list inside a document is one value in `HeapPaths`; paths never go into lists.
- Credentials, roles and tenant names: mostly facts of one branch.
