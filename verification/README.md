# LevelDB and nanopb, as vendored in LoveCoupons

A model of the LevelDB storage engine (`Pods/leveldb-library`) and of the nanopb message codec
(`Pods/nanopb`), the two libraries under the app's local store that have the most to get right. Paths in
module headers are relative to the library they name.

`dafny verify dfyconfig.toml` checks the whole project.

## What the model says

**Reads follow the history.** `Database` is the engine as a state machine: writes, memtable switches,
flushes that may land while a compaction runs, compactions, trivial moves and snapshots. `Runs` shows for
every run that the levels stay sorted, disjoint and ordered by age, and that every read, at the last sequence
number and at every live snapshot, returns what replaying the writes would give. Two things can go wrong in
the code, and both conditions are exact:

- A compaction drops a deletion marker when no level below level+1 holds the key. If the choice of files at
  level+1 cuts the key in two, the older half stays outside the inputs and the deleted key is back.
  `ReadsFollowExactly` says that reads are right if and only if no installation does this;
  `DeletedKeyComesBack` is a run from the empty database that does, in which every flush goes to the level the
  code picks and every compaction is an automatic one that the code would not turn into a move. Its keys 1, 2
  and 3 stand for any three keys in that order; its outputs are cut where the size limit is reached, with each
  entry taken to end a table block.
  `Uncut` shows that closing the choice at level+1, as the code does at the level itself, would be enough.
- A manual compaction may have a gap between its inputs. A memtable flushed into the gap while it runs is
  then overlapped by an output. `InstallValidExactly` and `BareRuns` say that levels stay valid if and only if
  the outputs fit, `FlushIntoGap` is a run in which they do not, and `Automatic` shows that with automatic
  compactions they always do, because their inputs leave no gap.

`DbImpl` has the operations themselves, on top of the search (`Versions`), the choice of inputs (`Overlap`,
`Inputs`, `Picks`), the compaction loop and where it cuts its output (`Filter`, `Cutting`, `Compactions`,
`TableWork`) and the version edits (`Edits`). What is chosen and where files end is determined exactly, not only
bounded.

**Crashes.** `LogRecovery` shows that any byte prefix of a log gives back exactly the records wholly inside it,
and `LogChecks` that no bytes at all give a record that was not written with its checksum. `ManifestReplay` does
the same for the manifest, up to the version that was current at the cut, and `LogReplay` for batches in a
write-ahead log. `Crash` puts the engine and its logs together, and `Recovery` opens a database again from the
bytes that are left: levels are valid, synced writes are there, and reads follow the history that survived.
`Journal` adds the manifest to the run, so that what recovery reads from it is what the run wrote. `Restart`
shows that the database left by recovery is one that a run may start from, and `Lives` puts any number of runs
and crashes one behind the other: while no compaction brings a key back, every one of them is right, and a
synced write stays in the history for ever (`AllLivesAreGood`, `DurableForever`). The surviving history need not
be a prefix of what was written: a log is closed without a sync when the memtable is switched, so a synced write
can survive without an earlier unsynced one (`LaterWriteSurvivesAlone`, `PrefixExactly`). With `reuse_logs` a
log whose last record is torn is gone on with all the same, and the record added behind the torn one is lost
(`TornLogLosesRecord`, `WholeLogGoesOn`).

**Concurrency.** `GroupCommit` and `GroupRuns` are the write queue in every interleaving of writers: one order,
no torn batch, stable snapshots, durable synced writes. A comment at db/db_impl.h:56 promises that a write
without a batch switches the memtable; the code lets such a write be absorbed into a group (`SwitchIsForced`,
`NullWriteSealsExactly`, `NullWriteMayNotSwitch`). `SkipListRuns` is the skip list, load by load and store by
store, with any number of readers. `FileCollection` is the deletion of obsolete files beside readers and a
worker.

**Iterators and tables.** `DbIter`, `Merger`, `TwoLevel` and `BlockIterator` are iterators that go both ways,
each against one flat sorted list. `BlockFormat`, `Bloom`, `FilterBlock`, `Separators` and `TableFormat` are the
parts of a table; `TableBuilding` writes its bytes, and `TableFile` opens and searches them: a lookup in the
bytes of a built table is a search of the entries that were added. `HashTable` and `LruCache` are the block
cache.

**nanopb.** `ProtoEncoder` and `ProtoDecoder` are the two passes over a field table, and `ProtoRoundTrip` shows
that decoding undoes encoding for every table and every message the C structures can hold, and what a receiver
with another table makes of it. `ProtoWire` ties each tag to the bytes behind it, and `ProtoLimits` says what the
decoder does with bytes that other encoders may have written.

Keys of the engine are reals in place of byte strings: `Rank` embeds byte strings in [0, 1) and
`RankPreservesOrder` shows that order and equality are kept, so that statements about all reals hold of all
keys. File sizes, size limits, random heights, the CRC and the hash functions are parameters of the members
that use them.

Where code and documentation disagree the model follows the code: besides db_impl.h:56 above,
`VersionEdit::Clear` leaves compact pointers in place (`EditRoundTrip`), and the version builder needs file
numbers that are never used again (`ReusedNumberComesBack`), which nothing in it checks.

## Model

| member | source | states |
|---|---|---|
| `Keys.RankPreservesOrder` | LoveCoupons/Pods/leveldb-library/util/comparator.cc:25-27 | Byte strings compare as their ranks do, and equal ranks mean equal strings: bytewise keys embed in the ordered user keys of the engine model |
| `Keys.VisibleIsAtOrAfterSeek` | LoveCoupons/Pods/leveldb-library/db/dbformat.cc:51-67 | In internal-key order the entries of a user key that a read at a sequence number may see are exactly those at or after the seek key |
| `Runs.ReadsFollowExactly` | LoveCoupons/Pods/leveldb-library/db/db_impl.cc:878-1036 | For every run of writes, switches, flushes, compactions, moves and snapshots, from any opened database whose reads are right: reads at the last sequence and at every live snapshot agree with replaying the writes at all moments, if and only if no installation drops a marker while an older value is the newest entry left outside the inputs |
| `Runs.ReadsFollowHistory` | LoveCoupons/Pods/leveldb-library/db/db_impl.cc:878-1036 | The same at one moment of a run: until an installation brings a key back, every read still returns what the history says |
| `Runs.ReadsFollowPrefix` | LoveCoupons/Pods/leveldb-library/db/db_impl.cc:1185-1258 | From the empty database, a read at sequence number q returns what replaying the first q writes leaves |
| `Runs.RunKeepsLevels` | LoveCoupons/Pods/leveldb-library/db/version_set.cc:801-884 | At every moment of every run, whatever the compactions choose at level+1: levels above zero are sorted and disjoint, newer data of a key lies in upper levels, memory is newer than files, and everything held comes from the history |
| `Runs.InstallValidExactly` | LoveCoupons/Pods/leveldb-library/db/db_impl.cc:860-876 | Installing the outputs of a compaction gives valid levels if and only if no output overlaps a file that stays at level+1 |
| `Runs.InstallFaithfulExactly` | LoveCoupons/Pods/leveldb-library/db/db_impl.cc:860-876 | Installing keeps every read that can still be asked for if and only if no dropped marker uncovers an older value |
| `BareRuns.LevelsValidExactly` | LoveCoupons/Pods/leveldb-library/db/version_set.cc:723-738 | For every run without the overlap check, which release builds leave out: the levels are valid at all moments if and only if the outputs of every installation fit |
| `BareRuns.BareReadsFollowExactly` | LoveCoupons/Pods/leveldb-library/db/version_set.cc:723-738 | For such runs, levels are valid and reads follow the history at all moments if and only if every installation fits and none brings a key back |
| `Installs.InstallReadsExactly` | LoveCoupons/Pods/leveldb-library/db/db_impl.cc:930-976 | Reads of a key from a sequence number on are the same before and after an installation if and only if the installation does not bring the key back |
| `Installs.FlushKeepsLevels` | LoveCoupons/Pods/leveldb-library/db/db_impl.cc:491-533 | A flush, also while a compaction runs, keeps the level invariant and loses and adds no entry |
| `Filter.ReadsKeptExactly` | LoveCoupons/Pods/leveldb-library/db/db_impl.cc:930-963 | Reads at every sequence number from the smallest snapshot on survive the drop rules if and only if no older value is left outside the input under a dropped marker |
| `Filter.OutputIs` | LoveCoupons/Pods/leveldb-library/db/db_impl.cc:930-963 | The look at the previous key and sequence number drops exactly the entries that have a newer one of the same key at or below the smallest snapshot, and the markers at or below it without deeper data |
| `Filter.HiddenIsShadowed` | LoveCoupons/Pods/leveldb-library/db/db_impl.cc:943-945 | In sorted input, the sequence number of the entry just before tells whether any entry shadows this one |
| `Levels.ReplacedIsValid` | LoveCoupons/Pods/leveldb-library/db/version_set.cc:695-739 | Replacing inputs by outputs made of their entries keeps the levels valid when the outputs fit and what stays down to the compacted level is newer than the inputs; the choice at level+1 need not be closed |
| `Levels.AddedIsValid` | LoveCoupons/Pods/leveldb-library/db/version_set.cc:491-516 | The newest file added at a level that it reaches without meeting other files keeps the levels valid |
| `Levels.MisfitBreaksLevel` | LoveCoupons/Pods/leveldb-library/db/version_set.cc:723-738 | An output that overlaps a file left at level+1 leaves that level unsorted |
| `Uncut.UncutReadsFollow` | LoveCoupons/Pods/leveldb-library/db/version_set.cc:1378-1411 | If no compaction leaves a boundary file at level+1, all reads of all runs follow the history |
| `Uncut.UncutSpoilsNothing` | LoveCoupons/Pods/leveldb-library/db/version_set.cc:1403-1431 | With a choice closed at both levels, nothing older than a dropped marker stays outside the inputs, whatever was flushed meanwhile |
| `Automatic.AutoRunIsRun` | LoveCoupons/Pods/leveldb-library/db/version_set.cc:1270-1322 | With compactions picked automatically, each either a trivial move or a rewrite as the code decides, and memtables flushed to the level the code picks: the overlap check never fails, also when a flush lands at level+1 while a compaction runs, because the inputs leave no gap for it |
| `Automatic.AutoLevelsAreValid` | LoveCoupons/Pods/leveldb-library/db/version_set.cc:1270-1322 | So in such runs the levels are valid at every moment, with no guard that the code does not make |
| `Automatic.AutoReadsFollowExactly` | LoveCoupons/Pods/leveldb-library/db/version_set.cc:1270-1322 | And their reads follow the history if and only if no installation brings a key back |
| `Counterexamples.DeletedKeyComesBack` | LoveCoupons/Pods/leveldb-library/db/version_set.cc:1403-1431 | A run from the empty database at the default overlap limit: every memtable goes to the level that is picked for it, every compaction is exactly what the code chooses for the one file of its level and is no trivial move, and outputs end where the size limit is reached. It ends in a read of a deleted key that returns its old value: the last choice at level+1 leaves a boundary file |
| `GapExample.FlushIntoGap` | LoveCoupons/Pods/leveldb-library/db/version_set.cc:1464-1495 | A run from the empty database in which a memtable is flushed, at the level the code picks, into the gap of a manual compaction; the installation leaves level one unsorted while the history says the flushed value |
| `GapExample.ReadKeyTwo` | LoveCoupons/Pods/leveldb-library/db/version_set.cc:326-421 | In that state the level-by-level search returns the old value of the flushed key |
| `DbImpl.DBImpl.constructor` | LoveCoupons/Pods/leveldb-library/db/db_impl.cc:1474-1515 | A new database is in the initial state and satisfies the invariant |
| `DbImpl.DBImpl.Get` | LoveCoupons/Pods/leveldb-library/db/db_impl.cc:1100-1145 | Memtable, immutable memtable, then the version: the value that the history up to the snapshot, or the last sequence, gives the key |
| `DbImpl.GetInRun` | LoveCoupons/Pods/leveldb-library/db/db_impl.cc:1100-1145 | The same search in any state of any run returns the value the history says, as long as no installation has brought a key back |
| `DbImpl.DBImpl.Write` | LoveCoupons/Pods/leveldb-library/db/db_impl.cc:1223-1236 | A group enters the memtable under consecutive sequence numbers: one write step of the state machine, and the invariant is kept |
| `DbImpl.DBImpl.SwitchMemTable` | LoveCoupons/Pods/leveldb-library/db/db_impl.cc:1346-1366 | The memtable becomes immutable and a new one is empty |
| `DbImpl.DBImpl.CompactMemTable` | LoveCoupons/Pods/leveldb-library/db/db_impl.cc:535-566 | The immutable memtable becomes one file at exactly the level that is picked for it, also while a compaction runs |
| `DbImpl.DBImpl.BackgroundCompaction` | LoveCoupons/Pods/leveldb-library/db/db_impl.cc:715-745 | The choice is moved if and only if it is an automatic one that may simply move, and otherwise it is the compaction that starts; an automatic choice without gaps makes one step of the automatic machine |
| `DbImpl.DBImpl.BeginCompaction` | LoveCoupons/Pods/leveldb-library/db/db_impl.cc:688-767 | Any picked choice of inputs starts a compaction with the oldest snapshot of that moment, and keeps the invariant |
| `DbImpl.DBImpl.FinishCompaction` | LoveCoupons/Pods/leveldb-library/db/db_impl.cc:878-1036 | Merging, dropping, cutting into files exactly at their limits and installing is one installation step; levels stay valid if the outputs fit, and all readable reads are kept if and only if no key is brought back |
| `DbImpl.DBImpl.MoveFile` | LoveCoupons/Pods/leveldb-library/db/db_impl.cc:718-733 | A trivial move puts the one input file at the next level and keeps the invariant |
| `DbImpl.DBImpl.GetSnapshot` | LoveCoupons/Pods/leveldb-library/db/db_impl.cc:1166-1169 | A snapshot of the last sequence joins the list |
| `DbImpl.DBImpl.ReleaseSnapshot` | LoveCoupons/Pods/leveldb-library/db/db_impl.cc:1171-1174 | A snapshot leaves the list; the oldest readable sequence number never goes down |
| `DbImpl.IteratorWalksHistory` | LoveCoupons/Pods/leveldb-library/db/db_impl.cc:1062-1087 | The live entries of the merged list are exactly the keys and values that the history up to the sequence number holds, each key once and in key order |
| `Versions.FindFile` | LoveCoupons/Pods/leveldb-library/db/version_set.cc:88-106 | The binary search ends at a file boundary for any list, and in a sorted level at the first file whose largest key is at or after the target |
| `Versions.Get` | LoveCoupons/Pods/leveldb-library/db/version_set.cc:326-421 | The search by levels returns what brute force over all entries of the version returns |
| `Versions.SearchLevelZero` | LoveCoupons/Pods/leveldb-library/db/version_set.cc:349-364 | Overlapping files newest first: the first answer is the newest visible entry of the whole level |
| `Versions.SearchSortedLevel` | LoveCoupons/Pods/leveldb-library/db/version_set.cc:366-381 | In any list the answer is the one of the file where the search lands; in a sorted level it is the newest visible entry of the level |
| `Versions.FirstLevelAnswers` | LoveCoupons/Pods/leveldb-library/db/version_set.cc:383-418 | The first level that has an answer has the newest entry of the version |
| `Overlap.SomeFileOverlapsRange` | LoveCoupons/Pods/leveldb-library/db/version_set.cc:122-158 | True if and only if some file meets the range, by scan or by one binary search |
| `Overlap.GetOverlappingInputs` | LoveCoupons/Pods/leveldb-library/db/version_set.cc:519-559 | The files that meet a range; at level zero, the restarts end at the least range that covers every file it meets |
| `Overlap.PickLevelForMemTableOutput` | LoveCoupons/Pods/leveldb-library/db/version_set.cc:491-516 | Exactly the first level where sinking must stop: an overlap at level zero or at the next level, too many grandparent bytes, or the deepest level a memtable may go to; the file meets nothing from level zero down to there |
| `Inputs.GetRange` | LoveCoupons/Pods/leveldb-library/db/version_set.cc:1205-1222 | The least key range that covers all the files |
| `Inputs.FindLargestKey` | LoveCoupons/Pods/leveldb-library/db/version_set.cc:1326-1339 | The largest key of the files, or nothing for no files |
| `Inputs.FindSmallestBoundaryFile` | LoveCoupons/Pods/leveldb-library/db/version_set.cc:1344-1362 | Among the files that start after a key with the same user key, one with the least start; none only if there is none |
| `Inputs.AddBoundaryInputs` | LoveCoupons/Pods/leveldb-library/db/version_set.cc:1378-1401 | One boundary file after another, each with the least start behind the largest key so far, until the level has none, for any order of the level |
| `Inputs.ConvexIsClosed` | LoveCoupons/Pods/leveldb-library/db/version_set.cc:1364-1401 | A run of neighbours of a sorted level without boundary files leaves out only files that hold newer entries of shared keys |
| `Inputs.SetupOtherInputs` | LoveCoupons/Pods/leveldb-library/db/version_set.cc:1403-1462 | Exactly one choice for a seed: its boundary files, the level+1 files that meet its range, the expansion if it pays and there are any, the grandparents of all, and the largest chosen key as the next compaction pointer; the level choice is closed under age, and without gaps if the seed had none |
| `Inputs.TryExpand` | LoveCoupons/Pods/leveldb-library/db/version_set.cc:1422-1446 | The wider choice, all that meets the range of all inputs with its boundary files, if and only if it has more files, stays below the byte limit and meets as many level+1 files; otherwise what there was. Either is a valid choice that keeps all the files and leaves no gap where there was none |
| `Picks.PickCompaction` | LoveCoupons/Pods/leveldb-library/db/version_set.cc:1270-1322 | None exactly when neither size nor seeks ask for one; otherwise the choice that the first file behind the compaction pointer leads to, or the one seeks asked for, in level zero with all it is entangled with; it has no gaps, and the pointer moves to the largest chosen key |
| `Picks.NextFollows` | LoveCoupons/Pods/leveldb-library/db/version_set.cc:1283-1298 | Picked from a pointer at the end of a file, the next file of a sorted level follows, and the first one behind the last |
| `Picks.CompactRange` | LoveCoupons/Pods/leveldb-library/db/version_set.cc:1464-1495 | None if and only if no file of the level meets the range; otherwise the choice that the files in the range lead to, in level zero those of the least closed range around it, above as many from the first on as reach the size limit; it may have gaps, and the pointer moves to the largest chosen key |
| `Picks.TrivialMoveExactly` | LoveCoupons/Pods/leveldb-library/db/version_set.cc:1515-1523 | A choice is a trivial move if and only if it is one file that meets no file of the next level and at most the limit of bytes two levels down |
| `Compactions.Compaction.IsBaseLevelForKey` | LoveCoupons/Pods/leveldb-library/db/version_set.cc:1533-1552 | Asked about keys in order, the moving level pointers tell exactly whether a deeper level may hold the key |
| `Compactions.Compaction.ShouldStopBefore` | LoveCoupons/Pods/leveldb-library/db/version_set.cc:1554-1576 | The grandparent index moves to the first file not before the key; it stops if and only if the bytes of the grandparents passed since the last stop exceed the limit, and then counts from there |
| `Compactions.DecideDrop` | LoveCoupons/Pods/leveldb-library/db/db_impl.cc:930-963 | An entry is dropped if and only if the one before hides it or it is an obsolete marker |
| `Compactions.DoCompactionWork` | LoveCoupons/Pods/leveldb-library/db/db_impl.cc:920-999 | The output files, one after another, are valid, sorted and hold exactly the surviving entries, and they end exactly where they must: none goes on behind the entry that reaches the size limit or across a stop for its grandparents, and each but the last ends at one of these |
| `Cutting.StopsExactly` | LoveCoupons/Pods/leveldb-library/db/version_set.cc:1554-1576 | A stop comes before an entry if and only if the grandparents that end between the last stop, or the first entry, and this one have more bytes than the limit; dropped entries count too |
| `Cutting.CutsOverlapFew` | LoveCoupons/Pods/leveldb-library/db/version_set.cc:1554-1576 | So no output passes more than the limit of the grandparent bytes that end inside it |
| `Cutting.SmallGrandparents` | LoveCoupons/Pods/leveldb-library/db/db_impl.cc:920-927 | With grandparents within the limit the cuts are those of the size limit alone |
| `TableWork.InsertInto` | LoveCoupons/Pods/leveldb-library/db/write_batch.cc:132-137 | A batch leaves the memtable sorted, with its operations added under consecutive sequence numbers |
| `TableWork.LogAndApply` | LoveCoupons/Pods/leveldb-library/db/version_set.cc:816-821 | The next version holds, level by level, the files of the last one without the deleted and with the added ones, in order |
| `TableWork.MergeInputs` | LoveCoupons/Pods/leveldb-library/db/version_set.cc:1237-1268 | One child for each level-zero file and one for each sorted level merge into the sorted list of all input entries |
| `TableWork.CompactFiles` | LoveCoupons/Pods/leveldb-library/db/db_impl.cc:878-1036 | From chosen files to the next version: merged input, surviving output under fresh numbers and cut exactly at its limits, inputs replaced |
| `Edits.Builder.Apply` | LoveCoupons/Pods/leveldb-library/db/version_set.cc:650-692 | Every level of the builder changes as the edit says: deletions noted, added files inserted and no longer deleted |
| `Edits.Builder.SaveTo` | LoveCoupons/Pods/leveldb-library/db/version_set.cc:695-754 | Each level is sorted by smallest key and holds exactly the base and added files that are not deleted |
| `Edits.ReplayIsInTurn` | LoveCoupons/Pods/leveldb-library/db/version_set.cc:650-739 | If a file number is never used for two files, one builder fed many edits gives the files that applying the edits in turn gives |
| `Edits.ReusedNumberComesBack` | LoveCoupons/Pods/leveldb-library/db/version_set.cc:668-690 | If a number is used again for another file, a deleted file comes back |
| `Edits.SameMembersSameLevel` | LoveCoupons/Pods/leveldb-library/db/version_set.cc:590-605 | The order by smallest key and number makes a level a function of its set of files |
| `ManifestReplay.Recover` | LoveCoupons/Pods/leveldb-library/db/version_set.cc:886-1011 | Recovery succeeds if and only if all records are read, decode, name the same comparator and give the three needed numbers; it then holds those numbers and the sorted files of all edits |
| `ManifestReplay.ReadEdits` | LoveCoupons/Pods/leveldb-library/db/version_set.cc:926-970 | All records go through one builder, up to the first damaged or refused one |
| `ManifestReplay.ReplayedIsMade` | LoveCoupons/Pods/leveldb-library/db/version_set.cc:650-739 | The version that one builder makes of the whole manifest is the list of files, level by level, that the installations made one after another |
| `ManifestReplay.RecoverAfterCrash` | LoveCoupons/Pods/leveldb-library/db/version_set.cc:886-1011 | From any byte prefix of a manifest, recovery gives exactly the version after the edits that are wholly inside, and their numbers |
| `ManifestReplay.WriteSnapshot` | LoveCoupons/Pods/leveldb-library/db/version_set.cc:1088-1116 | One edit with the comparator, exactly the compaction pointers that are set, and exactly the files of the version at their levels |
| `ManifestReplay.SnapshotMeans` | LoveCoupons/Pods/leveldb-library/db/version_set.cc:1088-1116 | Read back, such an edit is a snapshot of the version |
| `ManifestReplay.SnapshotIsBase` | LoveCoupons/Pods/leveldb-library/db/version_set.cc:1088-1116 | Edits after such a snapshot mean what they make of the version |
| `Manifest.EditRoundTrip` | LoveCoupons/Pods/leveldb-library/db/version_edit.cc:26-205 | Decoding an encoded edit gives it back into a new edit; into a used one, the compact pointers of before stay in front, because Clear does not clear them |
| `Manifest.EncodeTo` | LoveCoupons/Pods/leveldb-library/db/version_edit.cc:41-85 | The fields that are present, in a fixed order, appended to what is there |
| `Manifest.DecodeFrom` | LoveCoupons/Pods/leveldb-library/db/version_edit.cc:107-205 | Fields are read until the end or the first bad one, and only a complete read succeeds |
| `Crash.RecoveryFollowsHistory` | LoveCoupons/Pods/leveldb-library/db/db_impl.cc:280-369 | From any crash at any moment of a run that has brought no key back, whether the database was new or opened after earlier crashes, reads of what tables and logs still hold follow the history of the groups that are left |
| `Crash.SyncedSurvives` | LoveCoupons/Pods/leveldb-library/db/db_impl.cc:1213-1233 | Every group that was flushed, or synced in its log, is part of what is left |
| `Crash.PrefixExactly` | LoveCoupons/Pods/leveldb-library/db/db_impl.cc:1346-1366 | What is left is a prefix of the history of writes if and only if the older log lost nothing or nothing is left of the newer one |
| `Crash.LaterWriteSurvivesAlone` | LoveCoupons/Pods/leveldb-library/db/db_impl.cc:1346-1366 | A run in which a synced write survives without an earlier unsynced one, because a log is closed without a sync: the reads then match no prefix of the history |
| `Crash.TablesFollowExactly` | LoveCoupons/Pods/leveldb-library/db/db_impl.cc:860-876 | At all moments of a run the tables alone follow the flushed history if and only if no installation brings a key back |
| `Crash.InstallTablesExactly` | LoveCoupons/Pods/leveldb-library/db/db_impl.cc:860-876 | An installation keeps the last read of a key from the tables if and only if it does not bring the key back for the tables alone |
| `Crash.UncutSpoilsNoTables` | LoveCoupons/Pods/leveldb-library/db/version_set.cc:1378-1431 | A choice closed at both levels never does |
| `Recovery.Reopen` | LoveCoupons/Pods/leveldb-library/db/db_impl.cc:280-369 | End to end: from the bytes of the manifest that a run wrote, its last record possibly torn, and of the logs a crash leaves, opening succeeds with a valid version whose files and memtable read as the surviving history, synced groups included; a new run may start from it, and its reads start out right |
| `Recovery.OpenLogs` | LoveCoupons/Pods/leveldb-library/db/db_impl.cc:303-363 | From any recovered version and logs that read back: the version gets the recovered files in level zero, the memtable of the last log is kept if and only if that log is reused, together they hold exactly what was in tables and logs, and the numbers of the logs are used up |
| `Recovery.FindLogs` | LoveCoupons/Pods/leveldb-library/db/db_impl.cc:315-350 | Fails if and only if a live table is missing; otherwise exactly the logs at or above the log number, or the previous one, in the order of their numbers |
| `Recovery.RecoverLogs` | LoveCoupons/Pods/leveldb-library/db/db_impl.cc:335-356 | All logs in the order of their numbers; fails only with paranoid checks and a damaged log, and otherwise finds every batch that was read, in order, in files and at most one kept memtable: one is kept if and only if the last log is to be reused and never filled a memtable |
| `Recovery.WriteTables` | LoveCoupons/Pods/leveldb-library/db/db_impl.cc:491-533 | Recovered memtables become files under consecutive numbers, and an empty one takes a number and leaves no file |
| `Recovery.AddRecovered` | LoveCoupons/Pods/leveldb-library/db/db_impl.cc:491-533 | Recovered files join level zero: valid levels, with exactly their entries added |
| `Recovery.RewrittenStarts` | LoveCoupons/Pods/leveldb-library/db/version_set.cc:826-841 | The new manifest, a snapshot of the version before and the edit of the recovery, is one that a next run starts with |
| `Journal.RunKeepsStore` | LoveCoupons/Pods/leveldb-library/db/version_set.cc:801-884 | At every moment of a run that writes an edit for each flush, installation and move, the edits make the current version, their numbers cover what is in use, and a crash finds tables that follow the history |
| `Journal.NewStoreStarts` | LoveCoupons/Pods/leveldb-library/db/db_impl.cc:182-213 | The manifest of a new database is such a start |
| `Restart.NextStarts` | LoveCoupons/Pods/leveldb-library/db/db_impl.cc:280-369 | The database that recovery leaves satisfies the invariant of an engine beside its logs, with the surviving groups as its history |
| `Restart.NextBegins` | LoveCoupons/Pods/leveldb-library/db/db_impl.cc:280-369 | Its levels are valid and its reads follow that history, so everything said about runs holds of the next one |
| `Lives.ReopenedIsReborn` | LoveCoupons/Pods/leveldb-library/db/db_impl.cc:1474-1531 | What opening leaves, together with the rewritten manifest, is the start of a next life |
| `Lives.AllLivesAreGood` | LoveCoupons/Pods/leveldb-library/db/db_impl.cc:280-369 | Over any number of runs and crashes, one behind the other, every moment of every run satisfies the invariant of engine, logs and manifest |
| `Lives.DurableForever` | LoveCoupons/Pods/leveldb-library/db/db_impl.cc:1213-1233 | A write that was synced in its log or flushed to a table is part of the history at every later moment of every later run |
| `LogReplay.RecoverLogFile` | LoveCoupons/Pods/leveldb-library/db/db_impl.cc:371-489 | The memtables of one log hold the operations of all its records in order, and each but the last is full with its last batch and not before; the largest promised sequence number; with paranoid checks success if and only if nothing was damaged; the memtable is kept if and only if that is asked for and none was ever full |
| `LogReplay.InsertInto` | LoveCoupons/Pods/leveldb-library/db/write_batch.cc:42-137 | Each operation of a batch enters under the next sequence number up to the first damage, which is reported with the count mismatch |
| `LogReplay.LogGivesBack` | LoveCoupons/Pods/leveldb-library/db/db_impl.cc:371-489 | From any byte prefix of a log, exactly the groups wholly inside come back, with no damage reported |
| `WriteBatch.BatchRoundTrip` | LoveCoupons/Pods/leveldb-library/db/write_batch.cc:42-80 | Iterating over a batch gives back its operations, in order, and its sequence number |
| `WriteBatch.WriteBatch.Put` | LoveCoupons/Pods/leveldb-library/db/write_batch.cc:98-103 | One more operation, counted in the header |
| `WriteBatch.WriteBatch.Delete` | LoveCoupons/Pods/leveldb-library/db/write_batch.cc:105-109 | One more deletion, counted in the header |
| `WriteBatch.WriteBatch.Append` | LoveCoupons/Pods/leveldb-library/db/write_batch.cc:144-148 | The operations of another batch, possibly the same one, behind those of this one |
| `WriteBatch.WriteBatch.SetSequence` | LoveCoupons/Pods/leveldb-library/db/write_batch.cc:94-96 | A new sequence number in the header and no other change |
| `LogRecovery.CrashPrefix` | LoveCoupons/Pods/leveldb-library/db/log_reader.cc:56-174 | For every byte prefix of a log the reader returns exactly the records wholly inside it and reports nothing |
| `LogRecovery.LogRoundTrip` | LoveCoupons/Pods/leveldb-library/db/log_reader.cc:56-174 | A complete log gives back exactly what was written, whatever the lengths and block positions |
| `LogRecovery.WholeLogGoesOn` | LoveCoupons/Pods/leveldb-library/db/log_writer.cc:26-30 | A record added to a complete log by a writer that goes on with it is read back behind the others |
| `LogRecovery.TornLogLosesRecord` | LoveCoupons/Pods/leveldb-library/db/db_impl.cc:456-468 | Behind a torn record it is not: a reused log is gone on with at its length, and the torn header covers the beginning of the new record |
| `LogFormat.Writer.AddRecord` | LoveCoupons/Pods/leveldb-library/db/log_writer.cc:34-80 | The file grows by the encoding of the record at its position: fragments, types and zero trailers at block ends |
| `LogFormat.Writer.Reopen` | LoveCoupons/Pods/leveldb-library/db/log_writer.cc:26-30 | A writer that goes on with a file continues at the block position of its end |
| `LogFormat.Writer.EmitPhysicalRecord` | LoveCoupons/Pods/leveldb-library/db/log_writer.cc:82-108 | Header with masked checksum, length and type, then the payload |
| `LogReader.Reader.ReadRecord` | LoveCoupons/Pods/leveldb-library/db/log_reader.cc:56-174 | The method with its buffer does what the specification of a logical record says, for arbitrary bytes: same record, same reports, same rest |
| `LogReader.Reader.ReadPhysicalRecord` | LoveCoupons/Pods/leveldb-library/db/log_reader.cc:189-271 | The same for one physical record, over block boundaries, short trailers, bad lengths and bad checksums |
| `LogChecks.ParsesExactly` | LoveCoupons/Pods/leveldb-library/db/log_reader.cc:189-271 | With checksums verified, a physical record is found if and only if its bytes stand in the buffer as a writer makes them, checksum included, and are not the zeros of a preallocated file |
| `LogChecks.AllAreWritten` | LoveCoupons/Pods/leveldb-library/db/log_reader.cc:56-174 | Whatever the bytes of a file, each record that is read stands in it whole, as one full fragment or as a first, middle ones and a last in that order, each with a right checksum |
| `LogChecks.ChecksumCovers` | LoveCoupons/Pods/leveldb-library/db/log_writer.cc:82-108 | The checksum in a header is that of all bytes from the type on |
| `Coding.UnmaskMask` | LoveCoupons/Pods/leveldb-library/util/crc32c.h:22-38 | Unmasking a masked checksum gives it back |
| `Coding.MaskUnmask` | LoveCoupons/Pods/leveldb-library/util/crc32c.h:22-38 | And every stored number is the mask of exactly one checksum |
| `Coding.Fixed32RoundTrip` | LoveCoupons/Pods/leveldb-library/util/coding.cc:9-18 | A fixed 32-bit number is read back in front of any bytes |
| `Varint.RoundTrip32` | LoveCoupons/Pods/leveldb-library/util/coding.cc:112-128 | An encoded number below 2^32 is decoded wherever it stands, with the position behind it |
| `Varint.RoundTrip64` | LoveCoupons/Pods/leveldb-library/util/coding.cc:142-157 | The same below 2^64 |
| `Varint.EncodeVarint32` | LoveCoupons/Pods/leveldb-library/util/coding.cc:47-73 | The branches for one to five bytes write the seven-bit groups of the number |
| `Varint.GetVarint32PtrFallback` | LoveCoupons/Pods/leveldb-library/util/coding.cc:112-128 | The decoding loop finds the number, or fails on a missing end, as the recursive reading does |
| `Varint.SliceReads` | LoveCoupons/Pods/leveldb-library/util/coding.cc:181-189 | A length-prefixed slice is read back wherever it stands |
| `GroupRuns.NoTornBatch` | LoveCoupons/Pods/leveldb-library/db/db_impl.cc:1185-1306 | In every interleaving a snapshot lies wholly above or wholly below the sequence range of each writer |
| `GroupRuns.VisibleIsCommitted` | LoveCoupons/Pods/leveldb-library/db/db_impl.cc:1202-1236 | An entry at or below the last sequence is in the memtable if and only if a writer that has returned wrote it |
| `GroupRuns.SnapshotIsStable` | LoveCoupons/Pods/leveldb-library/db/db_impl.cc:1185-1258 | What is at or below the last sequence never changes again |
| `GroupRuns.CommitsAreTheHistory` | LoveCoupons/Pods/leveldb-library/db/db_impl.cc:1202-1248 | While nothing fails, the visible entries are the operations of all writers numbered in the order of arrival |
| `GroupRuns.ReturnsOnceInOrder` | LoveCoupons/Pods/leveldb-library/db/db_impl.cc:1239-1255 | Writers return in the order of arrival, each once, and are in the queue exactly until then |
| `GroupRuns.SyncedIsDurable` | LoveCoupons/Pods/leveldb-library/db/db_impl.cc:1213-1233 | A synced write that returned with success is in the part of the log that is on disk |
| `GroupRuns.SwitchIsForced` | LoveCoupons/Pods/leveldb-library/db/db_impl.cc:1185-1258 | A successful write without a batch leaves the memtable empty, all before it sealed in the older one, if it was first in the queue; absorbed in a group it leaves memtable and seal as they were |
| `GroupRuns.NullWriteSealsExactly` | LoveCoupons/Pods/leveldb-library/db/db_impl.cc:1185-1258 | Over any run: when such a write returns, all that was in memory when it came is sealed if and only if it was first in the queue or another switch has sealed it meanwhile |
| `GroupRuns.NullWriteMayNotSwitch` | LoveCoupons/Pods/leveldb-library/db/db_impl.cc:1260-1306 | A run in which such a write comes while another one is in memory, returns with success, and no memtable was ever switched |
| `GroupRuns.RunKeepsInv` | LoveCoupons/Pods/leveldb-library/db/db_impl.cc:1185-1258 | Log, memtable, queue and returned writers agree at every moment |
| `WriteQueue.WriteQueue.BuildBatchGroup` | LoveCoupons/Pods/leveldb-library/db/db_impl.cc:1260-1306 | The group ends at the first writer that must not join: a sync behind an unsynced leader, or a batch past the size limit, which is lower behind a small first one; a writer without a batch joins, and the operations go in queue order |
| `WriteQueue.WriteQueue.TakeLead` | LoveCoupons/Pods/leveldb-library/db/db_impl.cc:1191-1208 | The first writer is refused without room, forces a switch without a batch, and otherwise leads the one group that the rules allow |
| `WriteQueue.WriteQueue.SwitchMemTable` | LoveCoupons/Pods/leveldb-library/db/db_impl.cc:1346-1366 | A full memtable is sealed and an empty one takes its place before the leader goes on |
| `WriteQueue.WriteQueue.Finish` | LoveCoupons/Pods/leveldb-library/db/db_impl.cc:1236-1248 | The last sequence moves past the group and all its members return with one status |
| `WriteQueue.WriteQueue.AddRecord` | LoveCoupons/Pods/leveldb-library/db/db_impl.cc:1213-1216 | The group is appended to the log, or the append fails and nothing else changes |
| `WriteQueue.WriteQueue.Sync` | LoveCoupons/Pods/leveldb-library/db/db_impl.cc:1217-1232 | The log is on disk, or the failure stops all later writes |
| `SkipListRuns.RunKeepsInv` | LoveCoupons/Pods/leveldb-library/db/skiplist.h:337-368 | In every interleaving of one writer and any readers, after each single load and store, every level is sorted and a sublist of the one below |
| `SkipListRuns.SearchIsRight` | LoveCoupons/Pods/leveldb-library/db/skiplist.h:262-281 | A search that ran while nodes were inserted ends with the right answer for the list at its last load |
| `SkipListRuns.AdvanceIsRight` | LoveCoupons/Pods/leveldb-library/db/skiplist.h:206-210 | Next moves to the next entry in the list at that moment |
| `SkipListRuns.EntriesChange` | LoveCoupons/Pods/leveldb-library/db/skiplist.h:355-367 | The store at the lowest level is the one moment an entry enters; no other step changes the entries |
| `SkipListRuns.InsertCompletes` | LoveCoupons/Pods/leveldb-library/db/skiplist.h:355-367 | When Insert returns, the node is linked at exactly the levels below its height |
| `SkipListRuns.InsertedIsSeen` | LoveCoupons/Pods/leveldb-library/db/skiplist.h:262-281 | An entry that is in is never missed: any later search for a key at or before it stops at or before it |
| `SkipList.LevelIsSublist` | LoveCoupons/Pods/leveldb-library/db/skiplist.h:337-368 | Sorted levels with inclusion make the upper level a sublist of the lower |
| `MemTableList.List.Insert` | LoveCoupons/Pods/leveldb-library/db/skiplist.h:337-368 | With the predecessors found and linked level by level, the list holds one more entry at its place, and the new node is in the lists of exactly the levels below its height |
| `MemTableList.List.FindGreaterOrEqual` | LoveCoupons/Pods/leveldb-library/db/skiplist.h:262-281 | The first node at or after the key and, for each level in use, the last node before it |
| `MemTableList.List.Contains` | LoveCoupons/Pods/leveldb-library/db/skiplist.h:370-378 | True if and only if an equal entry is in the list |
| `MemTableList.Iterator.Seek` | LoveCoupons/Pods/leveldb-library/db/skiplist.h:223-226 | The same place that a search of the sorted entries finds |
| `MemTableList.Iterator.Prev` | LoveCoupons/Pods/leveldb-library/db/skiplist.h:212-221 | Without links back, a new search finds the entry just before |
| `DbIter.LiveIsView` | LoveCoupons/Pods/leveldb-library/db/db_iter.cc:168-198 | The entries an iterator may stop at are exactly the keys and values that reads at its sequence number return |
| `DbIter.LiveKeysIncrease` | LoveCoupons/Pods/leveldb-library/db/db_iter.cc:168-198 | They have different keys, in key order |
| `DbIter.DBIter.Next` | LoveCoupons/Pods/leveldb-library/db/db_iter.cc:141-166 | The live entry with the next larger key, whichever way the iterator went before |
| `DbIter.DBIter.Prev` | LoveCoupons/Pods/leveldb-library/db/db_iter.cc:200-225 | The live entry with the next smaller key, whichever way the iterator went before |
| `DbIter.DBIter.Seek` | LoveCoupons/Pods/leveldb-library/db/db_iter.cc:269-281 | The first live entry with a key at or after the target |
| `DbIter.DBIter.SeekToFirst` | LoveCoupons/Pods/leveldb-library/db/db_iter.cc:283-292 | The first live entry of all |
| `DbIter.DBIter.SeekToLast` | LoveCoupons/Pods/leveldb-library/db/db_iter.cc:294-300 | The last live entry of all |
| `DbIter.DBIter.FindNextUserEntry` | LoveCoupons/Pods/leveldb-library/db/db_iter.cc:168-198 | Forward past hidden and deleted entries, to the next live one beyond the skipped key |
| `DbIter.DBIter.FindPrevUserEntry` | LoveCoupons/Pods/leveldb-library/db/db_iter.cc:227-267 | Backward, to the last live entry before |
| `Merger.MergingIterator.Next` | LoveCoupons/Pods/leveldb-library/table/merger.cc:55-79 | The iterator over several sorted children is at the next entry of their merge, also after going backward |
| `Merger.MergingIterator.Prev` | LoveCoupons/Pods/leveldb-library/table/merger.cc:81-108 | The previous entry of the merge, also after going forward |
| `Merger.MergingIterator.Seek` | LoveCoupons/Pods/leveldb-library/table/merger.cc:47-53 | The first entry of the merge at or after the target |
| `Merger.MergingIterator.SeekToFirst` | LoveCoupons/Pods/leveldb-library/table/merger.cc:31-37 | The first entry of the merge |
| `Merger.MergingIterator.SeekToLast` | LoveCoupons/Pods/leveldb-library/table/merger.cc:39-45 | The last entry of the merge |
| `Merger.Drain` | LoveCoupons/Pods/leveldb-library/db/db_impl.cc:899-1002 | From the first entry to the last, exactly the merge |
| `TwoLevel.SeekIsFlat` | LoveCoupons/Pods/leveldb-library/table/two_level_iterator.cc:82-87 | Seeking the index and then one block finds the place that seeking the concatenation of all blocks finds |
| `TwoLevel.TwoLevelIterator.Seek` | LoveCoupons/Pods/leveldb-library/table/two_level_iterator.cc:82-87 | The place of the target in the concatenation, past empty blocks |
| `TwoLevel.TwoLevelIterator.SeekToFirst` | LoveCoupons/Pods/leveldb-library/table/two_level_iterator.cc:89-94 | The first entry, past empty blocks |
| `TwoLevel.TwoLevelIterator.SeekToLast` | LoveCoupons/Pods/leveldb-library/table/two_level_iterator.cc:96-101 | The last entry, before empty blocks |
| `TwoLevel.TwoLevelIterator.Next` | LoveCoupons/Pods/leveldb-library/table/two_level_iterator.cc:103-107 | The next entry of the concatenation |
| `TwoLevel.TwoLevelIterator.Prev` | LoveCoupons/Pods/leveldb-library/table/two_level_iterator.cc:109-113 | The previous entry of the concatenation |
| `Separators.SeparatorBetween` | LoveCoupons/Pods/leveldb-library/util/comparator.cc:29-50 | The shortened separator is the start itself or lies strictly between start and limit |
| `Separators.SeparatorIsShortest` | LoveCoupons/Pods/leveldb-library/util/comparator.cc:29-50 | If a byte fits between the first bytes that differ, no key from the start up to the limit is shorter than the separator; otherwise the start stays as it is |
| `Separators.InternalSeparatorBetween` | LoveCoupons/Pods/leveldb-library/db/dbformat.cc:69-86 | The internal separator is at or after the start and before the limit |
| `Separators.InternalSuccessorAfter` | LoveCoupons/Pods/leveldb-library/db/dbformat.cc:88-101 | The internal successor is at or after the key |
| `Separators.SuccessorIsShortest` | LoveCoupons/Pods/leveldb-library/util/comparator.cc:52-64 | The successor of a key that is not all 0xff is the shortest key behind it; the others stay as they are |
| `Separators.FindShortestSeparator` | LoveCoupons/Pods/leveldb-library/util/comparator.cc:29-50 | The loops compute the separator that these statements are about |
| `BlockFormat.BlockBuilder.Add` | LoveCoupons/Pods/leveldb-library/table/block_builder.cc:72-106 | One more entry, prefix-compressed against the last key, or whole at a new restart point |
| `BlockFormat.BlockBuilder.Finish` | LoveCoupons/Pods/leveldb-library/table/block_builder.cc:62-70 | Entries, restart offsets and their number |
| `BlockReader.EntryRead` | LoveCoupons/Pods/leveldb-library/table/block.cc:54-74 | An encoded entry is decoded wherever it stands, by the fast and by the slow path |
| `BlockReader.OpensBlock` | LoveCoupons/Pods/leveldb-library/table/block.cc:24-39 | A block that was built is opened with the right restart array |
| `BlockIterator.BlockDescribes` | LoveCoupons/Pods/leveldb-library/table/block.cc:224-251 | Every entry of a built block can be found at its offset, and every restart point at an entry with its whole key |
| `BlockIterator.NewIterator` | LoveCoupons/Pods/leveldb-library/table/block.cc:254-263 | An iterator is returned exactly for blocks that can be opened with restarts; over a built block it stands for the entries that were added |
| `BlockIterator.Iter.Seek` | LoveCoupons/Pods/leveldb-library/table/block.cc:163-201 | Binary search over restart points, then a scan: the first entry not before the target |
| `BlockIterator.Iter.Next` | LoveCoupons/Pods/leveldb-library/table/block.cc:137-140 | The next entry, with its key rebuilt from the shared prefix |
| `BlockIterator.Iter.Prev` | LoveCoupons/Pods/leveldb-library/table/block.cc:142-161 | The entry before, by way of the restart point before it |
| `BlockIterator.Iter.SeekToFirst` | LoveCoupons/Pods/leveldb-library/table/block.cc:203-206 | The first entry |
| `BlockIterator.Iter.SeekToLast` | LoveCoupons/Pods/leveldb-library/table/block.cc:208-213 | The last entry |
| `Bloom.CreateFilter` | LoveCoupons/Pods/leveldb-library/util/bloom.cc:28-54 | A filter is appended with the size that the number of keys asks for, in which exactly the probes of the keys are set |
| `Bloom.KeysMatch` | LoveCoupons/Pods/leveldb-library/util/bloom.cc:56-80 | So every key of the list matches |
| `Bloom.ProbeIs` | LoveCoupons/Pods/leveldb-library/util/bloom.cc:43-51 | The probes of a hash lie at equal steps, modulo 2^32 |
| `Bloom.DeltaRotates` | LoveCoupons/Pods/leveldb-library/util/bloom.cc:43-51 | and the step is the hash rotated by 17 bits, bit by bit |
| `Bloom.KeyMayMatch` | LoveCoupons/Pods/leveldb-library/util/bloom.cc:56-80 | The probe loop says yes if and only if all bits of the key are set, with a no for filters under two bytes and a yes for more than 30 probes |
| `FilterBlock.NeverRejects` | LoveCoupons/Pods/leveldb-library/table/filter_block.cc:90-104 | The finished filter block answers yes for every key filed under the block offset |
| `FilterBlock.AnswersExactly` | LoveCoupons/Pods/leveldb-library/table/filter_block.cc:90-104 | For any key, the block answers as the filter made for that offset does |
| `FilterBlock.EmptyRejects` | LoveCoupons/Pods/leveldb-library/table/filter_block.cc:90-104 | And no for every key where no keys were filed |
| `FilterBlock.FilterBlockBuilder.StartBlock` | LoveCoupons/Pods/leveldb-library/table/filter_block.cc:21-27 | Filters are made up to the offset of the next block, and no key filed before is lost |
| `FilterBlock.FilterBlockBuilder.AddKey` | LoveCoupons/Pods/leveldb-library/table/filter_block.cc:29-33 | The key is filed under the current block |
| `FilterBlock.FilterBlockBuilder.Finish` | LoveCoupons/Pods/leveldb-library/table/filter_block.cc:35-49 | The block holds for each 2KB of offsets the filter of exactly the keys filed there |
| `TableBuilding.TableBuilder.Add` | LoveCoupons/Pods/leveldb-library/table/table_builder.cc:94-123 | One more entry: the index key of the last block settles at the first key behind it, the filter takes the user key, and the block is written if and only if its encoding has reached the block size |
| `TableBuilding.TableBuilder.Flush` | LoveCoupons/Pods/leveldb-library/table/table_builder.cc:125-139 | The block being filled is written to the file as its encoding with a trailer, and its handle noted; no entry is lost |
| `TableBuilding.TableBuilder.Finish` | LoveCoupons/Pods/leveldb-library/table/table_builder.cc:198-253 | The bytes of the file are a table: data blocks, filter, metaindex, index and footer stand where their handles say and hold exactly what was added. Blocks end where they reach the block size and not before, keys are shared as far as restart points allow, the index has the shortened keys between the blocks, and the filter rejects no key |
| `TableFile.Get` | LoveCoupons/Pods/leveldb-library/db/table_cache.cc:100-112 | Opening the bytes of a built table and looking up a key gives what a search of all entries that were added gives, whatever filter policy the reader has |
| `TableFile.InternalGet` | LoveCoupons/Pods/leveldb-library/table/table.cc:216-244 | Over the bytes: index block, filter, handle and data block give the first entry at or after the key in the whole table, or nothing when the block, or the filter, has no entry of its user key |
| `TableFile.Open` | LoveCoupons/Pods/leveldb-library/table/table.cc:38-133 | A built table opens with its index block, and with its filter if and only if the policy has the name it was built with |
| `TableFile.SeekBlock` | LoveCoupons/Pods/leveldb-library/table/block.cc:163-201 | An iterator over the bytes of a block of the table stands at the first item not before the target |
| `TableFormat.StoredReads` | LoveCoupons/Pods/leveldb-library/table/format.cc:66-140 | A block written with its type and masked checksum is read back wherever it stands in the file, verified or not |
| `TableFormat.BlockReadsExactly` | LoveCoupons/Pods/leveldb-library/table/format.cc:66-140 | With checksums verified, a block is read if and only if exactly it was stored at its handle |
| `TableFormat.TrailerCovers` | LoveCoupons/Pods/leveldb-library/table/table_builder.cc:177-196 | The stored checksum is that of the block and its type |
| `TableFormat.FooterReads` | LoveCoupons/Pods/leveldb-library/table/format.cc:30-62 | The footer at the end of a file gives back both handles |
| `TableFormat.FooterNeedsMagic` | LoveCoupons/Pods/leveldb-library/table/format.cc:42-62 | Without the eight bytes of the magic number at its end no file is a table |
| `TableFormat.HandleReads` | LoveCoupons/Pods/leveldb-library/table/format.cc:15-28 | A block handle is read back wherever it stands, and takes at most twenty bytes |
| `TableFormat.OrderIsKeyLess` | LoveCoupons/Pods/leveldb-library/db/dbformat.cc:51-67 | The comparator on encoded internal keys, user key then tag downward, is the order of internal keys |
| `SSTable.GetIsSearch` | LoveCoupons/Pods/leveldb-library/table/table.cc:216-244 | The first entry at or after the key, or nothing where the filter says no, gives the same read as a search of all entries |
| `SSTable.NextBlockHasOtherKey` | LoveCoupons/Pods/leveldb-library/table/table.cc:216-244 | When the target lies behind its block, the next block starts with another user key, so not looking there loses nothing |
| `HashTable.HandleTable.Insert` | LoveCoupons/Pods/leveldb-library/util/cache.cc:78-92 | The table maps the key to the new handle and returns the one that was there; it grows when it holds more elements than chains, to the next power of two that has room, and loses nothing |
| `HashTable.HandleTable.Lookup` | LoveCoupons/Pods/leveldb-library/util/cache.cc:74-76 | The handle of the key |
| `HashTable.HandleTable.Remove` | LoveCoupons/Pods/leveldb-library/util/cache.cc:94-104 | The key is gone and its handle returned |
| `HashTable.HandleTable.Resize` | LoveCoupons/Pods/leveldb-library/util/cache.cc:122-147 | All handles are in the chains of the larger table |
| `LruCache.LRUCache.Insert` | LoveCoupons/Pods/leveldb-library/util/cache.cc:266-303 | The new entry is held; exactly the least number of oldest unreferenced entries is evicted that brings the usage within capacity, or all of them; every other entry stays |
| `LruCache.LRUCache.Lookup` | LoveCoupons/Pods/leveldb-library/util/cache.cc:252-259 | A hit takes a reference and moves the entry off the list of evictable ones |
| `LruCache.LRUCache.Release` | LoveCoupons/Pods/leveldb-library/util/cache.cc:261-264 | A reference given back; the last one of a cached entry makes it the newest evictable one |
| `LruCache.LRUCache.Erase` | LoveCoupons/Pods/leveldb-library/util/cache.cc:318-321 | The key is gone; an entry still referenced lives until its last release |
| `LruCache.LRUCache.Prune` | LoveCoupons/Pods/leveldb-library/util/cache.cc:323-333 | Exactly the unreferenced entries are evicted |
| `LruCache.EvictOldest` | LoveCoupons/Pods/leveldb-library/util/cache.cc:293-300 | Evicting takes exactly the oldest unreferenced entry, its key and its charge away, and deletes it once |
| `FileCollection.NothingNeededIsDeleted` | LoveCoupons/Pods/leveldb-library/db/db_impl.cc:223-278 | In every interleaving of the worker and any readers, all files of live versions and of pending outputs, and all logs still needed, exist |
| `FileCollection.NothingElseIsLeft` | LoveCoupons/Pods/leveldb-library/db/db_impl.cc:223-278 | After a collection only live tables and needed logs are left |
| `FileCollection.CollectionSafeExactly` | LoveCoupons/Pods/leveldb-library/db/db_impl.cc:495-566 | A collection at any moment would be safe if and only if no flushed table is waiting to be installed |
| `FileCollection.TableWaitsToBeInstalled` | LoveCoupons/Pods/leveldb-library/db/db_impl.cc:495-566 | Such a moment is reached, so the safety rests on there being one worker |
| `ProtoRoundTrip.MessageRoundTrip` | LoveCoupons/Pods/nanopb/pb_decode.c:928-1090 | Decoding an encoded message gives it back, for all field tables and all messages whose encoding is shorter than 2^32 bytes, absent optional values set to their defaults |
| `ProtoRoundTrip.OtherTableReads` | LoveCoupons/Pods/nanopb/pb_decode.c:928-1090 | A receiver with another field table, in any order, reads a message if and only if the sender has all the fields that it enforces: common fields arrive as sent, those only the sender has are skipped, those only the receiver has keep their defaults |
| `ProtoRoundTrip.NormEncodes` | LoveCoupons/Pods/nanopb/pb_encode.c:341-426 | Only what is never encoded is forgotten: the decoded message has the same encoding |
| `ProtoRoundTrip.StringReadsExactly` | LoveCoupons/Pods/nanopb/pb_decode.c:1481-1517 | A string is read back if and only if it leaves room for its terminator; one that fills its array is encoded but refused |
| `ProtoWire.SkipsExactly` | LoveCoupons/Pods/nanopb/pb_decode.c:275-331 | What is passed over with an unknown field is exactly what its wire type announces: a varint, eight bytes, a length and that many bytes, or four bytes; any other wire type is an error |
| `ProtoWire.TagTells` | LoveCoupons/Pods/nanopb/pb_encode.c:669-715 | The low three bits of an encoded tag are 5 exactly before the four bytes of a fixed-width number, 1 before eight, 0 before other numbers and 2 before everything else, and just these bytes follow |
| `ProtoWire.PackedTells` | LoveCoupons/Pods/nanopb/pb_encode.c:147-204 | And 2 before a packed array |
| `ProtoLimits.DecodedFits` | LoveCoupons/Pods/nanopb/pb_decode.c:406-483 | Whatever the bytes, a decoded message lies in its structure: arrays within their size, strings with room for the terminator |
| `ProtoLimits.EnforcedExactly` | LoveCoupons/Pods/nanopb/pb_decode.c:1033-1073 | Exactly the first 64 required fields of a message are enforced |
| `ProtoLimits.NumberReadsExactly` | LoveCoupons/Pods/nanopb/pb_decode.c:1339-1420 | For every 64-bit number on the wire: an unsigned or zigzag field takes it if and only if it fits, a signed field of up to 32 bits takes its low half first, and nothing else is read |
| `ProtoLimits.Varint32ReadsExactly` | LoveCoupons/Pods/nanopb/pb_decode.c:187-236 | For every 64-bit number where 32 bits are expected: what fits is read, a sign-extended negative number is read as its low half, and all others are refused; bits 32 to 34 are never looked at, and zero groups pass for ones |
| `ProtoScalars.ScalarReads` | LoveCoupons/Pods/nanopb/pb_decode.c:1339-1439 | Every value of every scalar type is read back, negative, zigzag and fixed-width ones included |
| `ProtoScalars.Reads32` | LoveCoupons/Pods/nanopb/pb_decode.c:187-253 | The 32-bit varint reader with its sign-extension rules reads back every number |
| `ProtoEncoder.OStream.EncodeFields` | LoveCoupons/Pods/nanopb/pb_encode.c:528-550 | The stream takes exactly the encoding of the message if it has room, and fails if it has not or there is none |
| `ProtoEncoder.OStream.EncodeField` | LoveCoupons/Pods/nanopb/pb_encode.c:341-426 | The same for one field by its rule: required, optional with its flag, repeated with its count |
| `ProtoEncoder.OStream.EncodeArray` | LoveCoupons/Pods/nanopb/pb_encode.c:147-236 | The same for a repeated field, packed or one by one |
| `ProtoEncoder.OStream.EncodeSubmessage` | LoveCoupons/Pods/nanopb/pb_encode.c:717-765 | The sizing pass and the writing pass agree, so the length in front is right |
| `ProtoEncoder.OStream.Write` | LoveCoupons/Pods/nanopb/pb_encode.c:103-124 | Bytes are taken whole or refused, and counted |
| `ProtoEncoder.GetEncodedSize` | LoveCoupons/Pods/nanopb/pb_encode.c:567-577 | The sizing pass alone gives the length of the encoding |
| `ProtoDecoder.PbDecode` | LoveCoupons/Pods/nanopb/pb_decode.c:1078-1090 | The methods that update the structure field by field do what the decoding functions say, for arbitrary bytes |
| `ProtoDecoder.DecodeNoInit` | LoveCoupons/Pods/nanopb/pb_decode.c:928-1074 | Fields as they come, unknown ones passed over, the required ones counted |
| `ProtoDecoder.DecodeField` | LoveCoupons/Pods/nanopb/pb_decode.c:406-483 | One field into its place by wire type and rule, with arrays bounded by their size |

## Left out

- I/O and the Env: reads and writes of files succeed, except for the log append and the sync of a group commit and for what a crash cuts off.
- Background errors of compactions, shutdown, RepairDB, DestroyDB, Snappy, statistics and logging.
- Lives.AllLivesAreGood: recovery itself is not interrupted; a run that goes on with a log has a whole one, which TornLogLosesRecord shows to be needed.
- Journal.RunKeepsStore: the file numbers of a compaction's outputs are taken when it is installed, not when it begins, and the manifest is a new one in each run, which `reuse_logs` may avoid.
- Crash.LaterWriteSurvivesAlone: each file keeps a prefix of its bytes; a file system that loses a middle part of a file is not modelled.
- Recovery.Reopen: takes the logs that FindLogs would find, in order; the CURRENT file, file names and PrevLogNumber, which is always zero, are left out.
- Recovery.FindLogs: names are taken as parsed, and which files a run leaves in the directory is not part of the statement.
- Recovery.RecoverLogs: file numbers come from one counter, as in the code; numbers of logs are given, not read from file names.
- ManifestReplay.RecoverAfterCrash: edits use a file number for one file, as the counter makes sure; a manifest that is reused is the same manifest with more records.
- Runs.RunKeepsLevels: steps pass the overlap check that only debug builds make; BareRuns says what holds without it.
- Picks.PickCompaction: which level is compacted (scores and seek counts) is an input; the compaction pointer decides the file within the level.
- Compactions.DoCompactionWork: the flush between two entries of the loop is a step of the state machine, not of this method, which works on the version from when the compaction began; keys that do not parse are left out.
- DbImpl.DBImpl.Write: the log, the queue and making room are the subject of GroupCommit, WriteQueue and Crash.
- TableWork.LogAndApply: writing the edit, with its numbers, to the manifest is a step of Journal.
- Counterexamples.DeletedKeyComesBack: table sizes are a function of the entries, with every entry ending a block; bytes of real blocks would move the cut.
- Database.Step: levels are lists of files that hold their entries; table bytes are the subject of the table modules.
- FileCollection.NothingNeededIsDeleted: one background worker that flushes and compacts, without trivial moves and without failed writes.
- GroupCommit.IsGroup: the size of a batch's encoding is a field beside its operations and not tied to the bytes of WriteBatch.
- WriteBatch.BatchRoundTrip: fewer than 2^32 operations in a batch and keys and values shorter than 2^32 bytes, which is what the header and the lengths can hold.
- LogReader.Reader.ReadRecord: readers start at offset zero; skipping to an initial offset and resynchronising, which the library never asks for, are left out.
- SkipListRuns.SearchIsRight: memory is sequentially consistent; the acquire and release orders of the code are not modelled, and that a search ends is not shown.
- MemTableList.List.Insert: the arena and the encoding of entries in it are left out, and random heights are an argument.
- BlockReader.EntryRead: the 32-bit sums of lengths in a corrupt entry do not wrap here.
- BlockIterator.Iter.Seek: says where the iterator stands for blocks that the builder made; for other blocks only that it stays inside them.
- TableFile.InternalGet: blocks are stored without Snappy, the cache of blocks is left out, and an error and a missing key are both None; for a file that is no built table only that reading stays inside it.
- TableBuilding.TableBuilder.Finish: a table of 2^32 bytes or more is written as well, but nothing is said of its bytes.
- Bloom.CreateFilter: the hash is any function to 32-bit numbers, the number of probes is an argument, and how rarely a filter says yes for nothing is not stated.
- LruCache.LRUCache.Insert: one shard, and the two circular lists are sequences.
- ProtoRoundTrip.MessageRoundTrip: static fields with an explicit has-flag only; callbacks, extensions, pointers, oneofs, fields without presence, fixed-length bytes, fixed-count arrays and defaults other than zero are left out.
- ProtoRoundTrip.StringReadsExactly: a string is what stands before its terminator, or the whole array if there is none.
- ProtoDecoder.DecodeNoInit: required fields are tracked as a set, of which the first 64 are enforced as in the code; the 8-bit bit position of the 32-bit varint reader and overflow of size_t are not modelled.
- The Objective-C app, Firestore, gRPC and the other pods.
