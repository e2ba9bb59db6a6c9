# Verification of nyxdb

A Dafny model of the parts of nyxdb, a columnar database, in which a mistake would lose or invent
data, and proofs of what those parts promise. The operations that change state are classes and
methods with loops, as in the source; each is proved against a small specification (a sequence, a
map, a fold, a nested loop), and what the database promises is then proved of that specification.

- **Leader election** (`Election`, `ElectionSafety`, `ElectionProgress`, `ElectionLimits`): the
  handlers of one node are methods of `ElectionManager`; their effects are the steps of a cluster in
  which messages are delivered in any order, dropped, and nodes crash and restart from their saved
  state. Every run is safe exactly for one node, or an odd cluster without configured leaders, and
  every run can go on so that a given node leads.
- **B+ tree** (`BTreeSpec`, `BTreeInsert`, `BTreePages`, `BTreeIndexFile`, `BTreeScan`, `BTreeBulk`,
  `IndexKeys`, `EncodedIndexes`): pages with a chain of leaves refine a tree, which refines a sorted
  sequence; range scans are exact under a stated condition, and unique indexes stay unique.
- **Write-ahead log** (`WalCodec`, `WalRoundTrip`, `WalTail`, `WalDamage`, `WalWriting`): a
  self-delimiting byte format. Cutting a log anywhere yields exactly the records before the cut, and
  of a damaged one nothing is read that its checksum does not cover.
- **Catalog and recovery** (`CatalogLog`, `CatalogRun`, `CatalogRecovery`, `RecoveryExact`,
  `RecoveryLimits`, `Catalogs`, `CatalogStatements`, `CatalogCrash`): the table objects and the bytes
  of the log refine the steps of a protocol, whose statements do what their caller asks; after a
  crash, loading applies every logged record exactly once.
- **Column store** (`Bitmap`, `ColumnPages`, `ColumnFiles`, `FileImages`, `RowStore`, `Tables`,
  `SegmentMerging`, `Vacuuming`, `TableScanning`): pages, files and segments refine one sequence of
  rows with tombstones; sealing and merging cannot be seen, vacuum keeps the live rows, scans are
  exact.
- **Operators** (`LinearProbing`, `JoinSpec`, `HashJoining`, `JoinPlanning`, `AggregateSpec`,
  `HashAggregation`, `ByteScan`, `SelectionVectors`, `FilterChunks`): hash join is nested loop,
  join plans yield the satisfying tuples of the product, hash aggregation is grouping, and the three
  forms of a selection are one.
- **Page cache** (`LruK`, `BufferPools`, `BufferRuns`): every outcome of a run of fetches and unpins
  follows from the calls. **Partition pruning** (`Pruning`) and **dates** (`CivilDates`).

Where the code does not meet the property one would expect of it, the model keeps the code, gives
the input that fails and states the exact condition under which it holds: `ElectionLimits.SafeIff`,
`BTreeScan.ScanExactIff`, `EncodedIndexes.PassedThenRefused`, `WalTail.ReadBackIff`,
`RecoveryLimits.AlwaysRecoversIff`, `RecoveryLimits.EpochIff`, `RecoveryLimits.StoredOffsetIff`,
`Vacuuming.ReadableIff`, `Pruning.PruningExact`, `CivilDates.ReturnsIffValid`.

Names and other strings are byte sequences. Hash functions are arbitrary functions, passed in.
Disk contents, the clock of elections, the log position of a node and callbacks are parameters.
Critical sections are atomic steps.

## Model

| member | source | states |
|---|---|---|
| `Bytes.ReadPutLe` | src/storage/wal/wal_record.h:19-50 | a little-endian field reads back as the value cut to its width, so a value that fits comes back unchanged |
| `Bytes.SignedRoundTrip` | src/storage/wal/wal_record.h:24-50 | a signed value in range survives being stored as unsigned bytes |
| `Election.StateRoundTrip` | src/replication/election.cpp:439-476 | the saved term and vote are read back as they were written |
| `Election.StateBytes` | src/replication/election.cpp:439-456 | the state file is the term in eight bytes, the length of the vote in two, and the vote |
| `Election.TornStateNamesNoOther` | src/replication/election.cpp:439-476 | a state file cut at any byte reads as the saved term or 0, and never names a candidate other than the one voted for |
| `Election.ElectionManager.constructor` | src/replication/election.cpp:27-44 | a node comes up as a follower of term 0 that remembers the term and vote of its state file, counts the whole cluster and peers with everyone but itself |
| `Election.ElectionManager.PersistState` | src/replication/election.cpp:439-456 | what a restart will find is exactly the given term and vote; nothing else changes |
| `Election.ElectionManager.Start` | src/replication/election.cpp:50-61 | the node takes over its saved term and vote; only a node configured as leader leads, and the state file is not written |
| `Election.ElectionManager.HandleHeartbeat` | src/replication/election.cpp:180-219 | an earlier term changes nothing; a later one makes the node a follower of the sender in that term, with no vote, and saves that; in its own term it follows the sender, and only a leader that hears another one saves |
| `Election.ElectionManager.HandleVoteReq` | src/replication/election.cpp:221-259 | a vote is granted exactly to a candidate with a log no shorter, in a term that is new to the node or in which it has voted for nobody else; a grant is saved before it is answered, and a later term ends candidacy and leadership unsaved |
| `Election.ElectionManager.HandleVoteResp` | src/replication/election.cpp:261-284 | a later term makes the node a follower of nobody; a vote counts only for a candidate in its own term; from half of the cluster on the node leads and heartbeats go to every peer, and otherwise nothing is sent |
| `Election.ElectionManager.BecomeLeader` | src/replication/election.cpp:286-299 | the node leads, with one heartbeat of its term to each peer |
| `Election.ElectionManager.StartElection` | src/replication/election.cpp:319-374 | the node stands in the next term with its own saved vote, asking every peer once with its log position, and leads at once only if one vote is a quorum |
| `ElectionSafety.OneWinner` | src/replication/election.cpp:276-283 | in an odd cluster with one vote per node and term two quorums of a term share a voter, so they elected the same node |
| `ElectionSafety.NoRivalHeartbeat` | src/replication/election.cpp:204-213 | no leader of an odd cluster ever hears a heartbeat of its own term, so the branch that erases a saved vote is never taken |
| `ElectionSafety.AnswerIsOld` | src/replication/election.cpp:264-269 | a vote response never carries a term beyond that of the candidate it answers |
| `ElectionSafety.FreshVote` | src/replication/election.cpp:241-251 | a vote is granted only in a term in which the node has granted none, restarts included |
| `ElectionSafety.HeartbeatInv` | src/replication/election.cpp:180-219 | delivering a heartbeat keeps the invariant of the cluster |
| `ElectionSafety.TimeoutInv` | src/replication/election.cpp:319-338 | a timeout, of a leader or of any other node, keeps the invariant |
| `ElectionSafety.VoteReqInv` | src/replication/election.cpp:221-259 | answering a vote request keeps the invariant |
| `ElectionSafety.VoteRespInv` | src/replication/election.cpp:261-299 | counting an answer keeps the invariant, also when it makes a leader |
| `ElectionSafety.RestartInv` | src/replication/election.cpp:50-61 | a crash and restart from the state file keeps the invariant |
| `ElectionSafety.RunInv` | src/replication/election.cpp:180-338 | the invariant holds after every run of an odd cluster whose nodes all start as followers |
| `ElectionSafety.WinnerUpToDate` | src/replication/election.cpp:241-251 | a winner advertised a log position no lower than that of each voter of a quorum at the time it voted |
| `ElectionSafety.Safety` | src/replication/election.cpp:180-338 | after every such run each node has voted for at most one candidate per term, each term has at most one leader, and every winner was up to date |
| `ElectionProgress.HeartbeatObeyed` | src/replication/election.cpp:180-219 | after every run of an odd cluster without configured leaders a heartbeat of an earlier term changes nothing, and any other makes its receiver follow the sender in its term, a later term being saved and no vote of the same term touched |
| `ElectionProgress.VoteReqAnswered` | src/replication/election.cpp:221-259 | a vote request is answered once, by the rule, and changes no other node |
| `ElectionProgress.VoteRespCounted` | src/replication/election.cpp:261-299 | an answer of a later term deposes, a vote in its own term counts and at half of the cluster makes a leader who tells all others, and any other answer changes nothing |
| `ElectionProgress.TimeoutStands` | src/replication/election.cpp:319-374 | a node that does not lead stands in the next term, votes for itself, saves that and asks every other node |
| `ElectionProgress.LeaderBeats` | src/replication/election.cpp:340-360 | a leader that times out sends its heartbeats and changes no node |
| `ElectionProgress.RestartReads` | src/replication/election.cpp:50-61 | a restarted node has the term and vote of its state file and follows nobody |
| `ElectionProgress.StandAt` | src/replication/election.cpp:319-338 | a node can come to stand in any term later than the one it has saved |
| `ElectionProgress.WinAll` | src/replication/election.cpp:221-299 | a candidate of a term beyond all others can collect the votes it needs |
| `ElectionProgress.FollowAll` | src/replication/election.cpp:180-219 | its heartbeats can make every other node follow it |
| `ElectionProgress.CanLead` | src/replication/election.cpp:180-374 | whatever has happened, any node that is not a configured leader can still come to lead a term beyond all before, with every other node following it |
| `ElectionLimits.EvenUnsafe` | src/replication/election.cpp:278 | every even cluster has a run that makes two leaders of one term, because the quorum is half the nodes |
| `ElectionLimits.ConfiguredUnsafe` | src/replication/election.cpp:52-58 | with a configured leader, every cluster of two or more nodes has a run that makes two leaders of one term |
| `ElectionLimits.SafeIff` | src/replication/election.cpp:50-61 | all runs have one leader per term if and only if there is one node, or the cluster is odd and no node leads by configuration |
| `BTreeSpec.InsertAfterAdds` | src/storage/disk/btree_index.cpp:433-587 | the reference insertion adds the entry and loses none |
| `BTreeSpec.InsertAfterSorted` | src/storage/disk/btree_index.cpp:433-587 | the reference insertion keeps the entries sorted |
| `BTreeSpec.InsertAfterAt` | src/storage/disk/btree_index.cpp:202-212 | the reference insertion puts the entry after every key not greater than it and before every greater one |
| `BTreeSpec.AroundSlot` | src/storage/disk/btree_index.cpp:214-224 | children left of the slot taken hold no greater key, those to the right no smaller or equal one |
| `BTreeInsert.InsertOk` | src/storage/disk/btree_index.cpp:433-587 | inserting down the path keeps equal depth, separators and node capacity, and the in-order entries are those of the sorted insertion, duplicates included |
| `BTreeInsert.SplitNodeOk` | src/storage/disk/btree_index.cpp:354-431 | both halves of a split inner node are well formed and together hold the same entries, divided at the key that moves up |
| `BTreeInsert.AbsorbOk` | src/storage/disk/btree_index.cpp:527-555 | a node that takes the halves of a split child, splitting itself if it was full, is well formed and holds the entries of all its children |
| `BTreePages.InsertFrom` | src/storage/disk/btree_index.cpp:433-587 | an insertion reuses the pages of the tree and takes fresh ones only, so no page is ever used twice |
| `BTreeIndexFile.FindSlot` | src/storage/disk/btree_index.cpp:202-224 | the binary search finds the first slot whose key is greater |
| `BTreeIndexFile.FindScanStart` | src/storage/disk/btree_index.cpp:226-236 | the binary search parts the entries below the bound from those not below it |
| `BTreeIndexFile.PresentBelow` | src/storage/disk/btree_index.cpp:264-285 | a key is in the tree if and only if it is in the child a search for it takes |
| `BTreeIndexFile.PresentAt` | src/storage/disk/btree_index.cpp:488-503 | the entry just before the insertion point alone tells whether the key is present |
| `BTreeIndexFile.BTreeIndex.constructor` | src/storage/disk/btree_index.cpp:9-17 | a new index is empty and well formed |
| `BTreeIndexFile.BTreeIndex.Descend` | src/storage/disk/btree_index.cpp:264-285 | one step down leads to the child that may hold the key |
| `BTreeIndexFile.BTreeIndex.FindLeaf` | src/storage/disk/btree_index.cpp:264-285 | the descent ends at the leaf of the key and records page and slot of every level |
| `BTreeIndexFile.BTreeIndex.InsertLeafEntry` | src/storage/disk/btree_index.cpp:238-247 | a leaf with room takes the entry at its slot; no other page changes |
| `BTreeIndexFile.BTreeIndex.SplitLeafPage` | src/storage/disk/btree_index.cpp:287-352 | a full leaf becomes two chained leaves that hold the old entries and the new one in order; other pages stay |
| `BTreeIndexFile.BTreeIndex.InsertNodeEntry` | src/storage/disk/btree_index.cpp:249-262 | a parent with room takes the separator and the new child to the right of the split one |
| `BTreeIndexFile.BTreeIndex.SplitNodePage` | src/storage/disk/btree_index.cpp:354-431 | a full parent becomes two, with the middle key handed up |
| `BTreeIndexFile.BTreeIndex.Climb` | src/storage/disk/btree_index.cpp:527-555 | one level up takes the split of its child or splits in turn |
| `BTreeIndexFile.BTreeIndex.ClimbPath` | src/storage/disk/btree_index.cpp:527-555 | following the recorded path upwards stores exactly the tree that insertion yields, the root possibly left in halves |
| `BTreeIndexFile.BTreeIndex.GrowRoot` | src/storage/disk/btree_index.cpp:557-586 | a new root over the two halves makes the tree whole again, one level higher |
| `BTreeIndexFile.BTreeIndex.InsertFirst` | src/storage/disk/btree_index.cpp:437-463 | the first entry makes a tree of one leaf |
| `BTreeIndexFile.BTreeIndex.Insert` | src/storage/disk/btree_index.cpp:433-587 | an insert is refused exactly when the index is unique and a NULL-free key is already there; otherwise the stored entries become the old ones with the new entry after every key not greater, and the pages stay well formed |
| `BTreeScan.ScanEntries` | src/storage/disk/btree_index.cpp:608-626 | within one leaf the callback hears the rows up to the upper bound, or until it stops; of entries equal to an exclusive lower bound only the first is passed over |
| `BTreeScan.ReachLeaf` | src/storage/disk/btree_index.cpp:594-663 | the descent reaches, for any keys, the leaf that the search for the lower bound leads to, and the chain after it holds all the entries that follow |
| `BTreeScan.ScanChain` | src/storage/disk/btree_index.cpp:628-656 | following the chain of leaves visits all entries ahead, in order |
| `BTreeScan.RangeScan` | src/storage/disk/btree_index.cpp:589-664 | for every tree and bounds the callback hears the entries from the leaf reached on, up to the upper bound or until it stops; with at most one entry equal to the lower bound these are exactly the rows inside the bounds |
| `BTreeScan.RowsInMean` | src/storage/disk/btree_index.cpp:589-664 | the rows inside the bounds are those of the entries whose keys compare so to both, the bound itself only where it is inclusive |
| `BTreeScan.TreeParts` | src/storage/disk/btree_index.cpp:594-663 | whatever keys repeat, the entries are those passed over, those of the leaf reached and those ahead; none passed over is above the lower bound and none ahead is below it |
| `BTreeScan.HandedIff` | src/storage/disk/btree_index.cpp:589-664 | what is handed on is exactly the rows inside the bounds if and only if no entry equal to an inclusive lower bound, and within the upper one, was passed over, and no two entries of the leaf reached equal an exclusive one |
| `BTreeScan.ScanExactIff` | src/storage/disk/btree_index.cpp:589-664 | every callback, wherever it stops, hears exactly the rows inside the bounds if and only if that condition holds |
| `BTreeScan.DistinctExact` | src/storage/disk/btree_index.cpp:589-664 | one entry at most at the lower bound is enough for it |
| `BTreeScan.DuplicateLost` | src/storage/disk/btree_index.cpp:659-662 | two equal keys in two leaves: a scan for exactly that key calls back the second row only |
| `BTreeScan.RepeatHeard` | src/storage/disk/btree_index.cpp:608-614 | two equal keys in one leaf: a scan of what lies above them calls back the second of them |
| `BTreeScan.TwoLeavesArise` | src/storage/disk/btree_index.cpp:433-587 | inserting two equal keys makes those two leaves |
| `BTreeBulk.BuildLeaves` | src/storage/disk/btree_index.cpp:674-728 | the leaf level holds all entries in order in chained, non-empty leaves within capacity |
| `BTreeBulk.BuildLevel` | src/storage/disk/btree_index.cpp:730-767 | each level is well formed over the one below, keeps the entries and is strictly shorter, so building ends |
| `BTreeBulk.BulkBuild` | src/storage/disk/btree_index.cpp:666-785 | an index built from sorted entries holds exactly these in order, in the well-formed tree that insert and scan rely on |
| `IndexKeys.KeyOrder` | src/storage/disk/btree_index.cpp:33-150 | comparing encoded keys orders them as the values they encode, NULL first, strings cut to their column width |
| `IndexKeys.StrMeans` | src/storage/disk/btree_index.cpp:90-150 | a string is below another at the first byte that differs, or as a proper prefix |
| `IndexKeys.ValsMeans` | src/storage/disk/btree_index.cpp:90-150 | a key is below another exactly if it is so at the first column in which they differ: NULL below all, numbers by value, strings by bytes |
| `IndexKeys.KeyOrderIsTotal` | src/storage/disk/btree_index.cpp:90-150 | the order of index keys is total, which the searches need and on which an encoded index is created |
| `IndexKeys.CompareKeysAt` | src/storage/disk/btree_index.cpp:90-150 | the loop over the columns returns the first difference |
| `EncodedIndexes.SameKeys` | src/storage/disk/btree_index.cpp:33-150 | two keys are equal in the order of the index if and only if their bytes are equal |
| `EncodedIndexes.HasNull` | src/storage/disk/btree_index.cpp:488-497 | the loop over the flags finds whether a column of the key is flagged NULL |
| `EncodedIndexes.FlagsTell` | src/storage/disk/btree_index.cpp:33-88 | the flags of an encoded key say NULL exactly if a column of it is NULL or missing |
| `EncodedIndexes.CreateIndex` | src/storage/disk/btree_index.cpp:9-17 | an index on encoded keys is empty and well formed, with nodes of the capacity that a page has for such keys |
| `EncodedIndexes.InsertKey` | src/storage/disk/btree_index.cpp:433-587 | a unique index refuses a key whose flags show no NULL exactly if an entry has the same bytes; otherwise the entry goes after every key not greater |
| `EncodedIndexes.InsertUnique` | src/storage/disk/btree_index.cpp:433-587 | whatever is inserted, no two entries of a unique index have the same key without NULLs |
| `EncodedIndexes.FindsLive` | src/catalog/catalog.cpp:382-412 | the scan for the key before an insert finds a row exactly if the key has no NULL and a row that is not deleted has it |
| `EncodedIndexes.PassedThenRefused` | src/catalog/catalog.cpp:382-443 | that check lets a key pass which the index then refuses if and only if a deleted row still has its entry |
| `IndexKeys.CapacityFits` | src/storage/disk/index_page.h:55-59 | a node filled to capacity fits a page as a leaf and as an inner node, for every key size |
| `WalCodec.ReadRecords` | src/storage/wal/wal_reader.cpp:66-572 | the loop reads the longest run of well-formed records; whatever the bytes, each lies where the one before it ends and is followed by the checksum of its bytes |
| `WalCodec.ReadAll` | src/storage/wal/wal_reader.cpp:52-572 | a file without the header is refused; any other yields its leading well-formed records, each followed by the checksum of its bytes and by the next record |
| `WalCodec.RecordSealed` | src/storage/wal/wal_reader.cpp:66-572 | of any bytes a record is read only where they are followed by their checksum, and reading goes on right behind it |
| `WalCodec.PayloadRest` | src/storage/wal/wal_reader.cpp:66-572 | what is left after a payload is the end of the bytes it was read from |
| `WalRoundTrip.RecordReads` | src/storage/wal/wal_reader.cpp:66-572 | every record that can be logged is parsed back from its bytes, whatever follows it |
| `WalRoundTrip.RecordLayout` | src/storage/wal/wal_writer.cpp:86-335 | a record is its type, the length and name of its table, and its body |
| `WalRoundTrip.ValueLayout` | src/storage/wal/wal_writer.cpp:110-146 | a value of a row is a NULL flag and its bytes, numbers in the width of their type, strings behind their length |
| `WalRoundTrip.ColumnLayout` | src/storage/wal/wal_writer.cpp:151-230 | a column is its type, NULL flag, length, name, and a default behind its own flag and type |
| `WalTail.CutRecordFails` | src/storage/wal/wal_reader.cpp:66-572 | no proper prefix of a record parses as a record |
| `WalTail.WholeExact` | src/storage/wal/wal_writer.cpp:70-84 | the records counted as whole are those that end at or before the cut |
| `WalTail.ReadCut` | src/storage/wal/wal_reader.cpp:66-572 | from any record boundary the reader returns exactly the records that lie wholly before the cut, with their offsets |
| `WalTail.TornTail` | src/storage/wal/wal_reader.cpp:52-572 | a log cut at any byte after its header reads as exactly the records wholly before the cut, at their offsets |
| `WalDamage.ReadThrough` | src/storage/wal/wal_reader.cpp:66-572 | whatever follows whole records, they are read first, at their offsets |
| `WalDamage.DamageFound` | src/storage/wal/wal_reader.cpp:559-564 | of whole records and any bytes behind them exactly the records are read, unless some of those bytes are followed by their checksum |
| `WalDamage.DamagedPayload` | src/storage/wal/wal_reader.cpp:559-564 | when the payload of a record is overwritten by bytes of its length with another checksum, which if they parse at all parse to that length, exactly the records before it are read |
| `WalDamage.ChangedRecord` | src/storage/wal/wal_reader.cpp:559-564 | so it is when a value in the record was changed |
| `WalTail.RecordNeverNull` | src/storage/wal/wal_reader.cpp:129-250 | no record that is read has a column with a NULL default |
| `WalTail.ReadBackIff` | src/storage/wal/wal_writer.cpp:151-230 | a record is read back unchanged if and only if none of its columns has a NULL default |
| `WalWriting.WalWriter.constructor` | src/storage/wal/wal_writer.cpp:39-68 | opening writes the header if there is no file, and takes a file that exists as it is, also an empty one |
| `WalWriting.LogGoesOn` | src/storage/wal/wal_writer.cpp:39-68 | records written to an existing log continue it: the file is the log of all of them |
| `WalWriting.EmptyFileUnread` | src/storage/wal/wal_writer.cpp:39-68 | records written to an existing empty file, which gets no header, are never read back |
| `WalWriting.WalWriter.WriteRecord` | src/storage/wal/wal_writer.cpp:70-84 | the file grows by one whole record, with length and checksum |
| `WalWriting.WalWriter.LogInsert` | src/storage/wal/wal_writer.cpp:86-149 | the log grows by the insert of these rows; no rows, no record |
| `WalWriting.WalWriter.LogCreateTable` | src/storage/wal/wal_writer.cpp:151-230 | the log grows by the creation of the table with its schema |
| `WalWriting.WalWriter.LogDelete` | src/storage/wal/wal_writer.cpp:232-250 | the log grows by the deletion of these row ids |
| `WalWriting.WalWriter.LogUpdate` | src/storage/wal/wal_writer.cpp:252-320 | the log grows by the update of these row ids to these rows |
| `WalWriting.WalWriter.LogSegmentFlush` | src/storage/wal/wal_writer.cpp:322-335 | the log grows by the note that so many rows are sealed |
| `CatalogLog.FoldGrows` | src/catalog/catalog.cpp:201-296 | applying more records never loses a row or a tombstone |
| `CatalogLog.OffsetsRise` | src/storage/wal/wal_writer.cpp:70-84 | later records lie at strictly higher offsets |
| `CatalogLog.CutOfMeans` | src/catalog/catalog.cpp:251-282 | the records that lie before an offset are a prefix of the log |
| `CatalogLog.RefusedIff` | src/catalog/catalog.cpp:367-520 | a statement leaves a logged record behind that its table refused if and only if its rows do not fit the table |
| `CatalogRun.OwnRecord` | src/catalog/catalog.cpp:367-520 | logging rows that fit and applying them keeps the table equal to its log and the checkpoint sound |
| `CatalogRun.SealRecord` | src/catalog/catalog.cpp:415-426 | a seal noted after its insert or update moves the checkpoint to the sealed rows, soundly |
| `CatalogRun.CheckpointInv` | src/catalog/catalog.cpp:557-594 | a checkpoint that keeps the log describes exactly the rows logged so far |
| `CatalogRun.StepInv` | src/catalog/catalog.cpp:328-594 | every statement whose rows fit, and every checkpoint that keeps the log, keeps each table equal to the fold of its records |
| `CatalogRun.RunInv` | src/catalog/catalog.cpp:328-594 | so does every run |
| `CatalogRun.DeletesInv` | src/catalog/catalog.cpp:582-590 | a checkpoint that deletes the log leaves every table on the disk |
| `CatalogRun.EpochInv` | src/catalog/catalog.cpp:328-594 | whatever checkpoints a run makes, its tables agree with the log begun last |
| `CatalogRecovery.OpenTables` | src/catalog/catalog.cpp:213-223 | a table is found after load exactly if it is on the disk or was created in the log, then with the columns of the first record that creates it |
| `CatalogRecovery.Checkpoints` | src/catalog/catalog.cpp:225-240 | each table starts from the later of its stored checkpoint and its last segment flush in the log |
| `CatalogRecovery.ReplayOne` | src/catalog/catalog.cpp:251-282 | replaying a record of a table succeeds exactly if the table takes its rows, and then does what the operation did |
| `CatalogRecovery.ReplayRecords` | src/catalog/catalog.cpp:251-282 | replay succeeds exactly if no record at or after the checkpoint of its table is refused, and each such record reaches its own table only |
| `CatalogRecovery.Load` | src/catalog/catalog.cpp:201-296 | loading fails exactly if a table refuses the rows of a record that is replayed; otherwise every table is treated on its own: opened, cut to the checkpoint, replayed |
| `RecoveryExact.TornRows` | src/catalog/catalog.cpp:242-249 | cutting a crashed table to its checkpoint leaves the logged rows before it, whatever unflushed rows the crash left in the files |
| `RecoveryExact.ReplayAll` | src/catalog/catalog.cpp:251-282 | from the rows before the checkpoint, replay skips every earlier record and applies every later one once |
| `RecoveryExact.ReplayLength` | src/catalog/catalog.cpp:251-282 | wherever replay starts from, it adds as many rows as the records at or after the checkpoint hold |
| `RecoveryExact.TableIff` | src/catalog/catalog.cpp:201-296 | a table comes back as the fold of all its records if and only if the records before its checkpoint made just the rows it is cut to |
| `RecoveryExact.TableLoads` | src/catalog/catalog.cpp:251-282 | the log of a table gets through a load exactly if the rows of the last record, possibly logged and not applied, fit |
| `RecoveryExact.AbsentTable` | src/catalog/catalog.cpp:213-223 | a table comes into being by load exactly if its creation was logged |
| `RecoveryExact.RecoveryIsExact` | src/catalog/catalog.cpp:201-296 | after a crash between operations, or after a record was logged and not yet applied, what load makes of each table is the fold of all logged records over the rows it started from, and no other table appears |
| `RecoveryExact.LoadIff` | src/catalog/catalog.cpp:201-296 | that load succeeds if and only if the record logged last and not applied, if there is one, has rows its table takes |
| `RecoveryExact.Recover` | src/catalog/catalog.cpp:201-296 | reading the log file, cut anywhere within the last record, and loading: it succeeds exactly if the last record that survived fits, and then yields for every table the fold of the records that survived, ready for the next run |
| `RecoveryExact.LoadedAgain` | src/catalog/catalog.cpp:284-296 | a loaded catalog is one from which the next run may start |
| `RecoveryLimits.AlwaysRecoversIff` | src/catalog/catalog.cpp:201-296 | a run since a load is recovered after every crash if and only if no statement of it logs rows that its table refuses |
| `RecoveryLimits.MisfitFails` | src/catalog/catalog.cpp:367-520 | after a statement that does not fit, whatever the crash leaves, load ends with an error |
| `RecoveryLimits.TooLongNeverLoads` | src/catalog/catalog.cpp:475-520 | a run of the database that does so: a VARCHAR(1) column updated to a string of two bytes |
| `RecoveryLimits.EpochIff` | src/catalog/catalog.cpp:201-296 | after any run, also one whose checkpoints delete the log, a table comes back as it was if and only if the records of the last log before its checkpoint made just the rows it is cut to |
| `RecoveryLimits.RowsLost` | src/catalog/catalog.cpp:225-282 | how many rows a table loses otherwise: those of the records below its stored offset that it is not cut to |
| `RecoveryLimits.StoredOffsetIff` | src/catalog/catalog.cpp:557-594 | a table with an offset stored for a log since deleted comes back if and only if no record of the new log below that offset adds a row to it |
| `RecoveryLimits.DeletedLogLoses` | src/catalog/catalog.cpp:557-594 | a run that loses a row so: insert, a checkpoint that deletes the log, insert, crash |
| `Catalogs.Catalog.constructor` | src/catalog/catalog.cpp:88-89 | a new catalog has no tables and no open log |
| `Catalogs.InsertInto` | src/storage/disk/table.cpp:342-372 | inserting into a table object is the insert of the simple model, seal included, and is refused exactly if the rows do not fit |
| `Catalogs.UpdateIn` | src/storage/disk/table.cpp:379-395 | updating is its deletion followed by its insert |
| `Catalogs.RedoOn` | src/catalog/catalog.cpp:251-282 | replaying a record on a table is the redo of the simple model, refused exactly if the rows do not fit |
| `Catalogs.Catalog.EnsureWal` | src/catalog/catalog.cpp:91-99 | the log is open, and what was logged stays |
| `Catalogs.Catalog.Enter` | src/catalog/catalog.cpp:328-359 | a table taken in under a new name leaves all others as they are |
| `Catalogs.Catalog.Change` | src/catalog/catalog.cpp:367-520 | a changed table changes no other |
| `Catalogs.Catalog.AddTable` | src/catalog/catalog.cpp:328-359 | the bytes of the log and the table objects then stand for the state that the step of the protocol gives: creation logged, a new name with an empty table of the declared columns, a known name as it was |
| `Catalogs.Catalog.InsertRows` | src/catalog/catalog.cpp:367-449 | so they do after an insert into the table object: rows logged first, a seal they cause logged after; after a refusal, the log and the fact of the refusal are those of the step |
| `Catalogs.Catalog.DeleteRows` | src/catalog/catalog.cpp:451-473 | so they do after a deletion, which changes neither objects nor log when no id or table is given |
| `Catalogs.Catalog.UpdateRows` | src/catalog/catalog.cpp:475-520 | so they do after an update, one record for its deletion and insertion, or a refusal |
| `Catalogs.Catalog.FlushAll` | src/catalog/catalog.cpp:557-594 | so they do after every table is saved with the length of the log file as its checkpoint, and the log kept or deleted |
| `Catalogs.Catalog.DoAll` | src/catalog/catalog.cpp:328-594 | any run of statements on the objects ends in the state that the protocol gives, and the log file is the header and exactly the records of that state |
| `CatalogStatements.ColumnTakes` | src/storage/disk/column_page.cpp:134-198 | a column takes NULL exactly if it was declared nullable, and other values exactly if they have its type and, for strings, at most its length |
| `CatalogStatements.SchemaTakes` | src/storage/disk/table.cpp:191-231 | rows fit a created table exactly if they have one value per column and each column takes it as declared |
| `CatalogStatements.SlotWidth` | src/storage/disk/column_page.h:36-44 | a slot of a page is just wide enough for the values its column takes |
| `CatalogStatements.InsertStep` | src/catalog/catalog.cpp:367-449 | rows that the declared columns take are logged and appended, with no row dead that was not; of any others none gets in, and no other table changes |
| `CatalogStatements.UpdateStep` | src/catalog/catalog.cpp:475-520 | so it is with an update, whose old rows are then dead |
| `CatalogStatements.DeleteAnswers` | src/catalog/catalog.cpp:451-473 | a deletion is logged and makes exactly the named rows dead |
| `CatalogStatements.CreateAnswers` | src/catalog/catalog.cpp:328-359 | a new table is logged, is empty, and takes what its columns were declared for |
| `CatalogStatements.DeclaredTakes` | src/catalog/catalog.cpp:328-520 | after any run a table takes the values that the statement which created it declared, and no others |
| `CatalogStatements.CreatedTakes` | src/catalog/catalog.cpp:213-223 | so does a table that load creates from the log |
| `CatalogStatements.RecoveredTakes` | src/catalog/catalog.cpp:201-296 | so does a table after a run, a crash and a load |
| `CatalogStatements.CreateAndInsert` | src/catalog/catalog.cpp:328-449 | on the objects: after creating a table and inserting, the rows are in the table object exactly if the declared columns take them |
| `CatalogCrash.TablesAreFolds` | src/catalog/catalog.cpp:328-594 | a run from nothing ends with exactly the tables its log creates, each the fold of its records |
| `CatalogCrash.RunAndLoad` | src/catalog/catalog.cpp:201-594 | running the objects, stopping and loading from the log file and whatever unflushed rows the stop left in the files gives back the tables the catalog had, with their rows and tombstones |
| `Bitmap.SetBitAt` | src/storage/disk/segment.cpp:65-76 | setting a bit sets that bit and no other |
| `Bitmap.ClearBitAt` | src/storage/disk/column_page.cpp:109-111 | clearing a bit clears that bit and no other |
| `Bitmap.WidenAt` | src/storage/disk/segment.cpp:65-76 | lengthening a bitmap changes no bit |
| `ColumnPages.CapacityExact` | src/storage/disk/column_page.h:36-44 | the capacity is the largest number of values whose slots and NULL bits fit a page, for every type |
| `ColumnPages.ColumnPage.constructor` | src/storage/disk/column_page.cpp:9-21 | a new page is empty, with the capacity of its column |
| `ColumnPages.ColumnPage.Init` | src/storage/disk/column_page.cpp:9-21 | a page that is used again holds nothing of what it held |
| `ColumnPages.ColumnPage.UpdateMinMax` | src/storage/disk/column_page.cpp:117-132 | the bounds still hold all values, and grow just so far that they hold this one; the contents stay |
| `ColumnPages.ColumnPage.AppendTyped` | src/storage/disk/column_page.cpp:134-184 | a value is taken exactly if it fits the column and there is room; it goes to the end, and the recorded bounds still enclose all values |
| `ColumnPages.ColumnPage.AppendNull` | src/storage/disk/column_page.cpp:186-198 | a NULL is taken exactly if the column is nullable and there is room |
| `ColumnPages.ColumnPage.TruncateTo` | src/storage/disk/column_page.cpp:23-38 | the first values stay, with NULL count and bounds still right |
| `ColumnPages.ColumnPage.Get` | src/storage/disk/column_page.cpp:200-246 | the value of a slot, none for a NULL or a slot beyond the end |
| `ColumnFiles.RowPlace` | src/storage/disk/column_file.cpp:267-278 | row i lies in slot i modulo capacity of page i divided by capacity, and a row that is not there in none |
| `ColumnFiles.CutPlace` | src/storage/disk/column_file.cpp:355-388 | the pages and the slots kept by a cut hold exactly the rows before it |
| `ColumnFiles.ColumnFile.Create` | src/storage/disk/column_file.cpp:44-75 | a new file has no rows |
| `ColumnFiles.ColumnFile.Open` | src/storage/disk/column_file.cpp:77-105 | an opened file has the rows of its pages in order |
| `ColumnFiles.ColumnFile.RowCount` | src/storage/disk/column_file.cpp:107-110 | the number of rows |
| `ColumnFiles.ColumnFile.RotatePage` | src/storage/disk/column_file.cpp:112-126 | writing out a full page and starting the next changes no row |
| `ColumnFiles.ColumnFile.EnsureRoom` | src/storage/disk/column_file.cpp:128-133 | there is room for one more value, and no row has changed |
| `ColumnFiles.ColumnFile.Append` | src/storage/disk/column_file.cpp:135-229 | an acceptable value becomes the last row; any other changes nothing |
| `ColumnFiles.ColumnFile.AppendBulk` | src/storage/disk/column_file.cpp:231-265 | the values before the first unacceptable one become the last rows |
| `ColumnFiles.ColumnFile.ReadPage` | src/storage/disk/column_file.cpp:346-353 | every page up to the current one, and no other, can be read, the current one with its unwritten values |
| `ColumnFiles.ColumnFile.Get` | src/storage/disk/column_file.cpp:267-318 | the value of a row across pages, none for a NULL or a row that is not there |
| `ColumnFiles.ColumnFile.Truncate` | src/storage/disk/column_file.cpp:355-388 | a flushed file cut to n of its rows has exactly the first n |
| `ColumnFiles.ColumnFile.Flush` | src/storage/disk/column_file.cpp:390-398 | everything is on the disk, and no row has changed |
| `RowStore.Seen` | src/storage/disk/table.cpp:524-593 | a reader sees all rows and only tombstones that have a row |
| `Tables.HolderUnique` | src/storage/disk/table.cpp:397-419 | a sealed row belongs to one segment only |
| `Tables.MarkBits` | src/storage/disk/segment.cpp:65-76 | exactly the ids within the segment are marked, in addition to those before |
| `Tables.SealedView` | src/storage/disk/table.cpp:524-593 | a new segment in the place of the write buffer shows the same rows and tombstones |
| `Tables.MarkedView` | src/storage/disk/table.cpp:421-468 | tombstones set in the parts the ids were sorted to are tombstones on exactly those rows |
| `Tables.Table.constructor` | src/storage/disk/table.cpp:191-231 | a new table has no rows and no tombstones |
| `Tables.Table.RowCount` | src/storage/disk/table.cpp:284-288 | the number of rows, sealed and buffered |
| `Tables.Table.IsRowDeleted` | src/storage/disk/table.cpp:397-419 | the linear lookup is right for every id |
| `Tables.Table.FlushWriteBuffer` | src/storage/disk/table.cpp:524-593 | sealing changes neither row nor visible tombstone, and empties the buffer; all bitmaps cover their segments afterwards exactly if they did and that of the buffer did |
| `Tables.Table.MaybeFlush` | src/storage/disk/table.cpp:517-522 | the buffer is sealed exactly from the threshold on |
| `Tables.Table.InsertMany` | src/storage/disk/table.cpp:342-372 | rows that fit the schema are appended under the next ids; others are refused, those of a wrong size before anything changes, and otherwise with the columns left as long as they had got; a bitmap that does not cover its segment comes about exactly when one that does not cover the buffer is sealed |
| `Tables.Table.AppendColumns` | src/storage/disk/table.cpp:353-365 | every column takes its values of the batch in order, up to the first value refused, which ends the batch |
| `Tables.Table.FindSegment` | src/storage/disk/table.cpp:432-441 | the binary search finds the segment that holds the row |
| `Tables.Table.RouteIds` | src/storage/disk/table.cpp:425-443 | each id goes to the one segment that holds it or to the buffer, as a local id |
| `Tables.Table.MarkDeleted` | src/storage/disk/table.cpp:421-468 | exactly the rows named that exist become dead, and no row changes; bitmaps that cover their segments still do |
| `Tables.Table.Truncate` | src/storage/disk/table.cpp:481-490 | the rows before the target and all sealed rows stay |
| `Tables.Table.ReplaceSegments` | src/storage/disk/table.cpp:595-629 | one segment stands for the first n, and later ones stay |
| `Tables.Table.UpdateRows` | src/storage/disk/table.cpp:379-395 | old rows get tombstones and new rows follow under new ids, as one step; when the new rows are refused the tombstones stay |
| `SegmentMerging.CopyColumn` | src/storage/merge_worker.cpp:57-125 | the target gains all values of the source in order, and the source stays |
| `SegmentMerging.MergeDeletedBitmaps` | src/storage/merge_worker.cpp:127-153 | a bit of the merged bitmap is set exactly if that row was dead in its segment |
| `SegmentMerging.MergeColumn` | src/storage/merge_worker.cpp:199-231 | the new file holds the values of the files of the segments end to end |
| `SegmentMerging.MergeColumns` | src/storage/merge_worker.cpp:199-231 | each merged column is the columns of the segments end to end, in a new file of its own |
| `SegmentMerging.MergedView` | src/storage/merge_worker.cpp:250-268 | a merged segment in the place of the first n shows the same rows and tombstones under the same ids |
| `SegmentMerging.MergeTable` | src/storage/merge_worker.cpp:170-268 | merging the files of the oldest half of too many segments cannot be seen, leaves so many fewer segments, each in its files, and bitmaps that cover |
| `Vacuuming.CountDead` | src/storage/vacuum.cpp:145-156 | the number of dead rows of a segment |
| `Vacuuming.CopyColumnFiltered` | src/storage/vacuum.cpp:42-119 | the target gains exactly the live values of the source, in order |
| `Vacuuming.FilterColumns` | src/storage/vacuum.cpp:169-201 | each column of all segments is rewritten into a new file without the dead rows |
| `Vacuuming.ReadableIff` | src/storage/vacuum.cpp:145-156 | of a table in order, the bits that a vacuum reads all exist if and only if every bitmap is empty or covers its segment |
| `Vacuuming.ShortBitmap` | src/storage/disk/table.cpp:524-593 | a run that makes a shorter one: eight rows, a tombstone, and a ninth row that seals the buffer |
| `Vacuuming.KeptColumnsOk` | src/storage/vacuum.cpp:169-201 | the rewritten columns stay aligned and hold the live rows of all segments in order |
| `Vacuuming.VacuumTable` | src/storage/vacuum.cpp:121-219 | the live sealed rows and their order stay, now in new files, no sealed tombstone is left, and the number returned is that of the dead rows |
| `TableScanning.RefineByDeletions` | src/executor/table_scan.cpp:106-131 | exactly the live rows of the ranges survive, in ordered disjoint ranges |
| `TableScanning.PruningSound` | src/executor/table_scan.cpp:46-84 | no page that holds a value of the range is skipped |
| `TableScanning.PrunedMeans` | src/executor/table_scan.cpp:46-84 | a page of numbers is skipped exactly if it has none or its bounds lie outside the range |
| `TableScanning.PrunePages` | src/executor/table_scan.cpp:133-165 | the ranges cover exactly the pages that overlap the scan range, neighbours joined |
| `TableScanning.KeptMember` | src/executor/table_scan.cpp:133-165 | every row whose value lies in the range is on a page that is kept |
| `TableScanning.BuildEntry` | src/executor/table_scan.cpp:133-165 | the survivors of a segment are its live rows on the pages kept |
| `TableScanning.FullScanExact` | src/executor/table_scan.cpp:133-165 | without a range these are exactly the live rows |
| `TableScanning.RangeScanSound` | src/executor/table_scan.cpp:46-165 | with a range every live row of a segment whose value lies in it is among them, by the bounds that its column files keep |
| `TableScanning.TableScan.constructor` | src/executor/table_scan.cpp:86-104 | a new scan has nothing planned |
| `TableScanning.TableScan.Open` | src/executor/table_scan.cpp:167-202 | what is still to come is the surviving rows of every segment, then of the write buffer |
| `TableScanning.TableScan.SkipRanges` | src/executor/table_scan.cpp:215-222 | passing over used ranges loses no row |
| `TableScanning.TableScan.EmitRange` | src/executor/table_scan.cpp:224-244 | a chunk is the next rows to come, its ids counted from its physical start |
| `TableScanning.TableScan.Next` | src/executor/table_scan.cpp:209-248 | each call takes a non-empty chunk off what is to come, and ends only when nothing is left |
| `TableScanning.RunScan` | src/executor/table_scan.cpp:167-248 | a whole scan yields the surviving rows of all parts once, in order, under their global ids |
| `TableScanning.TableScanExact` | src/executor/table_scan.cpp:167-248 | without a range these are the live rows of the table, each once, in order, under its id |
| `TableScanning.TableRangeSound` | src/executor/table_scan.cpp:46-248 | with a range every live row of the table whose value lies in it is shown, under its id |
| `TableScanning.TableScanLive` | src/executor/table_scan.cpp:167-248 | whatever the range, only live rows are shown, each once, in the order of their ids |
| `TableScanning.ScanTable` | src/executor/table_scan.cpp:46-315 | scanning a table through its column files, pruning by the bounds on their pages: only live rows, each once and in order, all of them without a range, and with one all whose value lies in it |
| `TableScanning.ReadChunk` | src/executor/table_scan.cpp:224-315 | a chunk read column by column from the files is the projected rows |
| `FileImages.FileHolds` | src/storage/disk/column_file.cpp:334-353 | the pages of a column file are full up to the last, hold its rows in order, and keep bounds that enclose them |
| `FileImages.ScanPages` | src/storage/disk/column_file.cpp:334-344 | visiting all pages visits exactly these |
| `FileImages.ReadRun` | src/executor/table_scan.cpp:250-315 | a run of rows is read across pages exactly |
| `LinearProbing.NextPow2` | src/executor/hash_join.cpp:17-21 | the least power of two not below the argument |
| `LinearProbing.MeetsFree` | src/executor/hash_join.cpp:149-164 | walking from any slot of a table that is not full meets a free one |
| `LinearProbing.FreeEnds` | src/executor/hash_join.cpp:199-222 | every entry of a hash lies before the first free slot from its home |
| `LinearProbing.PlaceHolds` | src/executor/hash_join.cpp:159-163 | an entry put at the first free slot keeps every entry findable and those of one hash in order |
| `LinearProbing.SeekFree` | src/executor/hash_join.cpp:159-163 | the walk ends at the first free slot from the home slot |
| `JoinSpec.ChunksOutNested` | src/executor/hash_join.cpp:172-236 | chunk by chunk the output is that of the nested loop, in its order except for LEFT OUTER, whose rows are the same |
| `JoinSpec.NestedLoopMeans` | src/executor/hash_join.cpp:172-236 | a row is in the join exactly if it is a probe row followed by a build row of the same key without NULLs, or, by the kind of join, a probe row without such a partner padded with NULLs, a probe row with one, or one without |
| `JoinSpec.SemiAntiCount` | src/executor/hash_join.cpp:199-229 | SEMI keeps the probe rows with a partner and ANTI the others, each as often as it occurs |
| `JoinSpec.PartnersCount` | src/executor/hash_join.cpp:199-223 | a probe row meets each build row of its key as often as it occurs |
| `HashJoining.HitsArePartners` | src/executor/hash_join.cpp:37-60 | entries with equal keys and no NULL are exactly the build rows that join, in build order |
| `HashJoining.ProbeFinds` | src/executor/hash_join.cpp:199-223 | what a probe row finds are exactly its partners, none for a NULL key |
| `HashJoining.HashJoin.constructor` | src/executor/hash_join.cpp:62-94 | before the first call the whole join is still to come |
| `HashJoining.HashJoin.BuildSide` | src/executor/hash_join.cpp:114-170 | all build rows without NULL keys are in a table that is not full |
| `HashJoining.HashJoin.CountNonNull` | src/executor/hash_join.cpp:140-147 | the number of rows the table has to take |
| `HashJoining.HashJoin.EnterRow` | src/executor/hash_join.cpp:156-164 | one more build row is findable, and the others still are |
| `HashJoining.HashJoin.ProbeRow` | src/executor/hash_join.cpp:199-223 | a probe row pairs with each partner once in build order, with the first only for SEMI and with none for ANTI, and knows whether it has any |
| `HashJoining.HashJoin.ProbeAll` | src/executor/hash_join.cpp:196-223 | the pairs of a chunk stand for what its rows contribute at once |
| `HashJoining.HashJoin.AddUnmatched` | src/executor/hash_join.cpp:224-229 | rows without partner follow, padded with NULLs for LEFT OUTER |
| `HashJoining.HashJoin.LoadNextProbeChunk` | src/executor/hash_join.cpp:172-236 | taking the next chunk neither loses nor adds output, and fails only at the end of the probe side |
| `HashJoining.HashJoin.EmitOutputSlice` | src/executor/hash_join.cpp:238-329 | at most a chunk of the rows to come, in order |
| `HashJoining.HashJoin.Next` | src/executor/hash_join.cpp:331-347 | each call takes a non-empty chunk off what is to come, and ends only when nothing is left |
| `HashJoining.HashJoin.Drain` | src/executor/hash_join.cpp:331-347 | pulling to the end yields all of it |
| `HashJoining.RunHashJoin` | src/executor/hash_join.cpp:114-347 | the operator is the nested loop over the two inputs, however they are cut into chunks: same rows, and in the same order except for LEFT OUTER |
| `JoinPlanning.KeysMeanOn` | src/planner/planner.cpp:297-344 | the key columns taken from an ON clause are equal and not NULL exactly when the clause holds |
| `JoinPlanning.JoinStep` | src/planner/planner.cpp:260-295 | one more binding on the build side: the rows read through the offsets are the tuples so far extended by the rows that satisfy the clause |
| `JoinPlanning.SwapCovers` | src/planner/planner.cpp:240-248 | building on the first table swaps the columns, and the offsets make up for it |
| `JoinPlanning.SplitsEither` | src/planner/planner.cpp:297-344 | whether the first clause can be split into keys does not depend on the side chosen |
| `JoinPlanning.TuplesAreSatisfying` | src/planner/planner.cpp:205-271 | extending binding by binding gives the tuples of the product that satisfy every clause |
| `JoinPlanning.FirstJoin` | src/planner/planner.cpp:230-258 | the first join builds on the table with fewer rows; either way it means the same, and fails exactly for a clause of another form |
| `JoinPlanning.BuildJoin` | src/planner/planner.cpp:273-295 | joining one more binding keeps the meaning, and fails exactly for an unknown table or a clause of another form |
| `JoinPlanning.BuildScans` | src/planner/planner.cpp:205-271 | a plan is made exactly for known tables with conjunctions of column equalities; read through the offsets its rows are, as a multiset, the tuples of the product that satisfy every ON clause, NULL never equal |
| `JoinPlanning.RunPlan` | src/planner/planner.cpp:205-295 | running the tree of hash joins yields what the plan means |
| `JoinPlanning.PlanAndRun` | src/planner/planner.cpp:205-295 | planning and running: an answer exactly for known tables with conjunctions of column equalities, and its rows, read through the offsets, are as a multiset the tuples of the product that satisfy every ON clause |
| `AggregateSpec.AddCorrect` | src/executor/hash_aggregate.cpp:258-353 | adding a row to the state of a group gives the state of the larger group, for COUNT, SUM, MIN and MAX over non-NULL values |
| `AggregateSpec.InitialCorrect` | src/executor/hash_aggregate.cpp:191-198 | a new state is that of no rows |
| `AggregateSpec.AggregateRight` | src/executor/hash_aggregate.cpp:258-514 | MIN and MAX are arguments of rows of the group with none below or above, COUNT is the number of rows with an argument, SUM their sum, AVG times that number is the sum, and NULL stands for no argument |
| `AggregateSpec.MembersMean` | src/executor/hash_aggregate.cpp:215-256 | a group has the rows with its key, each as often as the input has it |
| `AggregateSpec.KeysSeenSnoc` | src/executor/hash_aggregate.cpp:215-256 | a row adds its key to the groups exactly if it is new, at the end |
| `HashAggregation.LayOut` | src/executor/hash_aggregate.cpp:61-176 | every aggregate has its states, AVG a sum and a count, and reads its own |
| `HashAggregation.CellMeans` | src/executor/hash_aggregate.cpp:403-514 | the cell computed from the states of a group is the aggregate of its rows |
| `HashAggregation.HashAggregate.constructor` | src/executor/hash_aggregate.cpp:61-176 | nothing has been read yet |
| `HashAggregation.HashAggregate.ResizeTable` | src/executor/hash_aggregate.cpp:200-213 | the doubled table finds every group again |
| `HashAggregation.HashAggregate.FindGroup` | src/executor/hash_aggregate.cpp:215-256 | a group is found exactly if its key is known; otherwise the walk ends at a free slot |
| `HashAggregation.HashAggregate.FindOrCreateGroup` | src/executor/hash_aggregate.cpp:215-256 | a known key keeps its group, a new one is appended with empty states, and the table stays at most half full |
| `HashAggregation.HashAggregate.UpdateStates` | src/executor/hash_aggregate.cpp:258-353 | a row is added to every state of its group and to no other |
| `HashAggregation.HashAggregate.AddRow` | src/executor/hash_aggregate.cpp:355-401 | groups and states are those of the rows read so far |
| `HashAggregation.HashAggregate.AggregateAll` | src/executor/hash_aggregate.cpp:355-401 | the whole input is aggregated, and one group stands for no input without GROUP BY |
| `HashAggregation.HashAggregate.EmitSlice` | src/executor/hash_aggregate.cpp:403-514 | at most a chunk of the groups to come, in order |
| `HashAggregation.HashAggregate.GroupCells` | src/executor/hash_aggregate.cpp:403-514 | the keys of a group and its aggregates |
| `HashAggregation.HashAggregate.Next` | src/executor/hash_aggregate.cpp:516-526 | each call takes a non-empty chunk off what is to come, and ends only when nothing is left |
| `HashAggregation.HashAggregate.Drain` | src/executor/hash_aggregate.cpp:516-526 | pulling to the end yields all of it |
| `HashAggregation.RunHashAggregate` | src/executor/hash_aggregate.cpp:61-526 | one row per distinct key, NULL equal to NULL, in order of first appearance, with for each aggregate the cell that is right for exactly the rows of that key |
| `LruK.AccessRemembered` | src/storage/memory/lru_k_replacer.cpp:65-71 | keeping k times is enough to know the last k accesses of the whole trace |
| `LruK.FrontMeans` | src/storage/memory/lru_k_replacer.cpp:7-43 | the oldest time kept is the k-th last access, or the first one of a frame with fewer than k |
| `LruK.BeforeExamples` | src/storage/memory/lru_k_replacer.cpp:7-43 | with k = 2: one access goes before two, of two frames with one the earlier first, of two with two the one whose last access but one is older |
| `LruK.Replacer.constructor` | src/storage/memory/lru_k_replacer.cpp:5 | no frame is tracked |
| `LruK.Replacer.Pin` | src/storage/memory/lru_k_replacer.cpp:45-53 | a tracked frame cannot be evicted |
| `LruK.Replacer.Unpin` | src/storage/memory/lru_k_replacer.cpp:55-63 | a tracked frame can be evicted |
| `LruK.Replacer.RecordAccess` | src/storage/memory/lru_k_replacer.cpp:65-71 | the access joins the trace, and other frames stay as they are |
| `LruK.Replacer.Remove` | src/storage/memory/lru_k_replacer.cpp:73-82 | the frame is forgotten |
| `LruK.Replacer.Victim` | src/storage/memory/lru_k_replacer.cpp:7-43 | there is a victim exactly if a frame is evictable; it is the LRU-K choice on the full trace, and is forgotten |
| `LruK.Replacer.Choose` | src/storage/memory/lru_k_replacer.cpp:7-43 | the scan finds the LRU-K choice: frames with fewer than k accesses first, by first access, then by k-th last access |
| `BufferPools.BufferPool.constructor` | src/storage/memory/buffer_pool.cpp:7-19 | all slots and buffers are free |
| `BufferPools.BufferPool.AcquireSlot` | src/storage/memory/buffer_pool.cpp:23-40 | a free slot or that of the LRU-K victim; none exactly if there is neither |
| `BufferPools.BufferPool.FetchPage` | src/storage/memory/buffer_pool.cpp:42-76 | the page as it is on the disk, pinned once more; it fails exactly if the page is not cached and either the disk does not have it or every slot holds a pinned page; a page is evicted exactly if the page is not cached and there is no room, and it is the LRU-K choice among the pages without pins by the history of fetches, which goes on with the eviction and this fetch; all other pages stay |
| `BufferPools.BufferPool.UnpinPage` | src/storage/memory/buffer_pool.cpp:78-96 | one pin less, refused for a page without pins; other pages stay, and so does the history |
| `BufferPools.PinnedKept` | src/storage/memory/buffer_pool.cpp:23-40 | a pinned page is never the victim |
| `BufferPools.VictimPage` | src/storage/memory/buffer_pool.cpp:23-40 | the slot that the replacer chooses holds the page that is the LRU-K choice by its own fetches |
| `BufferRuns.Serve` | src/storage/memory/buffer_pool.cpp:42-96 | any run of fetches and unpins: which succeed, which page each evicts, what is cached and how often it is pinned follow from the calls before, the page evicted being the LRU-K choice by the fetches of the run |
| `ByteScan.PopLowest` | src/executor/selection_vector.h:58-81 | taking the lowest bit and clearing it visits the bits of a byte in order |
| `SelectionVectors.VisitBits` | src/executor/selection_vector.h:58-81 | the rows of a bitmap in ascending order |
| `SelectionVectors.IndicesToBitmap` | src/executor/selection_vector.cpp:14-20 | ascending indices read back from their bitmap |
| `SelectionVectors.IndicesToRanges` | src/executor/selection_vector.cpp:22-39 | the runs list exactly the indices |
| `SelectionVectors.RunAt` | src/executor/selection_vector.cpp:111-131 | the row at a position among runs |
| `SelectionVectors.CutBits` | src/executor/selection_vector.cpp:133-182 | the first k set bits stay and the others are cleared |
| `SelectionVectors.CutRuns` | src/executor/selection_vector.cpp:133-182 | the runs of the first k rows |
| `SelectionVectors.DropRuns` | src/executor/selection_vector.cpp:184-231 | the runs of all but the first n rows |
| `SelectionVectors.SelectionVector.FromDense` | src/executor/selection_vector.cpp:78-85 | the selection is the list |
| `SelectionVectors.SelectionVector.FromBitmap` | src/executor/selection_vector.cpp:87-94 | the selection is the set bits |
| `SelectionVectors.SelectionVector.FromRanges` | src/executor/selection_vector.cpp:96-109 | the selection is the rows of the runs |
| `SelectionVectors.SelectionVector.ForEach` | src/executor/selection_vector.h:58-81 | every form calls back for the same rows in the same order |
| `SelectionVectors.SelectionVector.At` | src/executor/selection_vector.cpp:111-131 | the row at a position, for lists and runs |
| `SelectionVectors.SelectionVector.Truncate` | src/executor/selection_vector.cpp:133-182 | in every form the first k rows stay |
| `SelectionVectors.SelectionVector.DropPrefix` | src/executor/selection_vector.cpp:184-231 | in every form the first n rows go |
| `SelectionVectors.SelectionVector.ToDense` | src/executor/selection_vector.cpp:233-240 | a list of the same rows |
| `SelectionVectors.Builder.Append` | src/executor/selection_vector.h:22-27 | the row follows those before |
| `SelectionVectors.Builder.Finalize` | src/executor/selection_vector.cpp:43-76 | whichever form density and runs call for, the selection is the rows appended |
| `FilterChunks.Chunk.Materialize` | src/executor/chunk.h:111-121 | the rows shown become the rows, and there is no selection |
| `FilterChunks.Chunk.Resize` | src/executor/chunk.h:58-68 | the first k rows shown stay |
| `FilterChunks.Chunk.DropPrefix` | src/executor/chunk.h:70-80 | the first n rows shown go |
| `FilterChunks.Chunk.Compact` | src/executor/chunk.h:82-109 | the rows shown whose mask is set are copied, with or without a selection before |
| `FilterChunks.Chunk.Select` | src/executor/filter.cpp:55-73 | a selection shows the rows whose mask is set, without copying, and an empty one is reported |
| `FilterChunks.Chunk.Filter` | src/executor/filter.cpp:30-77 | under both strategies the chunk shows exactly the rows that satisfy the predicate, and is passed over exactly if there are none |
| `FilterChunks.FilterChain` | src/executor/filter.cpp:30-77 | a chain that mixes strategies yields the rows that satisfy all predicates |
| `Pruning.CompareOrder` | src/storage/disk/shard_map_file.cpp:24-47 | values of one type are totally ordered, doubles that are numbers by sign and magnitude |
| `Pruning.CompareMeans` | src/storage/disk/shard_map_file.cpp:15-47 | a value compares below another exactly if its number is smaller, or it is false and the other true, or its bytes come first |
| `Pruning.DoubleMeans` | src/storage/disk/shard_map_file.cpp:31-32 | doubles that are numbers are ordered as the numbers that their bits stand for, the two zeros being equal |
| `Pruning.EqualMeans` | src/storage/disk/shard_map_file.cpp:15-47 | values of which neither is below the other are the same, but for the sign of a zero |
| `Pruning.ShardForValue` | src/storage/disk/shard_map_file.cpp:49-60 | a value goes to the first partition without a bound or with one above the value, else to the last; a NULL to no partition behind MAXVALUE |
| `Pruning.PrunePartitions` | src/storage/disk/shard_map_file.cpp:62-113 | for any partitions exactly those that the operator calls for are searched, all of them if none is left or the column is another |
| `Pruning.KeepsMeans` | src/storage/disk/shard_map_file.cpp:62-113 | which partitions that is, said by the order of the values: for = the one whose bounds enclose the literal, for < and <= those that begin below it, for > and >= those that end above it |
| `Pruning.SatisfiesMeans` | src/storage/disk/shard_map_file.cpp:62-113 | what the operator asks of a row, said by the order of the values |
| `Pruning.LessKept` | src/storage/disk/shard_map_file.cpp:62-113 | the partition of a smaller value is kept for < and <= |
| `Pruning.GreaterSearched` | src/storage/disk/shard_map_file.cpp:62-113 | the partition of a value not smaller is searched for > and >=, unless the last bound is dropped while another is kept |
| `Pruning.EqualSearched` | src/storage/disk/shard_map_file.cpp:62-113 | the partition of an equal value is searched for = |
| `Pruning.BeginsAtLost` | src/storage/disk/shard_map_file.cpp:62-113 | with <= the literal itself is lost when its own partition is bounded and begins at it |
| `Pruning.LastDroppedLost` | src/storage/disk/shard_map_file.cpp:62-113 | with > and >= the values above all bounds are lost when the last bound is not above the literal and another is |
| `Pruning.PruningExact` | src/storage/disk/shard_map_file.cpp:49-113 | for bounds in any order no matching value is lost if and only if neither of these two holds |
| `Pruning.OrderedExact` | src/storage/disk/shard_map_file.cpp:49-113 | for ascending bounds nothing is lost if and only if the operator is not <= or the literal is not the bound of a partition that another bounded one follows |
| `Pruning.UnorderedLoses` | src/storage/disk/shard_map_file.cpp:49-113 | bounds 20 and 10, which CREATE TABLE takes: a search for values above 15 does not look where 25 is stored |
| `CivilDates.ValidReturns` | src/binder/binder.cpp:96-105 | the day number of a date of the calendar is shown as that date, in every era |
| `CivilDates.NumberReturns` | src/main.cpp:39-52 | every day number is shown as a date of the calendar, and that date has this number |
| `CivilDates.ConsecutiveDates` | src/main.cpp:39-52 | consecutive numbers are shown as consecutive dates, by the month lengths of section 5.7 and the leap rule of appendix C of RFC 3339 |
| `CivilDates.Epoch` | src/binder/binder.cpp:96-105 | day 0 is 1970-01-01 |
| `CivilDates.FebruaryThirty` | src/binder/binder.cpp:96-105 | 2023-02-30 is accepted and shown as 2023-03-02 |
| `CivilDates.ReturnsIffValid` | src/binder/binder.cpp:96-105 | an accepted date is shown as itself if and only if the calendar has it |
| `CivilDates.ClockReturns` | src/main.cpp:53-75 | the microseconds of a day and a time of day split into that day and time, before the epoch too |

## Left out

Contracts that say less than one might wish:

- Election.ElectionManager.StartElection: terms are assumed to stay below 2^64, so the wrap-around of the 64-bit term is not modelled; the steps of the cluster have no such bound.
- WalTail.TornTail: names, counts and values are assumed to fit the fields that hold them; the writer cuts longer ones silently.
- WalWriting.WalWriter.LogInsert: each value has the type of its column, at any other the writer throws; a statement with such a value is a step that logs and changes nothing.
- RecoveryExact.RecoveryIsExact: for tables without unique indexes and runs without vacuum, merge, drop or a crash in the middle of a seal; a run is followed up to the first statement whose rows are refused after they were logged, and what that process does next is not modelled.
- Catalogs.Catalog.InsertRows: indexes are not part of the catalog object, and the checkpoint that follows an insert once the log is long is a step of its own.
- CatalogStatements.DeclaredTakes: for columns of which a page holds a value; any other takes none.
- ColumnFiles.ColumnFile.Truncate: for flushed files, as the only caller has them.
- Vacuuming.VacuumTable: each bitmap is empty or covers its segment, without which the code reads past its end; `Tables.Table.InsertMany` says which inserts break this and `Vacuuming.ShortBitmap` gives a run. No write comes between.
- SegmentMerging.MergeTable: no delete comes between the snapshot and the swap, and the threshold is at least 2.
- HashJoining.RunHashJoin: at most 2^30 build rows, so that the 32-bit table size does not overflow.
- JoinPlanning.RunPlan: at most 2^30 rows per table, for the same reason.
- HashAggregation.RunHashAggregate: SUM does not overflow, and AVG is exact division.
- SelectionVectors.Builder.Finalize: out-of-order rows are only promised when the order matters, because a bitmap forgets it; density is compared exactly.
- Pruning.PruningExact: bounds and literals are not NULL and not the double that is no number.
- CivilDates.ValidReturns: years are unbounded, so the overflow of 32-bit day numbers some five million years from now is not modelled.

Parts of the repository without a model:

- QUIC transport, sessions, servers, shells, logging, threads and locks; critical sections are atomic steps.
- The byte layout of election requests and replies, and the delivery of one vote message twice.
- Failing reads and writes of files, apart from a torn state file, a torn log and a page the disk does not have.
- The B+ tree `entry_count`, page flags, and the shifting of bytes within a page; a page holds sequences of keys, entries and children.
- Index maintenance by the catalog beyond the check before an insert and the insertion of a key; index scans and their choice by the planner.
- DOUBLE as an index key, in page bounds, row comparisons and aggregates: floating-point arithmetic.
- The internals of xxHash; hash functions are arbitrary.
- Streaming the log to replicas, where a batch may end inside a record.
- Loading without a log file, indexes, constraints and shard maps while loading, and the canonical form of table names.
- Reopening a table after vacuum, the manifest, and the vacuum the merge worker starts on its own.
- The write buffer of a table holds the contents of its column files; which file calls an insert into it makes is not modelled.
- Operators pass rows, not columns; the key types the join asserts and the output columns it builds by type are not modelled, nor chunks without columns.
- Sorting, limits, projection, expressions, the lexer, parser and binder apart from dates, and SQL text for shards: much code with easier properties.
- Pages that change on the disk while they are cached, and writing pages back.
