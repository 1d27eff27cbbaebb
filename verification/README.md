# Rhosus: a verified model

Rhosus is a distributed file store. Registries keep the namespace and replicate it through a
log; data nodes keep the blocks. This project models the parts of it whose correctness is
decided by the code and proves what they are there for:

- **The write-ahead log** (`Varint`, `Framing`, `SegmentNames`, `LogDirectory`, `Recovery`,
  `CrashSafety`, `Wal`, `WalRuns`, `LogHistory`). Segment files hold framed entries. The `Wal`
  class writes, reads through a bounded cache of decoded segments, rolls over, truncates at
  both ends through TEMP, START and END files, closes, and loads a directory. Every run from an
  empty directory answers like a plain indexed sequence, also when any operation, and any load
  after it, is cut at any file step; a read answers with what was last written at its index;
  truncations are crash-atomic; interrupted loads agree.
- **The codec of the replicated entry** (`EntryCodec`, `WireFormat`, `EntryMarshal`). Backward
  writer, size computation, forward parser and skipper for unknown fields, with the round trip
  in both directions, and with a description of the wire format that does not refer to them.
- **Replication between registries** (`ControlServer`, `Voting`, `Replication`, `Replay`,
  `Cluster`, `ClusterRuns`). The handlers as state functions, safety over whole runs under lost
  messages, a `Member` class that runs the same steps over a real `Wal` object holding
  marshalled entries and replays them into its tables, and whole runs of a leader with its
  followers as objects. The in-order contract of `Wal.Write` is discharged here.
- **The block allocator of a data node** (`IdxFile`, `Partition`, `PartitionRuns`). A partition
  refines a map from ids to bytes and its index file always loads to its block map.
- **The namespace** (`Paths`, `Storage`, `Subtrees`, `Registry`). The registry writes every
  change through its group, so that `ReplicatedRegistry` can say what the tables of all
  members are in every run of the cluster, and `ReadBack` what every lookup in them answers.
- **Block reads** (`Sorting`, `BlockReads`) and a file's way through the data nodes and back
  (`DataNodes`).
- **The ring queue** (`ByteQueue`) and **the jump hash** (`JumpHash`).

Where code and comments disagree the code is followed: the default segment size is 10 MiB and
the default cache holds 2 segments (the comments say 20 MB and 1), and the out-of-order check
that `Write` documents is not performed.

Each component is modelled in the form it has in Go: classes with fields and loops where the
code updates in place, proved equal to functions about which the lemmas speak.

Six properties one might expect do not hold of the code; each has a concrete failing case and
the exact condition under which the property holds:

- A crash inside the append of a log entry leaves a log that does not open, exactly when the
  append was torn (`CrashSafety.WriteCrash`, `CrashSafety.TornAppend`).
- A write is performed whatever its index, and leaves an object that stands for no log exactly
  when the index is not the next one: the documented check is missing (`Wal.Wal.Write`). On
  disk entries can be lost by it (`CrashSafety.WrongIndexLosesEntries`).
- A term can fall exactly through entries from an older term that reach beyond the log, or the
  overflow of the 32-bit counter, and only through these can a vote be cast twice in a term
  (`Voting.TermFalls`, `Voting.OneVotePerTerm`, `Voting.TwoVotesInOneTerm`).
- A dispatch without losses does not bring a follower up to date exactly when it lacks one
  entry and its buffer is empty (`Replication.DispatchCatchesUp`,
  `Replication.LossLeavesStuck`).
- Removing blocks keeps the index file right exactly when all ids are live, or slot 0 is not
  held by a block that stays (`Partition.RemovalKeepsIndex`,
  `Partition.UnknownIdHitsSlotZero`).
- Removing a path keeps log and tables in step exactly when nothing is there or it is a
  regular file without children, and keeps the namespace a tree exactly when no regular file
  at or below it has children (`Registry.Registry.HandleRemoveFileOrPath`,
  `Registry.PrunedTree`, `Registry.DirectoryRemovalDiverges`).

## Model

| member | source | states |
|---|---|---|
| Varint.RawPut | rhosus/registry/wal/wal.go:381-386 | a varint followed by any bytes decodes to its value and its length, the same way for log frames and protobuf |
| Varint.RawCut | rhosus/registry/wal/wal.go:553-563 | a varint cut short never decodes |
| Varint.SovIsLength | rhosus/pb/control/control.pb.go:4237-4239 | the size reserved for a varint, from its bit length, is the number of bytes the encoder emits, for every value |
| Framing.AppendBinaryEntry | rhosus/registry/wal/wal.go:373-386 | the buffer grows by one frame, and the recorded position reads back the payload |
| Framing.LoadEntries | rhosus/registry/wal/wal.go:528-563 | the loading loop is the recursive scan; it fails exactly where the scan does |
| Framing.ScanFrames | rhosus/registry/wal/wal.go:528-563 | loading any concatenation of appended entries recovers their positions |
| Framing.ScanPrefix | rhosus/registry/wal/wal.go:528-563 | a byte prefix of a segment loads if and only if it ends at an entry boundary, and then gives exactly those whole entries |
| Framing.FrameAllInjective | rhosus/registry/wal/wal.go:373-386 | equal segment bytes come from equal entry lists |
| Framing.ReadBack | rhosus/registry/wal/wal.go:600-632 | the bytes between an entry's recorded positions decode to that entry |
| Framing.FrameSample | rhosus/registry/wal/wal.go:373-386 | the bytes of a three-byte entry, and those of any entry of three hundred bytes |
| SegmentNames.ParseIffRender | rhosus/registry/wal/wal.go:264-266 | a file name is read as a segment, START or END file exactly when it is the name rendered for it |
| SegmentNames.NameOrder | rhosus/registry/wal/wal.go:157-186 | directory order of the names is the order of segment indices, a marker directly behind its segment |
| SegmentNames.NameSample | rhosus/registry/wal/wal.go:264-266 | the names of segment 203, of its marks and of the scratch file |
| SegmentNames.ListingOfNames | rhosus/registry/wal/wal.go:157-186 | sorting the names of a directory and reading them gives exactly the listing the log works with, whatever other files there are |
| LogDirectory.ReadDir | rhosus/registry/wal/wal.go:157-164 | every directory has a listing in name order |
| LogDirectory.AscendingUnique | rhosus/registry/wal/wal.go:157-164 | and only one |
| Recovery.RecoverWorks | rhosus/registry/wal/wal.go:157-260 | loading a healthy or half-truncated directory rebuilds exactly the log it stands for, and every prefix of the cleanup leaves a directory that stands for the same log |
| Recovery.InterruptedLoadsAgree | rhosus/registry/wal/wal.go:157-260 | any chain of loads cut short, then one completed, gives the same log |
| Recovery.RecoverEmpty | rhosus/registry/wal/wal.go:187-197 | an empty directory opens as the empty log at index 1 |
| CrashSafety.TruncateFrontAtomic | rhosus/registry/wal/wal.go:691-781 | a front truncation cut after any file step, inside the temp write too, and reopened through any chain of interrupted loads gives exactly the old log before the START rename and exactly the new one from it on |
| CrashSafety.TruncateBackAtomic | rhosus/registry/wal/wal.go:797-883 | the same for a back truncation and the END rename |
| CrashSafety.WriteCompletes | rhosus/registry/wal/wal.go:427-478 | the file operations of a write, with its rollovers, append one entry to the log on disk |
| CrashSafety.WriteCrash | rhosus/registry/wal/wal.go:427-478 | a write cut short: old log, new log, or corruption exactly when the append was torn |
| CrashSafety.TornAppend | rhosus/registry/wal/wal.go:528-563 | a partly written entry makes the log unreadable |
| CrashSafety.WriteCrashHolds | rhosus/registry/wal/wal.go:427-478 | a write cut short anywhere else leaves a healthy directory that holds the old log or the new one, in exactly known segments |
| CrashSafety.TornSpoils | rhosus/registry/wal/wal.go:427-478 | a torn write leaves a directory that no load opens and none changes |
| CrashSafety.WrongIndexEmptiesTail | rhosus/registry/wal/wal.go:427-478 | a write at the index before the tail segment that fills it creates the tail file again: the directory is healthy and the entries of the tail are gone |
| CrashSafety.WrongIndexLosesEntries | rhosus/registry/wal/wal.go:292-303 | with entries at 1 and 2, a write at 1 leaves only the first on disk |
| Wal.Wal.FindSegment | rhosus/registry/wal/wal.go:515-526 | the binary search finds the last segment that starts at or before the index |
| Wal.Wal.PushCache | rhosus/registry/wal/wal.go:146-154 | the segment becomes the most recent cache entry; every other cached one stays but at most one, and that one, having left the cache, loses its decoded entries; no other segment changes |
| Wal.BoundedMemory | rhosus/registry/wal/wal.go:146-154 | every decoded segment is cached or the tail, so at most one more than the cache size is in memory, however long the log |
| Wal.Wal.LoadSegmentEntries | rhosus/registry/wal/wal.go:528-551 | for any segment: its bytes and the positions of its entries, or an error exactly when the file is missing or does not decode |
| Wal.Wal.LoadSegment | rhosus/registry/wal/wal.go:567-597 | through tail, cache and search alike: the segment the search finds, decoded, reaching over the index |
| Wal.Wal.Read | rhosus/registry/wal/wal.go:600-632 | the bytes written at an index of the log, not-found elsewhere, across any rollover and eviction |
| Wal.Wal.ClearCache | rhosus/registry/wal/wal.go:656-676 | the cache is empty and the object still stands for the same log |
| Wal.Wal.Cycle | rhosus/registry/wal/wal.go:328-348 | a new empty tail segment behind the last entry; the old tail keeps its decoded entries and is the most recent cache entry |
| Wal.Wal.WriteEntry | rhosus/registry/wal/wal.go:427-478 | at any index: exactly the file operations of a rollover, an append and a rollover, what memory stands for afterwards, and the index taken as the last; the log grows by the entry when the index is the next one, and otherwise no log describes segments, index range and directory |
| Wal.Wal.Write | rhosus/registry/wal/wal.go:292-303 | at any index the entry is written, by exactly these file operations; the log grows by it if the index is the next one and the object stands for no log if not; closed and corrupt logs refuse and change nothing |
| Wal.Wal.TruncateFront | rhosus/registry/wal/wal.go:681-781 | drops everything before an index of the log, by exactly the file operations of TruncateFrontAtomic, which lead to the new directory; out of range elsewhere |
| Wal.Wal.TruncateBack | rhosus/registry/wal/wal.go:786-883 | drops everything behind an index of the log, by exactly the file operations of TruncateBackAtomic, which lead to the new directory; out of range elsewhere |
| Wal.Wal.Close | rhosus/registry/wal/wal.go:269-289 | closed from then on, an error if it was before; the log is the same |
| Wal.Wal.CleanUp | rhosus/registry/wal/wal.go:157-243 | the repair of a directory performs exactly the planned removals and renames |
| Wal.Wal.OpenTail | rhosus/registry/wal/wal.go:244-260 | opening succeeds exactly when the tail segment exists and decodes |
| Wal.Wal.Load | rhosus/registry/wal/wal.go:157-260 | opens exactly when recovery does, by exactly the planned file operations; over a directory that stands for a log, or holds none, the object then stands for that log, or the empty one at index 1 |
| WalRuns.DoOp | rhosus/registry/wal/wal.go:292-883 | each operation changes the log, down to its segments, and answers as the plain sequence does, a closed one refusing all but being opened again |
| WalRuns.AfterStep | rhosus/registry/wal/wal.go:292-883 | what an operation makes of the segments is, on the sequence, the plain step |
| WalRuns.RunAll | rhosus/registry/wal/wal.go:292-883 | every run of in-order writes, reads, cache clears, truncations, closings and reopenings answers as a plain indexed sequence |
| WalRuns.RunFromCreate | rhosus/registry/wal/wal.go:106-137 | the same for every run from the creation of a log in a directory without log files |
| WalRuns.FollowAllowed | rhosus/registry/wal/wal.go:292-883 | an event of a run with crashes leads to the sequence before its operation or after it, and to nothing readable exactly when it cuts into the bytes of an entry |
| WalRuns.RunWithCrashes | rhosus/registry/wal/wal.go:292-883 | every run in which any operation may be cut after any file step or inside the write of an entry, and the loads that follow cut too: the state after each event and the answers are a function of the inputs, each cut leaves the sequence before the operation or after it, and the run stops if and only if an entry is torn |
| WalRuns.CrashRunFromCreate | rhosus/registry/wal/wal.go:106-137 | the same from the creation of a log in a directory without log files |
| LogHistory.ReadIff | rhosus/registry/wal/wal.go:600-632 | after every run a read answers with data exactly when the log is open and that data was the last written at the index, which no truncation took away since; told from the operations alone |
| LogHistory.AnswerIs | rhosus/registry/wal/wal.go:292-883 | every other answer of every run, by the range of indices that the operations so far leave |
| LogHistory.ReadAfterRun | rhosus/registry/wal/wal.go:106-137 | the same of the log object, from its creation |
| LogHistory.PathPacked | rhosus/registry/wal/wal.go:427-478 | along every run with crashes no entry is added to a segment already above the segment size, and every segment between the first and the tail has reached it |
| LogHistory.RunKeepsPacked | rhosus/registry/wal/wal.go:106-137 | the same of the segments of the log object at the end of a run |
| EntryCodec.SizeIsLength | rhosus/pb/control/control.pb.go:3715-3744 | Size is the length of the encoding |
| EntryCodec.RoundTripCanonical | rhosus/pb/control/control.pb.go:4910-5081 | every entry, unknown fields included, parses back from its encoding, a negative zero version as zero |
| EntryCodec.RoundTrip | rhosus/pb/control/control.pb.go:4910-5081 | it parses back unchanged if and only if its version is not negative zero |
| EntryCodec.ParseKeeps | rhosus/pb/control/control.pb.go:4910-5081 | whatever parses is an entry in range with well-formed unknown fields |
| EntryCodec.FieldCost | rhosus/pb/control/control.pb.go:4936-5075 | reading a field takes at least the bytes it is written on, a negative type apart |
| EntryCodec.Reparse | rhosus/pb/control/control.pb.go:4910-5081 | whatever parses, from any bytes, is at most five bytes longer when written and comes back from being read again up to the sign of a zero version, unless those bytes no longer fit a slice |
| EntryCodec.SkipLocal | rhosus/pb/control/control.pb.go:8054-8131 | what the skipper accepts does not depend on what follows |
| WireFormat.SkipIff | rhosus/pb/control/control.pb.go:8054-8131 | the skipper answers n exactly when the first n bytes are one item of the wire format: a number, eight or four bytes, a length and that many bytes, or a group of items up to its end tag |
| WireFormat.ParseIff | rhosus/pb/control/control.pb.go:4910-5081 | a byte string parses to an entry exactly when it is a list of items, each known field of its wire type, that amounts to that entry |
| WireFormat.EntryThenItems | rhosus/pb/control/control.pb.go:4910-5081 | an entry followed by items of other field numbers parses to that entry with exactly those bytes added to its unknown ones |
| WireFormat.UnknownIff | rhosus/pb/control/control.pb.go:5058-5075 | bytes are well-formed unknown fields exactly when they are items of other field numbers, one behind the other |
| WireFormat.EntryBytes | rhosus/pb/control/control.pb.go:2531-2576 | the bytes of an entry with every field set |
| WireFormat.UnknownStringKept | rhosus/pb/control/control.pb.go:5058-5075 | an unknown field of three bytes is kept, and what follows it is parsed |
| EntryMarshal.SkipControl | rhosus/pb/control/control.pb.go:8054-8131 | terminates in range on every byte string and equals the recursive skipper; what it skips is exactly one wire item, nested groups included, and every byte string that starts with an item is skipped by its length |
| EntryMarshal.Unmarshal | rhosus/pb/control/control.pb.go:4910-5081 | terminates in range on every byte string and equals the recursive parser; it accepts exactly the strings of well-formed fields, and gives each field the value written last |
| EntryMarshal.DecodeVarint | rhosus/pb/control/control.pb.go:4915-4929 | the shift-and-or loop of the parser reads what the recursive decoder reads, overflow and end of input included |
| EntryMarshal.EncodeVarint | rhosus/pb/control/control.pb.go:3583-3593 | the varint is written right in front of the offset, nothing else changes |
| EntryMarshal.MarshalToSizedBuffer | rhosus/pb/control/control.pb.go:2531-2576 | fills exactly the last Size bytes of the buffer with the encoding |
| EntryMarshal.Marshal | rhosus/pb/control/control.pb.go:2516-2576 | Size bytes that parse back to the entry |
| Voting.TermFalls | rhosus/registry/cluster/server.go:64-138 | the term falls exactly on entries from a lower term beyond the log, or counter overflow |
| Voting.StepKeeps | rhosus/registry/cluster/server.go:64-138 | on every other event the term does not fall, no vote is ahead of it, and a grant is for a new term |
| Voting.RunKeeps | rhosus/registry/cluster/cluster.go:466-471 | over every such run term and last voted term never fall |
| Voting.OneVotePerTerm | rhosus/registry/cluster/server.go:83-128 | and at most one vote is granted per term |
| Voting.ElectionTermIsNew | rhosus/registry/cluster/cluster.go:466-471 | on every such run the term a server stands for election in is above its last vote, above every term it has granted a vote in and above its earlier elections |
| Voting.TwoVotesInOneTerm | rhosus/registry/cluster/server.go:134-138 | a run of four requests in which a server votes twice in one term |
| Voting.AppendAnswers | rhosus/registry/cluster/server.go:130-183 | after any request the term is at least that of the request; a request is taken exactly when its term is not lower, its predecessor is in the log and its entries ascend, and then they are appended; otherwise log and handled entries stay |
| Voting.StaleRefused | rhosus/registry/cluster/server.go:130-183 | on every run in which the term does not fall, once a request of a term was seen every later one of a lower term is refused and changes neither log nor handled entries |
| Voting.VoteAnswers | rhosus/registry/cluster/server.go:64-128 | a vote is granted exactly to a candidate of a term not lower, not voted in, whose last index and last term are not below those of the last entry of the log |
| Voting.RunSettled | rhosus/registry/cluster/server.go:64-183 | over every run index and term that votes are judged by are those of the last entry of the log |
| Voting.GrantIff | rhosus/registry/cluster/server.go:83-128 | so over every run the candidate of a granted vote is not behind the log, and one that is not behind it is granted the vote exactly when its term is fresh |
| Voting.NewTermGranted | rhosus/registry/cluster/server.go:83-128 | and one of a term above the current one always |
| Replication.SendNext | rhosus/registry/cluster/server.go:130-183 | the next entry of the leader is accepted and extends the follower's log by it |
| Replication.RecoveryWorks | rhosus/registry/cluster/cluster.go:418-464 | recovery from the follower's last index is never refused, keeps a prefix, and reaches the leader's log exactly when nothing is lost |
| Replication.AtMostOne | rhosus/registry/cluster/cluster.go:370-416 | a dispatch the follower accepts ships at most one entry, the one right behind its log |
| Replication.DispatchWorks | rhosus/registry/cluster/cluster.go:370-416 | whatever is lost, the follower keeps a prefix no shorter than before, the buffer is empty and only the network can fail |
| Replication.DispatchCatchesUp | rhosus/registry/cluster/cluster.go:370-416 | a dispatch without losses completes the follower's log if and only if it is not one entry behind with an empty buffer |
| Replication.LossLeavesStuck | rhosus/registry/cluster/cluster.go:388-404 | a write and a lost dispatch lead to that state |
| Replication.WriteThenDispatch | rhosus/registry/cluster/write.go:182-227 | an entry that goes through the pipeline is in every buffer, and a dispatch without losses right behind it always completes the follower's log |
| Replication.BatchBuffers | rhosus/registry/cluster/buffer.go:37-58 | of a batch a buffer takes exactly the entries whose term is not below that of its last one, up to the first whose index is not above it, where it reports an error; a sorted buffer stays sorted |
| Replication.BatchAppends | rhosus/registry/cluster/buffer.go:37-58 | the entry of a leader write always joins the buffer: the index check and the term check never fire |
| Replication.DistributeWorks | rhosus/registry/cluster/write.go:36-62 | the pipeline delivers it to every peer and never stops |
| Replication.StepKeeps | rhosus/registry/cluster/write.go:182-279 | writes, dispatches and joins keep every follower a prefix and every buffered entry beyond it |
| Replication.RunsReplicate | rhosus/registry/cluster/cluster.go:370-464 | in every single-leader run with lost requests, lost replies and pipeline timeouts every follower is a prefix of the leader and every write on either side is at the next index |
| Cluster.EntriesBuffer.WriteBatch | rhosus/registry/cluster/buffer.go:37-58 | the loop with its error and skip branches takes exactly those entries of a batch that Replication.BatchBuffers says, and keeps a sorted buffer sorted |
| Cluster.EntriesBuffer.Read | rhosus/registry/cluster/buffer.go:60-70 | hands out the entries and empties the buffer |
| Cluster.WritePipeline | rhosus/registry/cluster/write.go:52-60 | buffers take the entry one after the other up to the first error; later ones are untouched |
| Cluster.ValidateEntriesSequence | rhosus/registry/cluster/write.go:281-294 | accepts exactly strictly increasing indices |
| Cluster.Member.constructor | rhosus/registry/cluster/cluster.go:172-197 | index and term read back from the last stored entry are those it was written with; the tables are in step exactly if they are the replay of what was handled |
| Cluster.Member.WriteEntriesFromLeader | rhosus/registry/cluster/write.go:254-279 | entries applied to the tables, then marshalled and written in order at their indices, which become index and term of the log; refused, and nothing changed, exactly when not increasing |
| Cluster.Member.AppendEntries | rhosus/registry/cluster/server.go:130-183 | when a request is taken, and then its entries are appended and applied; the term after it, never below that of the request, and reply term and index in every case, over the real log and tables |
| Cluster.Member.RequestVote | rhosus/registry/cluster/server.go:64-128 | granted exactly when the term is not lower and not voted in and the candidate is not behind the last entry of the log; term, last vote and reply in every case |
| Cluster.Member.WriteEntry | rhosus/registry/cluster/write.go:182-210 | the leader's entry at the next index and current term, written to the log, whose last index and term it then is |
| Cluster.Member.EntryAt | rhosus/registry/cluster/cluster.go:428-439 | reading and unmarshalling an index of the log gives the entry that was written there |
| Cluster.StartLogRecovering | rhosus/registry/cluster/cluster.go:418-464 | the recovery loop over two real logs does what Replication.Recover says |
| Cluster.Dispatch | rhosus/registry/cluster/cluster.go:387-413 | the dispatch over two real logs does what Replication.Dispatch says |
| ClusterRuns.Group.Write | rhosus/registry/cluster/write.go:182-227 | writeEntry on the leader and the buffers of all peers is the step of Replication and keeps its invariant |
| ClusterRuns.Group.Send | rhosus/registry/cluster/cluster.go:370-464 | so is a dispatch to one peer with its recovery; nobody else is touched |
| ClusterRuns.RunAll | rhosus/registry/cluster/cluster.go:370-464 | every run of writes and dispatches over a leader and its followers as objects, whatever is lost: logs and buffers are what Replication says, every follower a prefix, its tables the replay of it |
| IdxFile.MarshalRoundTrip | rhosus/node/data/idx_file.go:30-45 | a record reads back as its block, and a record of a non-zero id is not all zeros |
| IdxFile.RecordSample | rhosus/node/data/idx_file.go:30-38 | the bytes of a record |
| IdxFile.IdxFile.Load | rhosus/node/data/idx_file.go:75-109 | the loop over the file collects the non-zero records, a later one of an id replacing an earlier |
| IdxFile.IdxFile.Write | rhosus/node/data/idx_file.go:111-129 | exactly the given slots get their records, in any order |
| IdxFile.IdxFile.Erase | rhosus/node/data/idx_file.go:131-148 | exactly the listed slots become zeros |
| Partition.FreeSlotExists | rhosus/node/data/partition.go:221-228 | with fewer blocks than slots some slot is free |
| Partition.StoreInFreeSlot | rhosus/node/data/partition.go:311-323 | writing into a free slot adds one block and changes no other |
| Partition.LoadRebuilds | rhosus/node/data/idx_file.go:75-109 | loading the index gives exactly the block map: ids, sizes, offsets |
| Partition.IndexedAfterWrite | rhosus/node/data/partition.go:240-256 | the index write after a batch keeps the index equal to the block map |
| Partition.RemovalKeepsIndex | rhosus/node/data/partition.go:295-306 | a removal keeps the index equal to the block map if and only if all ids are live and distinct, or no remaining block holds slot 0 |
| Partition.UnknownIdHitsSlotZero | rhosus/node/data/partition.go:295-298 | removing an unknown id from a partition whose one block holds slot 0 leaves a wrong index |
| Partition.MapFits | rhosus/node/data/partition.go:168-172 | there are never more live blocks than slots |
| Partition.CollectedLast | rhosus/node/data/partition.go:56-75 | of several payloads queued for an id the last one counts, and every queued id is there |
| Partition.Partition.constructor | rhosus/node/data/partition.go:135-156 | a partition over existing files stands for the blocks their index describes |
| Partition.Partition.IsBlockAllocated | rhosus/node/data/partition.go:198-205 | true exactly when some block holds the slot |
| Partition.Partition.FirstFree | rhosus/node/data/partition.go:221-228 | the first free slot, slot 0 when there is none |
| Partition.Partition.WriteBlock | rhosus/node/data/partition.go:220-250 | one block in the first free slot; reads give its bytes and those of every other block as before |
| Partition.Partition.WriteBlocks | rhosus/node/data/partition.go:207-264 | the map grows by the batch whatever the iteration order, and the index follows |
| Partition.Partition.RemoveBlocks | rhosus/node/data/partition.go:288-309 | exactly the listed blocks go, for any list; the index stays right exactly under the stated condition |
| Partition.Partition.ReadBlocks | rhosus/node/data/partition.go:325-368 | the stored bytes of each id, nothing for an unknown one |
| Partition.Partition.IsAvailable | rhosus/node/data/partition.go:168-172 | true exactly when not full and enough slots are free; for a non-empty batch false only when they are not |
| Partition.Partition.Flush | rhosus/node/data/partition.go:56-108 | a flush of new ids writes all of them when they fit and otherwise as many as there are free slots, never overrunning |
| PartitionRuns.RunAll | rhosus/node/data/partition.go:198-368 | every run of writes, removals, reads and restarts answers as a map from ids to bytes, and the index loads to the block map |
| ByteQueue.ByteQueue.Resize | rhosus/util/queue/queue.go:74-86 | with an item to keep and room for all, every slice and copy is in range and no item is lost |
| ByteQueue.ByteQueue.Add | rhosus/util/queue/queue.go:91-109 | the item goes to the back; refused when closed |
| ByteQueue.ByteQueue.Remove | rhosus/util/queue/queue.go:179-196 | the oldest item; after it the capacity is initial or more than half used |
| ByteQueue.ByteQueue.Close | rhosus/util/queue/queue.go:113-121 | closed and empty |
| ByteQueue.ByteQueue.CloseRemaining | rhosus/util/queue/queue.go:125-144 | what was left, oldest first |
| ByteQueue.ByteQueue.Size | rhosus/util/queue/queue.go:215-220 | the summed lengths of the items |
| ByteQueue.RunAll | rhosus/util/queue/queue.go:74-220 | every run answers as a first-in first-out sequence, with Size the summed lengths |
| JumpHash.NextProbe | rhosus/util/consistent_index.go:16-17 | the next probe lies strictly beyond the last and fits a signed 64-bit integer |
| JumpHash.PrevNext | rhosus/util/consistent_index.go:16 | the key step loses no key: it is undone by a multiplication with the inverse modulo 2^64 |
| JumpHash.NextPrev | rhosus/util/consistent_index.go:16 | and misses none |
| JumpHash.ProbeBeyond | rhosus/util/consistent_index.go:17 | in exact arithmetic the probe after b lies beyond m exactly when the divisor times m + 1 is at most (b + 1) * 2^31 |
| JumpHash.MovesIff | rhosus/util/consistent_index.go:14-20 | a key that stays on node b of n moves to an added node exactly when its next divisor is among those counted, and stays otherwise |
| JumpHash.MoversCount | rhosus/util/consistent_index.go:14-20 | how many of the 2^31 divisors those are: of the ones that keep a key on b, one in n + 1 up to the rounding of whole numbers |
| JumpHash.KeysOfOne | rhosus/util/consistent_index.go:16-17 | every divisor comes from exactly 2^33 of the 64-bit keys |
| JumpHash.KeysMoving | rhosus/util/consistent_index.go:14-20 | so the same share of the keys moves |
| JumpHash.SampleIndex | rhosus/util/consistent_index.go:14-20 | a key followed through four probes to its node of a hundred |
| JumpHash.IndexInRange | rhosus/util/consistent_index.go:14-20 | the index is one of the nodes |
| JumpHash.GrowingMovesOnlyToNew | rhosus/util/consistent_index.go:14-20 | adding nodes keeps a key or moves it to a new node; from n to n + 1, to node n |
| JumpHash.ShrinkingMovesOnlyLost | rhosus/util/consistent_index.go:14-20 | removing the last nodes moves only the keys that were on them |
| JumpHash.ConsistentIndex | rhosus/util/consistent_index.go:5-21 | the loop ends with the last probe below the node count, by the key step and the probes that the rows above describe; -1 without nodes |
| Paths.ParentOf | rhosus/registry/files.go:36-45 | a split path below the root is its joined parent, a slash and a name, one level deeper |
| Paths.Slashed | rhosus/registry/files.go:35-37 | a path splits into more than one part exactly when it has a slash; without one the path is its name |
| Paths.TrimCuts | rhosus/registry/sys_handlers.go:23 | trimming cuts all slashes off both ends and nothing else |
| Storage.Storage.StoreFile | rhosus/registry/storage/storage_files.go:19-54 | refused exactly when id, path or parent is empty; otherwise the given row, all its fields, is found by id and by path, and every other row as before, but for the path a moved row had |
| Storage.Storage.GetFilesByParentId | rhosus/registry/storage/storage_files.go:88-102 | the rows with that parent, each once, and no others |
| Storage.Storage.PutBlocks | rhosus/registry/storage/storage_files.go:104-115 | all blocks or none, none exactly when an id or a file id is empty; then a lookup finds the last block given for an id, and every other as before |
| Storage.Storage.DeleteBlocks | rhosus/registry/storage/storage_files.go:240-249 | all blocks or none, all exactly when each is stored and none is named twice; then exactly those rows are gone |
| Storage.Storage.GetBlocks | rhosus/registry/storage/storage_files.go:164-183 | the blocks of the file, each once, in ascending order of index |
| Storage.Storage.DeleteFileWithBlocks | rhosus/registry/storage/storage_files.go:185-206 | the file with its path and exactly its blocks, or nothing when it is not stored; every other row is found as before |
| Storage.Storage.DeleteFile | rhosus/registry/storage/storage_files.go:222-238 | the row and its path are gone, every other is found as before; refused exactly when it is not stored |
| Storage.Storage.StorePolicy | rhosus/registry/storage/storage_policy.go:13-45 | refused exactly when id or name is empty; otherwise the given policy, all its rules, is found by id and by name, and every other as before, but for the name a renamed one had |
| Storage.Storage.DeletePolicy | rhosus/registry/storage/storage_policy.go:77-88 | the row and its name are gone, every other is found as before; refused exactly when it is not stored |
| Storage.PutFound | rhosus/registry/storage/storage_files.go:104-115 | what an insert of blocks leaves at every id |
| Storage.DeletedIff | rhosus/registry/storage/storage_files.go:240-249 | when a delete of blocks succeeds, and that it deletes exactly those |
| Storage.DeleteListed | rhosus/registry/storage/storage_files.go:240-249 | deleting distinct stored rows one by one succeeds and deletes exactly them |
| Storage.PolicyDeletedOk | rhosus/registry/storage/storage_policy.go:77-88 | a policy found by name can be deleted, and its name is then free |
| Replay.HandleEntriesFromLeader | rhosus/registry/registry.go:130-217 | the loop over entries is the fold of their effects; what does not unmarshal is skipped |
| Replay.TablesOfMore | rhosus/registry/registry.go:130-217 | replaying more entries later is replaying all at once |
| Subtrees.GoneAll | rhosus/registry/sys_handlers.go:127-156 | visiting the children one by one, each on what the earlier ones left, removes exactly the regular files with children at or below the start |
| Subtrees.OrphanLeft | rhosus/registry/sys_handlers.go:140-153 | whenever that removes anything, a child of a removed file stays behind |
| Subtrees.UnderIff | rhosus/registry/sys_handlers.go:127-156 | to lie at or below a file is to have a chain of parents up to it |
| Registry.PlacedKeepsTree | rhosus/registry/files.go:36-50 | a new file under a stored parent keeps the namespace a tree |
| Registry.DeleteKeepsTree | rhosus/registry/files.go:229-232 | so does deleting a file without children |
| Registry.PrunedTree | rhosus/registry/sys_handlers.go:127-156 | removing the files below a path keeps the namespace a tree if and only if it removes none |
| Registry.RemovalReplays | rhosus/registry/registry.go:147-186 | replaying the two delete entries gives what the leader's one transaction gave |
| Registry.RemovalLogged | rhosus/registry/sys_handlers.go:97-120 | after a logged removal replay gives the leader's tables if and only if the file is gone there |
| Registry.RemovalOutcome | rhosus/registry/sys_handlers.go:77-125 | what each of the outcomes of a removal means for the tree and for replay |
| Registry.DirectoryRemovalDiverges | rhosus/registry/sys_handlers.go:97-111 | for a removed directory it does not |
| Registry.Registry.RegisterFile | rhosus/registry/files.go:24-61 | exists, no parent or empty path, each exactly when; otherwise the given file, with only its parent filled in, is found at its path, every other path answers as before, and the row is logged; tree and replay equality are kept |
| Registry.Registry.HandleMakeDir | rhosus/registry/sys_handlers.go:22-75 | the same for a directory: at the trimmed path, with the last component as name, of type DIR and size 0 |
| Registry.Registry.RegisterBlocks | rhosus/registry/files.go:159-182 | blocks stored, the last given for an id, and logged; replay equality is kept even when the store refuses them |
| Registry.Registry.HandleCreatePolicy | rhosus/registry/sys_handlers.go:158-186 | refused exactly when the name is empty; otherwise the policy found by the name has exactly the given rules, each under that name, every other name answers as before, and it is logged |
| Registry.Registry.HandleGetPolicy | rhosus/registry/sys_handlers.go:188-208 | the rules the policy was created with, nothing exactly when no policy has the name |
| Registry.Registry.HandleDeletePolicy | rhosus/registry/sys_handlers.go:234-254 | the name is free afterwards, in the tables and in the replay; every other name answers as before |
| Registry.Registry.KillChildren | rhosus/registry/sys_handlers.go:127-156 | terminates on path depth without an error and removes exactly the regular files with children at or below the file along parent ids, their path entries and their blocks |
| Registry.Registry.HandleRemoveFileOrPath | rhosus/registry/sys_handlers.go:77-125 | which of four outcomes happens, the exact tables and log after each, that log and tables stay in step exactly for two of them, and exactly when the namespace stays a tree |
| Registry.Registry.WriteLog | rhosus/registry/cluster/write.go:62-180 | a change, encoded, becomes the next entry of the replicated log, and reading the log back gives the changes so far and this one |
| Registry.DoOp | rhosus/registry/sys_handlers.go:22-254 | each operation changes the tables as specified, keeps the tree, and keeps tables, log and group in step |
| ReplicatedRegistry.RunAll | rhosus/registry/registry.go:130-217 | in every run of puts, mkdirs, removals of childless files, policy changes and dispatches with losses: the leader's tables are what the operations make of them, every follower's tables are the replay of its prefix of the log, and those of an up-to-date follower are the leader's |
| ReplicatedRegistry.CatchUp | rhosus/registry/cluster/cluster.go:370-464 | after any such run one dispatch without losses gives a follower the leader's tables if and only if it is not one entry behind with an empty buffer |
| ReplicatedRegistry.RunFromStart | rhosus/registry/registry.go:104-128 | all this for a cluster of empty members, from their creation |
| ReadBack.Step | rhosus/registry/sys_handlers.go:22-254 | what every operation does to every lookup of a file by path, a block by id and a policy by name, with all fields, and that it keeps the tree |
| ReadBack.FoundIff | rhosus/registry/registry.go:130-217 | after every run a lookup finds something exactly when an event put it, or it was there at the start, and no later event replaced it or took it away |
| ReadBack.PutThenFound | rhosus/registry/files.go:24-61 | a file put at a free path and not removed since is found at the end of every run as it was given, with its parent |
| ReadBack.MakeDirThenFound | rhosus/registry/sys_handlers.go:22-75 | so is a directory, with its name, type and size |
| ReadBack.RunAndLookUp | rhosus/registry/registry.go:104-217 | for every run of a new cluster: the leader, and every follower that has the whole log, answer every lookup with exactly what the run put and did not take away |
| Sorting.SortUnique | rhosus/registry/util.go:18-20 | with distinct keys sorting has one answer whatever the input order |
| BlockReads.GroupReads | rhosus/registry/files.go:253-264 | each block is asked for once, at the node of its first placement |
| BlockReads.GroupRemovals | rhosus/registry/files.go:191-203 | per node exactly its placements, in order |
| BlockReads.GroupsPartition | rhosus/registry/files.go:191-227 | the per-node lists together hold every placement once, for every order of nodes |
| BlockReads.FillAndSortBlocks | rhosus/registry/util.go:9-23 | the arrived blocks with their registered indices, in ascending order |
| BlockReads.Reassembled | rhosus/registry/util.go:9-23 | for every arrival order the result is the file: each registered block once, in order, with its bytes |
| BlockReads.GetFile | rhosus/registry/files.go:237-292 | the same for the whole read, over every order of nodes and within replies |
| DataNodes.DataNode.WriteBlocks | rhosus/node/data/data.go:90-128 | blocks go to the sinks of the open partitions in turn, and are reported there |
| DataNodes.DataNode.FlushAll | rhosus/node/data/partition.go:48-108 | with room for all, flushing the sinks in any order adds exactly the queued blocks to their partitions |
| DataNodes.DataNode.GetBlocks | rhosus/node/grpc_server.go:66-82 | the stored bytes of every block asked for; an error exactly when a partition is unknown |
| DataNodes.Upload | rhosus/registry/files.go:95-182 | uploaded and flushed blocks are held where they were placed, and whatever any node held before it still holds |
| DataNodes.ReadFile | rhosus/registry/files.go:237-292 | a file whose blocks the nodes hold is read with its bytes, over every order of nodes |
| DataNodes.PutAndGet | rhosus/registry/files.go:95-292 | blocks uploaded, flushed, registered, listed, fetched and sorted are the blocks that were uploaded |

## Left out

- I/O errors, short writes and fsync: file operations are durable in the order they are issued; crashes, not errors, are modelled. The error of the temp-file write, which the code overwrites, is assumed away. So are panics, the only cause of the corrupt flag.
- Wal.Wal.Write: no further operation on an object that stands for no log is described.
- Wal.Wal.PushCache: the cache holds segment positions, not pointers, so aliasing between cache and segment list is not captured; the replacement policy is any that keeps the key just inserted.
- `WAL.WriteBatch` over a map, `GetEntriesAfter`, the JSON entry format and `Sync`: unordered or unused code, easy members.
- Segments are values of a datatype inside the `Wal` object rather than heap objects; log indices do not wrap at 2^64.
- Byte slices are shorter than 2^48, the address space of a Go process.
- Replication.RunsReplicate: a dispatch with the recovery it may start is one step, as is a leader write; the code holds no lock across them. Newcomers' logs are prefixes of the leader's.
- Cluster.Member.WriteEntriesFromLeader: increasing entries that do not continue the log are a precondition, since the log stands for nothing after such a write (Wal.Wal.Write); Replication.RunsReplicate shows that no single-leader run sends them.
- Cluster.Member.AppendEntries: the same for the entries of an accepted request.
- Cluster.StartLogRecovering: on an entry that does not unmarshal the code reports and goes on; unreachable here, since every stored entry unmarshals.
- Cluster.WritePipeline: batches of more than one entry have no caller and are covered for one buffer only.
- Election safety: the tally is not a majority and candidates do not vote for themselves, so the code does not give it. A restart forgets the last voted term.
- Partition.Partition.WriteBlocks: ids are not live, not all zeros and 36 bytes long, and payloads fit a block; enough free space is required, which Flush establishes.
- Partition.Partition.WriteBlock: the same for one block.
- Partition.Partition.Flush: the same for the queued ids and payloads; the free space is its own business.
- ReplicatedRegistry.RunAll: the codecs of the inner messages are parameters, any pair that reads back what it writes, on payloads below 2^48 bytes; they repeat the pattern of the entry codec. Removals that break the tree or the replay end what is proved of a run; newcomers during a run are covered by Replication.RunsReplicate only.
- ReadBack.RunAndLookUp: the same runs.
- DataNodes.PutAndGet: one upload goes to one node, whose partitions have room and none of the ids; replicas, and the creation of a partition when all are full, are not modelled.
- Partition.Partition.constructor: the length probe of the data file in `loadHeader` and the closed flag of a partition are not modelled.
- Durability of acknowledged blocks: placements are reported before the flush, and overflow blocks are dropped; what is read back is what was flushed with room.
- ByteQueue: the condition variable and `Wait` are not modelled.
- JumpHash.ConsistentIndex: starts from the hashed key, which is a parameter; fewer than 2^32 nodes; the two roundings of float64 are any monotone rounding exact on integers up to 2^53 and on multiples of 2^31 below 2^63.
- JumpHash.ProbeBeyond: the counts are for exact arithmetic; the two roundings of float64 can shift a divisor at the edge of a range.
- Registry.DoOp: the on-disk backend of the tables and errors of the log write are not modelled; entries fit a slice and indices 64 bits.
- Tokens, roles, login, the HTTP API, HandlePutFile with its goroutines and pooled buffers, discovery, gRPC, timers, and node selection for new blocks.
- BlockReads.GetFile: replies are appended atomically, every node answers completely and the registered indices of a file are distinct; removal requests to nodes are built but not sent.
- Internals of the memory database, the backend and the cache library: finite maps and a bounded cache. Unique secondary indexes overwrite, as the library does.
