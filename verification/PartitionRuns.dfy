/** Whole runs of a partition: any series of writes, removals, reads and restarts answers
    exactly as a plain map from ids to bytes does, and keeps the index file equal to the
    block map. */
module PartitionRuns {
  import opened Varint
  import opened IdxFile
  import opened Partition

  type Contents = map<Id, seq<byte>>

  datatype Op =
    | Write(batch: Contents)
    | Remove(ids: seq<Id>)
    | Read(ids: seq<Id>)
    | Restart                 // a new partition object over the same two files

  /** What callers guarantee: new ids within the free space, removals of live ids. */
  ghost predicate Enabled(count: nat, blockSize: nat, c: Contents, op: Op)
  {
    match op
    case Write(batch) => Fits(count, blockSize, c, batch)
    case Remove(ids) => LiveDistinct(c, ids)
    case Read(_) => true
    case Restart => true
  }

  /** The plain map. */
  function Step(c: Contents, op: Op): Contents
  {
    match op
    case Write(batch) => c + batch
    case Remove(ids) => c - Ids(ids)
    case Read(_) => c
    case Restart => c
  }

  function Answer(c: Contents, op: Op): Contents
  {
    match op
    case Read(ids) => map id | id in Ids(ids) :: Got(c, id)
    case _ => map[]
  }

  function Final(c: Contents, ops: seq<Op>): Contents
    decreases |ops|
  {
    if ops == [] then c else Final(Step(c, ops[0]), ops[1..])
  }

  function Answers(c: Contents, ops: seq<Op>): seq<Contents>
    decreases |ops|
  {
    if ops == [] then [] else [Answer(c, ops[0])] + Answers(Step(c, ops[0]), ops[1..])
  }

  ghost predicate EnabledRun(count: nat, blockSize: nat, c: Contents, ops: seq<Op>)
    decreases |ops|
  {
    ops == [] || (Enabled(count, blockSize, c, ops[0]) && EnabledRun(count, blockSize, Step(c, ops[0]), ops[1..]))
  }

  /** Where a run stands: after some operations the contents are `now`, `rest` is to come. */
  ghost predicate Reached(count: nat, blockSize: nat, c: Contents, ops: seq<Op>, answers: seq<Contents>,
                          now: Contents, rest: seq<Op>)
  {
    && EnabledRun(count, blockSize, now, rest)
    && Final(now, rest) == Final(c, ops)
    && answers + Answers(now, rest) == Answers(c, ops)
  }

  lemma ReachedNext(count: nat, blockSize: nat, c: Contents, ops: seq<Op>, answers: seq<Contents>, now: Contents,
                    rest: seq<Op>)
    requires rest != [] && Reached(count, blockSize, c, ops, answers, now, rest)
    ensures Enabled(count, blockSize, now, rest[0])
    ensures Reached(count, blockSize, c, ops, answers + [Answer(now, rest[0])], Step(now, rest[0]), rest[1..])
  {
    assert answers + [Answer(now, rest[0])] + Answers(Step(now, rest[0]), rest[1..])
        == answers + ([Answer(now, rest[0])] + Answers(Step(now, rest[0]), rest[1..]));
  }

  lemma FitsBoth(count: nat, blockSize: nat, file: seq<byte>, m: Blocks, batch: Contents)
    requires Fits(count, blockSize, Stored(file, blockSize, m), batch)
    ensures Fits(count, blockSize, m, batch)
  {
    assert Stored(file, blockSize, m).Keys == m.Keys;
  }

  lemma LiveBoth(file: seq<byte>, blockSize: nat, m: Blocks, ids: seq<Id>)
    requires LiveDistinct(Stored(file, blockSize, m), ids)
    ensures Harmless(m, ids)
  {
    assert Stored(file, blockSize, m).Keys == m.Keys;
  }

  /** q is a healthy partition of these files that stands for c. */
  ghost predicate Now(q: Partition, count: nat, blockSize: nat, idxFile: IdxFile, c: Contents)
    reads q, q.idxFile
  {
    q.idxFile == idxFile && q.count == count && q.blockSize == blockSize && q.Valid() && q.Contents() == c
  }

  method DoWrite(p: Partition, batch: Contents)
    requires p.Valid() && Fits(p.count, p.blockSize, p.Contents(), batch)
    modifies p, p.idxFile
    ensures Now(p, p.count, p.blockSize, p.idxFile, old(p.Contents()) + batch)
  {
    FitsBoth(p.count, p.blockSize, p.file, p.blocksMap, batch);
    p.WriteBlocks(batch);
  }

  method DoRemove(p: Partition, ids: seq<Id>)
    requires p.Valid() && p.count > 0 && LiveDistinct(p.Contents(), ids)
    modifies p, p.idxFile
    ensures Now(p, p.count, p.blockSize, p.idxFile, old(p.Contents()) - Ids(ids))
  {
    LiveBoth(p.file, p.blockSize, p.blocksMap, ids);
    p.RemoveBlocks(ids);
  }

  method DoRestart(p: Partition) returns (q: Partition)
    requires p.Valid()
    ensures fresh(q) && Now(q, p.count, p.blockSize, p.idxFile, p.Contents())
  {
    assert MapOk(p.count, p.blockSize, p.blocksMap) && Indexed(p.count, p.idxFile.file, p.blocksMap);
    q := new Partition(p.count, p.blockSize, p.file, p.idxFile);
  }

  method DoRead(p: Partition, ids: seq<Id>) returns (answer: Contents)
    requires p.Valid()
    ensures answer == map id | id in Ids(ids) :: Got(p.Contents(), id)
  {
    answer := p.ReadBlocks(ids);
  }

  method DoOp(p: Partition, op: Op) returns (q: Partition, answer: Contents)
    requires p.Valid() && p.count > 0 && Enabled(p.count, p.blockSize, p.Contents(), op)
    modifies p, p.idxFile
    ensures (q == p || fresh(q)) && Now(q, p.count, p.blockSize, p.idxFile, Step(old(p.Contents()), op))
    ensures answer == Answer(old(p.Contents()), op)
  {
    q, answer := p, map[];
    match op {
      case Write(batch) => DoWrite(p, batch);
      case Remove(ids) => DoRemove(p, ids);
      case Read(ids) => answer := DoRead(p, ids);
      case Restart => q := DoRestart(p);
    }
  }

  /** Refinement over every run. */
  method RunAll(p: Partition, ops: seq<Op>) returns (q: Partition, answers: seq<Contents>)
    requires p.Valid() && p.count > 0 && EnabledRun(p.count, p.blockSize, p.Contents(), ops)
    modifies p, p.idxFile
    ensures q.Valid() && q.Contents() == Final(old(p.Contents()), ops)
    ensures answers == Answers(old(p.Contents()), ops)
    ensures Loaded(q.idxFile.file, q.count) == q.blocksMap
  {
    ghost var c, now := p.Contents(), p.Contents();
    q, answers := p, [];
    var rest := ops;
    assert [] + Answers(c, ops) == Answers(c, ops);
    while rest != []
      invariant (q == p || fresh(q)) && Now(q, p.count, p.blockSize, p.idxFile, now)
      invariant Reached(p.count, p.blockSize, c, ops, answers, now, rest)
      decreases |rest|
    {
      ReachedNext(p.count, p.blockSize, c, ops, answers, now, rest);
      var a;
      q, a := DoOp(q, rest[0]);
      now := Step(now, rest[0]);
      answers := answers + [a];
      rest := rest[1..];
    }
    assert answers + [] == answers;
    LoadRebuilds(q.count, q.blockSize, q.idxFile.file, q.blocksMap);
  }
}
