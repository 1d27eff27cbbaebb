/** Whole runs of the write-ahead log: any series of writes, reads, cache clears, truncations,
    closings and reopenings answers exactly as a plain indexed sequence does, and so it does
    when any of them is cut short, and the loads after it too. */
module WalRuns {
  import opened Framing
  import opened LogDirectory
  import opened Recovery
  import opened CrashSafety
  import opened Wal

  datatype Op =
    | WriteNext(data: Bytes)      // Write at LastIndex + 1
    | ReadAt(index: nat)
    | DropDecoded                 // ClearCache
    | Front(index: nat)
    | Back(index: nat)
    | Shut                        // Close
    | Reopen                      // Create over the same directory

  datatype Answer = Got(result: ReadResult) | Status(err: Error)

  datatype State = State(log: Log, closed: bool)

  predicate Within(log: Log, index: nat)
  {
    index != 0 && log.Last() != 0 && log.first <= index <= log.Last()
  }

  /** The plain indexed sequence; a closed one refuses everything but being opened again. */
  function Step(s: State, op: Op): (State, Answer)
  {
    match op
    case WriteNext(data) =>
      if s.closed then (s, Status(ErrClosed))
      else (s.(log := Log(s.log.first, s.log.entries + [data])), Status(NoError))
    case ReadAt(i) => (s, Got(if s.closed then Failed(ErrClosed) else Lookup(s.log, i)))
    case DropDecoded => (s, Status(if s.closed then ErrClosed else NoError))
    case Front(i) =>
      if s.closed then (s, Status(ErrClosed))
      else if Within(s.log, i) then (s.(log := s.log.DropBefore(i)), Status(NoError))
      else (s, Status(ErrOutOfRange))
    case Back(i) =>
      if s.closed then (s, Status(ErrClosed))
      else if Within(s.log, i) then (s.(log := s.log.KeepThrough(i)), Status(NoError))
      else (s, Status(ErrOutOfRange))
    case Shut => (s.(closed := true), Status(if s.closed then ErrClosed else NoError))
    case Reopen => (s.(closed := false), Status(NoError))
  }

  function Final(s: State, ops: seq<Op>): State
    decreases |ops|
  {
    if ops == [] then s else Final(Step(s, ops[0]).0, ops[1..])
  }

  function Answers(s: State, ops: seq<Op>): seq<Answer>
    decreases |ops|
  {
    if ops == [] then [] else [Step(s, ops[0]).1] + Answers(Step(s, ops[0]).0, ops[1..])
  }

  // ----- segments -----

  /** A log as its segments have it. */
  datatype Layout = Layout(first: nat, chunks: seq<seq<Bytes>>, closed: bool)
  {
    function Plain(): State { State(Log(first, Flatten(chunks)), closed) }
  }

  ghost function LayoutOf(w: Wal): Layout
    reads w
  {
    Layout(w.firstIndex, w.chunks, w.closed)
  }

  /** The segment that holds index i, if there is one. */
  ghost function Place(first: nat, chunks: seq<seq<Bytes>>, i: nat): nat
  {
    if k: nat :| Covers(first, chunks, k, i) then k else 0
  }

  lemma PlaceUnique(first: nat, chunks: seq<seq<Bytes>>, k: nat, i: nat)
    requires Covers(first, chunks, k, i)
    ensures Place(first, chunks, i) == k && first <= i < first + |Flatten(chunks)|
  {
    var p := Place(first, chunks, i);
    FlattenLength(chunks);
    OffsetMonotone(chunks, k + 1, |chunks|);
    if p < k {
      OffsetMonotone(chunks, p + 1, k);
    } else if k < p {
      OffsetMonotone(chunks, k + 1, p);
    }
  }

  lemma {:induction false} PlaceExists(first: nat, chunks: seq<seq<Bytes>>, i: nat, n: nat)
    requires n <= |chunks| && first <= i < first + Offset(chunks, n)
    ensures Covers(first, chunks, Place(first, chunks, i), i)
  {
    if i >= first + Offset(chunks, n - 1) {
      assert Covers(first, chunks, n - 1, i);
    } else {
      PlaceExists(first, chunks, i, n - 1);
    }
  }

  /** What an operation makes of the segments. */
  ghost function After(l: Layout, op: Op, size: nat): Layout
    requires |l.chunks| >= 1 && size >= 1
  {
    var k := if op.Front? || op.Back? then Place(l.first, l.chunks, op.index) else 0;
    match op
    case WriteNext(data) => if l.closed then l else l.(chunks := WriteChunks(l.chunks, data, size))
    case Front(i) =>
      if !l.closed && i > l.first && Covers(l.first, l.chunks, k, i)
      then Layout(i, FrontChunks(l.first, l.chunks, k, i), false) else l
    case Back(i) =>
      if !l.closed && i < l.first + |Flatten(l.chunks)| - 1 && Covers(l.first, l.chunks, k, i)
      then Layout(l.first, BackChunks(l.first, l.chunks, k, i), false) else l
    case Shut => l.(closed := true)
    case Reopen => l.(closed := false)
    case _ => l
  }

  /** On the sequence this is the plain step. */
  lemma AfterStep(l: Layout, op: Op, size: nat)
    requires l.first >= 1 && |l.chunks| >= 1 && size >= 1
    ensures After(l, op, size).Plain() == Step(l.Plain(), op).0
  {
    hide Flatten, WriteChunks;
    match op {
      case WriteNext(data) =>
        RolledEntries(l.chunks, size);
        WrittenEntries(l.chunks, data, size);
      case Front(i) => AfterFront(l, i, size);
      case Back(i) => AfterBack(l, i, size);
      case _ =>
    }
  }

  lemma AfterFront(l: Layout, i: nat, size: nat)
    requires l.first >= 1 && |l.chunks| >= 1 && size >= 1
    ensures After(l, Front(i), size).Plain() == Step(l.Plain(), Front(i)).0
  {
    hide Flatten;
    var k := Place(l.first, l.chunks, i);
    FlattenLength(l.chunks);
    if l.first <= i < l.first + |Flatten(l.chunks)| {
      PlaceExists(l.first, l.chunks, i, |l.chunks|);
      FrontEntries(l.first, l.chunks, k, i);
    } else if Covers(l.first, l.chunks, k, i) {
      PlaceUnique(l.first, l.chunks, k, i);
    }
  }

  lemma AfterBack(l: Layout, i: nat, size: nat)
    requires l.first >= 1 && |l.chunks| >= 1 && size >= 1
    ensures After(l, Back(i), size).Plain() == Step(l.Plain(), Back(i)).0
  {
    hide Flatten;
    var k := Place(l.first, l.chunks, i);
    FlattenLength(l.chunks);
    if l.first <= i < l.first + |Flatten(l.chunks)| {
      PlaceExists(l.first, l.chunks, i, |l.chunks|);
      BackEntries(l.first, l.chunks, k, i);
    } else if Covers(l.first, l.chunks, k, i) {
      PlaceUnique(l.first, l.chunks, k, i);
    }
  }

  // ----- single operations -----

  /** The object is healthy and holds the log in these segments. */
  ghost predicate Laid(w: Wal, l: Layout)
    reads w
  {
    w.Valid() && !w.corrupt && LayoutOf(w) == l
  }

  /** The object stands for s. */
  ghost predicate Now(w: Wal, s: State)
    reads w
  {
    Laid(w, LayoutOf(w)) && LayoutOf(w).Plain() == s
  }

  /** What an object says of its directory. */
  lemma OnDisk(w: Wal, l: Layout)
    requires Laid(w, l)
    ensures w.Valid() && !w.corrupt && w.closed == l.closed && w.firstIndex == l.first && w.chunks == l.chunks
    ensures w.segmentSize >= 1 && |l.chunks| >= 1 && l.first >= 1
    ensures w.Contents() == l.Plain().log && l.Plain().log.Last() == w.lastIndex
    ensures Recoverable(w.disk, l.first, l.chunks) && Holds(w.disk, l.first, l.chunks)
    ensures forall i :: w.InRange(i) <==> Within(l.Plain().log, i)
  {
    w.RangeOfLog();
  }

  method DoWrite(w: Wal, data: Bytes, ghost l: Layout) returns (a: Answer)
    requires Laid(w, l)
    modifies w
    ensures w.segmentSize >= 1 && |l.chunks| >= 1
    ensures Laid(w, After(l, WriteNext(data), w.segmentSize)) && a == Step(l.Plain(), WriteNext(data)).1
  {
    hide Wal.Valid, Wal.Contents, Flatten, WriteChunks, WriteOps, WriteOpsAt;
    OnDisk(w, l);
    var err := w.Write(w.lastIndex + 1, data);
    a := Status(err);
  }

  method DoRead(w: Wal, index: nat, ghost l: Layout) returns (a: Answer)
    requires Laid(w, l)
    modifies w
    ensures Laid(w, l) && a == Step(l.Plain(), ReadAt(index)).1
  {
    hide Wal.Valid, Flatten;
    OnDisk(w, l);
    var x := w.Read(index);
    a := Got(x);
  }

  method DoDrop(w: Wal, ghost l: Layout) returns (a: Answer)
    requires Laid(w, l)
    modifies w
    ensures Laid(w, l) && a == Step(l.Plain(), DropDecoded).1
  {
    var err := w.ClearCache();
    a := Status(err);
  }

  method DoFront(w: Wal, index: nat, ghost l: Layout) returns (a: Answer)
    requires Laid(w, l)
    modifies w
    ensures w.segmentSize >= 1 && |l.chunks| >= 1
    ensures Laid(w, After(l, Front(index), w.segmentSize)) && a == Step(l.Plain(), Front(index)).1
  {
    hide Wal.Valid, Wal.Contents, Flatten, FrontOps, FrontChunks, Covers;
    OnDisk(w, l);
    var err, k := w.TruncateFront(index);
    FrontPlace(l, index, k);
    a := Status(err);
  }

  /** The cut segment is the one that holds the index; without one nothing is cut. */
  lemma FrontPlace(l: Layout, i: nat, k: nat)
    ensures Covers(l.first, l.chunks, k, i) ==> Place(l.first, l.chunks, i) == k
    ensures Covers(l.first, l.chunks, Place(l.first, l.chunks, i), i) ==> l.first <= i <= l.Plain().log.Last()
  {
    if Covers(l.first, l.chunks, k, i) {
      PlaceUnique(l.first, l.chunks, k, i);
    }
    if Covers(l.first, l.chunks, Place(l.first, l.chunks, i), i) {
      PlaceUnique(l.first, l.chunks, Place(l.first, l.chunks, i), i);
    }
  }

  method DoBack(w: Wal, index: nat, ghost l: Layout) returns (a: Answer)
    requires Laid(w, l)
    modifies w
    ensures w.segmentSize >= 1 && |l.chunks| >= 1
    ensures Laid(w, After(l, Back(index), w.segmentSize)) && a == Step(l.Plain(), Back(index)).1
  {
    hide Wal.Valid, Wal.Contents, Flatten, BackOps, BackChunks, Covers;
    OnDisk(w, l);
    var err, k := w.TruncateBack(index);
    FrontPlace(l, index, k);
    a := Status(err);
  }

  method DoShut(w: Wal, ghost l: Layout) returns (a: Answer)
    requires Laid(w, l)
    modifies w
    ensures Laid(w, l.(closed := true)) && a == Step(l.Plain(), Shut).1
  {
    var err := w.Close();
    a := Status(err);
  }

  /** A new log object over a directory. */
  method OpenLog(disk: Disk, segmentSize: int, cacheSize: int, ghost first: nat, ghost chunks: seq<seq<Bytes>>)
    returns (r: Wal, ok: bool, ghost names: seq<FileName>)
    ensures fresh(r) && IsListing(disk, names) && AllRelevant(names) && (ok <==> Recover(disk, names).Opened?)
    ensures segmentSize >= 1 ==> r.segmentSize == segmentSize
    ensures Recoverable(disk, first, chunks) || Empty(disk, first, chunks) ==>
              ok && Laid(r, Layout(first, chunks, false))
  {
    hide Wal.Valid, Wal.Contents, Flatten, Recoverable, Empty, Recover, LoadPlan, Run;
    r := new Wal(disk, segmentSize, cacheSize);
    ok, names := r.Load(first, chunks);
  }

  method DoReopen(w: Wal, ghost l: Layout) returns (r: Wal, a: Answer)
    requires Laid(w, l)
    ensures fresh(r) && r.segmentSize == w.segmentSize
    ensures Laid(r, l.(closed := false)) && a == Step(l.Plain(), Reopen).1
  {
    hide Wal.Valid, Wal.Contents, Flatten, Recoverable, Empty, Recover, Holds;
    OnDisk(w, l);
    var ok;
    ghost var names;
    r, ok, names := OpenLog(w.disk, w.segmentSize, w.cacheSize, l.first, l.chunks);
    a := Status(if ok then NoError else ErrCorrupt);
  }

  method DoOp(w: Wal, op: Op, ghost l: Layout) returns (r: Wal, a: Answer)
    requires Laid(w, l)
    modifies w
    ensures (r == w || fresh(r)) && r.segmentSize == w.segmentSize >= 1 && |l.chunks| >= 1 && l.first >= 1
    ensures Laid(r, After(l, op, w.segmentSize)) && a == Step(l.Plain(), op).1
  {
    hide Wal.Valid, Flatten, Step, Recoverable, Holds;
    OnDisk(w, l);
    r := w;
    match op {
      case WriteNext(data) => a := DoWrite(w, data, l);
      case ReadAt(i) => a := DoRead(w, i, l);
      case DropDecoded => a := DoDrop(w, l);
      case Front(i) => a := DoFront(w, i, l);
      case Back(i) => a := DoBack(w, i, l);
      case Shut => a := DoShut(w, l);
      case Reopen => r, a := DoReopen(w, l);
    }
  }

  // ----- whole runs -----

  /** Where a run stands: after some operations the state is `now`, `rest` is to come. */
  ghost predicate Reached(s: State, ops: seq<Op>, answers: seq<Answer>, now: State, rest: seq<Op>)
  {
    Final(now, rest) == Final(s, ops) && answers + Answers(now, rest) == Answers(s, ops)
  }

  lemma ReachedNext(s: State, ops: seq<Op>, answers: seq<Answer>, now: State, rest: seq<Op>)
    requires rest != [] && Reached(s, ops, answers, now, rest)
    ensures Reached(s, ops, answers + [Step(now, rest[0]).1], Step(now, rest[0]).0, rest[1..])
  {
    var a, later := Step(now, rest[0]).1, Answers(Step(now, rest[0]).0, rest[1..]);
    assert answers + [a] + later == answers + ([a] + later);
  }

  lemma ReachedEnds(s: State, ops: seq<Op>, answers: seq<Answer>, now: State)
    ensures Reached(s, ops, [], s, ops)
    ensures Reached(s, ops, answers, now, []) ==> now == Final(s, ops) && answers == Answers(s, ops)
  {
    assert [] + Answers(s, ops) == Answers(s, ops);
    assert answers + [] == answers;
  }

  /** Refinement over every run. */
  method RunAll(w: Wal, ops: seq<Op>, ghost s: State) returns (r: Wal, answers: seq<Answer>)
    requires Now(w, s)
    modifies w
    ensures Now(r, Final(s, ops)) && answers == Answers(s, ops)
  {
    hide Wal.Valid, Flatten, Step, Final, Answers, After;
    r, answers := w, [];
    ghost var now, l := s, LayoutOf(w);
    var rest := ops;
    ReachedEnds(s, ops, [], s);
    while rest != []
      invariant (r == w || fresh(r)) && Laid(r, l) && l.Plain() == now && Reached(s, ops, answers, now, rest)
      decreases |rest|
    {
      ReachedNext(s, ops, answers, now, rest);
      var a;
      r, a := DoOp(r, rest[0], l);
      AfterStep(l, rest[0], r.segmentSize);
      now, l := Step(now, rest[0]).0, After(l, rest[0], r.segmentSize);
      answers := answers + [a];
      rest := rest[1..];
    }
    ReachedEnds(s, ops, answers, now);
  }

  /** The same from the start of the program: a log created in a directory that holds none. */
  method RunFromCreate(disk: Disk, segmentSize: int, cacheSize: int, ops: seq<Op>)
    returns (r: Wal, answers: seq<Answer>)
    requires forall n :: n in disk ==> !Relevant(n)
    ensures Now(r, Final(State(Log(1, []), false), ops)) && answers == Answers(State(Log(1, []), false), ops)
  {
    FlattenOne([]);
    var w, ok, names := OpenLog(disk, segmentSize, cacheSize, 1, [[]]);
    assert LayoutOf(w) == Layout(1, [[]], false);
    r, answers := RunAll(w, ops, State(Log(1, []), false));
  }

  // ----- crashes -----

  datatype Event =
    | Do(op: Op)
    /** The machine stops after c file operations of op, and when the next one is an append,
        after j of its bytes. Then the log is opened again, where a first load stops after
        cuts[0] of its file operations, a second after cuts[1] of its own, and so on. */
    | Crash(op: Op, c: nat, j: nat, cuts: seq<nat>)

  /** The segments an event leads to; None when the log does not open any more. */
  ghost function Follow(l: Layout, ev: Event, size: nat): Option<Layout>
    requires |l.chunks| >= 1 && size >= 1
  {
    match ev
    case Do(op) => Some(After(l, op, size))
    case Crash(WriteNext(data), c, j, _) =>
      var next := CutChunks(l.chunks, data, size, c, j);
      if l.closed then Some(l.(closed := false))
      else if next.None? then None else Some(Layout(l.first, next.value, false))
    case Crash(op, c, _, _) => if c < 3 then Some(l.(closed := false)) else Some(After(l, op, size).(closed := false))
  }

  /** The one cut a log does not survive: inside the bytes of an entry, which is written after
      the rollover of a tail above the segment size. */
  predicate Torn(l: Layout, ev: Event, size: nat)
    requires |l.chunks| >= 1
  {
    && !l.closed && ev.Crash? && ev.op.WriteNext?
    && ev.c == (if |FrameAll(l.chunks[|l.chunks| - 1])| > size then 1 else 0) && 0 < ev.j < |Frame(ev.op.data)|
  }

  /** What an event may lead to: the sequence before the cut operation or after it. */
  ghost predicate Allowed(s: State, ev: Event, s': State)
  {
    match ev
    case Do(op) => s' == Step(s, op).0
    case Crash(op, _, _, _) => !s'.closed && (s'.log == s.log || s'.log == Step(s, op).0.log)
  }

  /** A log opens after any event but a torn write, and then is as allowed. */
  lemma FollowAllowed(l: Layout, ev: Event, size: nat)
    requires l.first >= 1 && |l.chunks| >= 1 && size >= 1
    ensures Follow(l, ev, size).None? <==> Torn(l, ev, size)
    ensures Follow(l, ev, size).Some? ==> Allowed(l.Plain(), ev, Follow(l, ev, size).value.Plain())
  {
    hide Flatten, WriteChunks, Appended;
    AfterStep(l, ev.op, size);
    if ev.Crash? && ev.op.WriteNext? && CutChunks(l.chunks, ev.op.data, size, ev.c, ev.j).Some? {
      CutEntries(l.chunks, ev.op.data, size, ev.c, ev.j);
    }
  }

  function Least(a: nat, b: nat): nat { if a <= b then a else b }

  /** A load stopped after some of its file operations. */
  method CutLoad(disk: Disk, segmentSize: int, cacheSize: int, cut: nat) returns (left: Disk)
    ensures forall first, chunks :: Recoverable(disk, first, chunks) ==> Recoverable(left, first, chunks)
    ensures Spoilt(disk) ==> left == disk
  {
    hide Wal.Valid, Recoverable, Recover, LoadPlan, Flatten;
    var w := new Wal(disk, segmentSize, cacheSize);
    var ok, names := w.Load(0, []);
    var ops := w.trace;
    assert LoadPlan(names).Plan? ==> ops == LoadPlan(names).ops;
    left := Run(disk, ops[..Least(cut, |ops|)]);
    forall first, chunks | Recoverable(disk, first, chunks) ensures Recoverable(left, first, chunks) {
      RecoverWorks(disk, names, first, chunks);
      assert left == Run(disk, LoadPlan(names).ops[..Least(cut, |ops|)]);
    }
    assert Spoilt(disk) ==> ops == [] && Run(disk, []) == disk;
  }

  /** Loads cut short, then one that is not: it finds the log the directory stands for. */
  method Restart(disk: Disk, segmentSize: nat, cacheSize: nat, cuts: seq<nat>, ghost l: Layout)
    returns (r: Wal, ok: bool)
    requires segmentSize >= 1
    ensures fresh(r) && r.segmentSize == segmentSize
    ensures Recoverable(disk, l.first, l.chunks) ==> ok && Laid(r, l.(closed := false))
    ensures Spoilt(disk) ==> !ok
  {
    hide Wal.Valid, Recoverable, Recover, LoadPlan, Flatten, Empty;
    var left, i := disk, 0;
    while i < |cuts|
      invariant 0 <= i <= |cuts|
      invariant Recoverable(disk, l.first, l.chunks) ==> Recoverable(left, l.first, l.chunks)
      invariant Spoilt(disk) ==> left == disk
    {
      left := CutLoad(left, segmentSize, cacheSize, cuts[i]);
      i := i + 1;
    }
    ghost var names;
    r, ok, names := OpenLog(left, segmentSize, cacheSize, l.first, l.chunks);
  }

  /** The directory after the first c of some file operations. */
  method Stopped(disk: Disk, ops: seq<FsOp>, c: nat, j: nat) returns (left: Disk, cut: nat, part: nat)
    ensures cut == Least(c, |ops|) && left == Crashed(disk, ops, cut, part)
    ensures part == if cut < |ops| && ops[cut].Append? then Least(j, |ops[cut].data|) else 0
  {
    cut := Least(c, |ops|);
    part := if cut < |ops| && ops[cut].Append? then Least(j, |ops[cut].data|) else 0;
    left := Crashed(disk, ops, cut, part);
  }

  lemma NothingDone(d: Disk, j: nat)
    ensures Crashed(d, [], 0, j) == d
  {
    assert Run(d, []) == d;
  }

  lemma Performed(before: seq<FsOp>, ops: seq<FsOp>)
    ensures (before + ops)[|before|..] == ops
  {
  }

  /** A write cut at c and j is one cut at what there is of it. */
  lemma CutAt(d: Disk, l: Layout, data: Bytes, size: nat, c: nat, j: nat, cut: nat, part: nat)
    requires Holds(d, l.first, l.chunks) && size >= 1
    requires var ops := WriteOps(l.first, l.chunks, data, size);
             cut == Least(c, |ops|)
             && part == if cut < |ops| && ops[cut].Append? then Least(j, |ops[cut].data|) else 0
    ensures CutChunks(l.chunks, data, size, cut, part) == CutChunks(l.chunks, data, size, c, j)
    ensures var left := Crashed(d, WriteOps(l.first, l.chunks, data, size), cut, part);
            match CutChunks(l.chunks, data, size, c, j)
            case None => Spoilt(left)
            case Some(next) => Recoverable(left, l.first, next)
  {
    CutSame(l, data, size, c, j, cut, part);
    if CutChunks(l.chunks, data, size, cut, part).None? {
      TornSpoils(d, l.first, l.chunks, data, size, cut, part);
    } else {
      WriteCrashHolds(d, l.first, l.chunks, data, size, cut, part);
    }
  }

  lemma CutSame(l: Layout, data: Bytes, size: nat, c: nat, j: nat, cut: nat, part: nat)
    requires |l.chunks| >= 1 && size >= 1
    requires var ops := WriteOps(l.first, l.chunks, data, size);
             cut == Least(c, |ops|)
             && part == if cut < |ops| && ops[cut].Append? then Least(j, |ops[cut].data|) else 0
    ensures part <= |Frame(data)|
    ensures CutChunks(l.chunks, data, size, cut, part) == CutChunks(l.chunks, data, size, c, j)
  {
    hide FrameAll, Frame;
  }

  /** Write, cut short. */
  method CrashWrite(w: Wal, data: Bytes, c: nat, j: nat, cuts: seq<nat>, ghost l: Layout) returns (r: Wal, ok: bool)
    requires Laid(w, l)
    modifies w
    ensures fresh(r) && r.segmentSize == w.segmentSize >= 1 && |l.chunks| >= 1
    ensures var next := Follow(l, Crash(WriteNext(data), c, j, cuts), w.segmentSize);
            (ok <==> next.Some?) && (ok ==> Laid(r, next.value))
  {
    hide Wal.Valid, Wal.Contents, Flatten, WriteOps, WriteOpsAt, WriteChunks, Holds, Crashed, CutChunks, Recoverable,
         Laid;
    OnDisk(w, l);
    ghost var before := w.trace;
    var disk, n := w.disk, |w.trace|;
    var err := w.Write(w.lastIndex + 1, data);
    var left, cut, part := Stopped(disk, w.trace[n..], c, j);
    ghost var next := l;
    if err == NoError {
      Performed(before, WriteOps(l.first, l.chunks, data, w.segmentSize));
      CutAt(disk, l, data, w.segmentSize, c, j, cut, part);
      if CutChunks(l.chunks, data, w.segmentSize, c, j).Some? {
        next := Layout(l.first, CutChunks(l.chunks, data, w.segmentSize, c, j).value, false);
      }
    } else {
      assert w.trace[n..] == [];
      NothingDone(disk, part);
    }
    r, ok := Restart(left, w.segmentSize, w.cacheSize, cuts, next);
  }

  /** TruncateFront, cut short. */
  method CrashFront(w: Wal, i: nat, c: nat, j: nat, cuts: seq<nat>, ghost l: Layout) returns (r: Wal, ok: bool)
    requires Laid(w, l)
    modifies w
    ensures fresh(r) && r.segmentSize == w.segmentSize >= 1 && |l.chunks| >= 1
    ensures ok && Laid(r, Follow(l, Crash(Front(i), c, j, cuts), w.segmentSize).value)
  {
    hide Wal.Valid, Wal.Contents, Flatten, FrontOps, FrontChunks, Covers, Holds, Crashed, Recoverable, Laid;
    OnDisk(w, l);
    ghost var before := w.trace;
    var disk, n := w.disk, |w.trace|;
    var err, k := w.TruncateFront(i);
    FrontPlace(l, i, k);
    var left, cut, part := Stopped(disk, w.trace[n..], c, j);
    if err == NoError && i > l.first {
      Performed(before, FrontOps(l.first, l.chunks, k, i));
      FrontLong(l.first, l.chunks, k, i);
      FrontCrash(disk, l.first, l.chunks, k, i, cut, part);
    } else {
      assert w.trace[n..] == [];
      NothingDone(disk, part);
    }
    ghost var next := Follow(l, Crash(Front(i), c, j, cuts), w.segmentSize).value;
    r, ok := Restart(left, w.segmentSize, w.cacheSize, cuts, next);
  }

  lemma FrontLong(first: nat, chunks: seq<seq<Bytes>>, k: nat, i: nat)
    requires Covers(first, chunks, k, i)
    ensures |FrontOps(first, chunks, k, i)| > 3 && |BackOps(first, chunks, k, i)| > 3
  {
  }

  /** TruncateBack, cut short. */
  method CrashBack(w: Wal, i: nat, c: nat, j: nat, cuts: seq<nat>, ghost l: Layout) returns (r: Wal, ok: bool)
    requires Laid(w, l)
    modifies w
    ensures fresh(r) && r.segmentSize == w.segmentSize >= 1 && |l.chunks| >= 1
    ensures ok && Laid(r, Follow(l, Crash(Back(i), c, j, cuts), w.segmentSize).value)
  {
    hide Wal.Valid, Wal.Contents, Flatten, BackOps, BackChunks, Covers, Holds, Crashed, Recoverable, Laid;
    OnDisk(w, l);
    ghost var before, last := w.trace, w.lastIndex;
    var disk, n := w.disk, |w.trace|;
    var err, k := w.TruncateBack(i);
    FrontPlace(l, i, k);
    var left, cut, part := Stopped(disk, w.trace[n..], c, j);
    if err == NoError && i < last {
      Performed(before, BackOps(l.first, l.chunks, k, i));
      FrontLong(l.first, l.chunks, k, i);
      BackCrash(disk, l.first, l.chunks, k, i, cut, part);
    } else {
      assert w.trace[n..] == [];
      NothingDone(disk, part);
    }
    ghost var next := Follow(l, Crash(Back(i), c, j, cuts), w.segmentSize).value;
    r, ok := Restart(left, w.segmentSize, w.cacheSize, cuts, next);
  }

  /** The other operations change no file. */
  method CrashIdle(w: Wal, op: Op, c: nat, j: nat, cuts: seq<nat>, ghost l: Layout) returns (r: Wal, ok: bool)
    requires Laid(w, l) && !op.WriteNext? && !op.Front? && !op.Back?
    ensures fresh(r) && r.segmentSize == w.segmentSize >= 1 && |l.chunks| >= 1
    ensures ok && Laid(r, Follow(l, Crash(op, c, j, cuts), w.segmentSize).value)
  {
    hide Wal.Valid, Wal.Contents, Flatten, Holds, Recoverable, Laid;
    OnDisk(w, l);
    r, ok := Restart(w.disk, w.segmentSize, w.cacheSize, cuts, l);
  }

  /** What the caller hears of an event: nothing of one that was cut. */
  function Reply(l: Layout, ev: Event): seq<Answer>
  {
    match ev
    case Do(op) => [Step(l.Plain(), op).1]
    case Crash(_, _, _, _) => []
  }

  method DoEvent(w: Wal, ev: Event, ghost l: Layout) returns (r: Wal, ok: bool, replies: seq<Answer>)
    requires Laid(w, l)
    modifies w
    ensures (r == w || fresh(r)) && r.segmentSize == w.segmentSize >= 1 && |l.chunks| >= 1 && l.first >= 1
    ensures ok <==> Follow(l, ev, w.segmentSize).Some?
    ensures ok ==> Laid(r, Follow(l, ev, w.segmentSize).value) && replies == Reply(l, ev)
  {
    hide Wal.Valid, Flatten, Laid, Step, CutChunks, Holds, Recoverable;
    OnDisk(w, l);
    ok, replies := true, [];
    match ev {
      case Do(op) =>
        var a;
        r, a := DoOp(w, op, l);
        replies := [a];
      case Crash(WriteNext(data), c, j, cuts) => r, ok := CrashWrite(w, data, c, j, cuts, l);
      case Crash(Front(i), c, j, cuts) => r, ok := CrashFront(w, i, c, j, cuts, l);
      case Crash(Back(i), c, j, cuts) => r, ok := CrashBack(w, i, c, j, cuts, l);
      case Crash(op, c, j, cuts) => r, ok := CrashIdle(w, op, c, j, cuts, l);
    }
  }

  /** The segments along a run, each what its event makes of the ones before. */
  ghost predicate Path(path: seq<Layout>, events: seq<Event>, size: nat)
    requires size >= 1
  {
    && |path| == |events| + 1
    && forall i :: 0 <= i < |events| ==>
         |path[i].chunks| >= 1 && path[i].first >= 1 && Follow(path[i], events[i], size) == Some(path[i + 1])
  }

  /** All that was heard on the way. */
  function Heard(path: seq<Layout>, events: seq<Event>): seq<Answer>
    requires |path| > |events|
  {
    if events == [] then [] else
      var n := |events| - 1;
      Heard(path[..|path| - 1], events[..n]) + Reply(path[n], events[n])
  }

  lemma PathNext(path: seq<Layout>, events: seq<Event>, n: nat, size: nat, next: Layout)
    requires size >= 1 && n < |events| && Path(path, events[..n], size)
    requires |path[n].chunks| >= 1 && path[n].first >= 1 && Follow(path[n], events[n], size) == Some(next)
    ensures Path(path + [next], events[..n + 1], size)
    ensures Heard(path + [next], events[..n + 1]) == Heard(path, events[..n]) + Reply(path[n], events[n])
  {
    hide Follow, Reply;
    var longer := path + [next];
    forall i | 0 <= i < n + 1
      ensures |longer[i].chunks| >= 1 && longer[i].first >= 1
      ensures Follow(longer[i], events[..n + 1][i], size) == Some(longer[i + 1])
    {
      if i < n {
        assert Follow(path[i], events[..n][i], size) == Some(path[i + 1]);
      }
    }
    assert longer[..|longer| - 1] == path && events[..n + 1][..n] == events[..n];
  }

  /** Every run with crashes at any point of any operation, and of the loads that follow: what
      is answered is what the plain sequences along the path answer, and the run stops early
      exactly when an entry is torn. */
  method RunWithCrashes(w: Wal, events: seq<Event>, ghost l: Layout)
    returns (r: Wal, n: nat, answers: seq<Answer>, ghost path: seq<Layout>)
    requires Laid(w, l)
    modifies w
    ensures w.segmentSize >= 1 && n <= |events| && Path(path, events[..n], w.segmentSize) && path[0] == l
    ensures answers == Heard(path, events[..n])
    ensures forall i :: 0 <= i < n ==> Allowed(path[i].Plain(), events[i], path[i + 1].Plain())
    ensures forall i :: 0 <= i < n ==> |path[i].chunks| >= 1 && !Torn(path[i], events[i], w.segmentSize)
    ensures n < |events| ==> |path[n].chunks| >= 1 && Torn(path[n], events[n], w.segmentSize)
    ensures n == |events| ==> Laid(r, path[n])
    ensures (r == w || fresh(r)) && r.segmentSize == w.segmentSize
  {
    hide Wal.Valid, Flatten, Laid, Follow, Torn, Allowed, Reply, Heard, Holds, Recoverable;
    OnDisk(w, l);
    r, n, answers, path := w, 0, [], [l];
    HeardNone(path, events);
    while n < |events|
      invariant n <= |events| && Path(path, events[..n], w.segmentSize) && path[0] == l
      invariant answers == Heard(path, events[..n])
      invariant forall i :: 0 <= i < n ==> Allowed(path[i].Plain(), events[i], path[i + 1].Plain())
      invariant forall i :: 0 <= i < n ==> |path[i].chunks| >= 1 && !Torn(path[i], events[i], w.segmentSize)
      invariant (r == w || fresh(r)) && r.segmentSize == w.segmentSize && Laid(r, path[n])
    {
      var q, ok, replies := DoEvent(r, events[n], path[n]);
      FollowAllowed(path[n], events[n], w.segmentSize);
      if !ok {
        return;
      }
      ghost var next := Follow(path[n], events[n], w.segmentSize).value;
      PathNext(path, events, n, w.segmentSize, next);
      r, n, answers, path := q, n + 1, answers + replies, path + [next];
    }
  }

  lemma HeardNone(path: seq<Layout>, events: seq<Event>)
    requires |path| == 1
    ensures Heard(path, events[..0]) == []
  {
  }

  /** ... from the creation of the log. */
  method CrashRunFromCreate(disk: Disk, segmentSize: int, cacheSize: int, events: seq<Event>)
    returns (r: Wal, n: nat, answers: seq<Answer>, ghost path: seq<Layout>)
    requires forall n :: n in disk ==> !Relevant(n)
    ensures fresh(r) && r.segmentSize >= 1 && n <= |events| && Path(path, events[..n], r.segmentSize)
    ensures path[0] == Layout(1, [[]], false) && answers == Heard(path, events[..n])
    ensures n < |events| ==> |path[n].chunks| >= 1 && Torn(path[n], events[n], r.segmentSize)
    ensures n == |events| ==> Laid(r, path[n])
  {
    hide Wal.Valid, Flatten, Laid, Follow, Torn, Heard, Recover, IsListing;
    var w, ok, names := OpenLog(disk, segmentSize, cacheSize, 1, [[]]);
    r, n, answers, path := RunWithCrashes(w, events, Layout(1, [[]], false));
  }
}
