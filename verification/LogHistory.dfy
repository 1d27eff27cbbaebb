/** What the write-ahead log owes its callers, told from the operations alone: which indices it
    has, what a read answers, and how large its segments get, over every run. */
module LogHistory {
  import opened Framing
  import opened LogDirectory
  import opened CrashSafety
  import opened Wal
  import opened WalRuns

  // ----- indices and reads -----

  /** The indices in use are first, ..., next - 1. */
  datatype Window = Window(first: nat, next: nat, closed: bool)
  {
    predicate Has(i: nat) { first <= i < next }
  }

  function Slide(w: Window, op: Op): Window
  {
    match op
    case WriteNext(_) => if w.closed then w else w.(next := w.next + 1)
    case Front(i) => if !w.closed && w.Has(i) then w.(first := i) else w
    case Back(i) => if !w.closed && w.Has(i) then w.(next := i + 1) else w
    case Shut => w.(closed := true)
    case Reopen => w.(closed := false)
    case ReadAt(_) => w
    case DropDecoded => w
  }

  function WindowAfter(ops: seq<Op>): Window
  {
    if ops == [] then Window(1, 1, false) else Slide(WindowAfter(ops[..|ops| - 1]), ops[|ops| - 1])
  }

  /** ... after the first n operations. */
  function WindowAt(ops: seq<Op>, n: nat): Window
    requires n <= |ops|
  {
    WindowAfter(ops[..n])
  }

  /** Operation k wrote the data at index i, and since then the index was always in use. */
  ghost predicate Written(ops: seq<Op>, i: nat, data: Bytes, k: nat)
  {
    && k < |ops| && ops[k] == WriteNext(data)
    && !WindowAt(ops, k).closed && WindowAt(ops, k).next == i && Kept(ops, i, k)
  }

  /** The index was in use after operation k and each one since. */
  ghost predicate Kept(ops: seq<Op>, i: nat, k: nat)
  {
    forall n :: k < n <= |ops| ==> WindowAt(ops, n).Has(i)
  }

  const EMPTY_LOG := State(Log(1, []), false)

  lemma {:induction false} RunSnoc(s: State, ops: seq<Op>, op: Op)
    ensures Final(s, ops + [op]) == Step(Final(s, ops), op).0
    ensures Answers(s, ops + [op]) == Answers(s, ops) + [Step(Final(s, ops), op).1]
    decreases |ops|
  {
    hide Step;
    if ops == [] {
      assert [] + [op] == [op] && [op][1..] == [];
      assert Answers(Step(s, op).0, []) == [];
    } else {
      assert (ops + [op])[1..] == ops[1..] + [op] && (ops + [op])[0] == ops[0];
      RunSnoc(Step(s, ops[0]).0, ops[1..], op);
    }
  }

  /** A state of the plain sequence and the window that goes with it. */
  predicate Framed(s: State, w: Window)
  {
    s.log.first == w.first >= 1 && w.next == w.first + |s.log.entries| && s.closed == w.closed
  }

  lemma SlideStep(s: State, w: Window, op: Op)
    requires Framed(s, w)
    ensures Framed(Step(s, op).0, Slide(w, op))
  {
  }

  predicate EntryIs(s: State, i: nat, data: Bytes)
  {
    s.log.first <= i < s.log.first + |s.log.entries| && s.log.entries[i - s.log.first] == data
  }

  lemma EntryStep(s: State, w: Window, op: Op, i: nat, data: Bytes)
    requires Framed(s, w)
    ensures EntryIs(Step(s, op).0, i, data) <==>
              || (op == WriteNext(data) && !w.closed && i == w.next)
              || (EntryIs(s, i, data) && Slide(w, op).Has(i))
  {
  }

  lemma WindowSnoc(ops: seq<Op>, op: Op, n: nat)
    ensures n <= |ops| ==> WindowAt(ops + [op], n) == WindowAt(ops, n)
    ensures WindowAt(ops, |ops|) == WindowAfter(ops)
    ensures WindowAt(ops + [op], |ops| + 1) == WindowAfter(ops + [op]) == Slide(WindowAfter(ops), op)
  {
    var more := ops + [op];
    assert more[..|ops|] == ops && more[..|ops| + 1] == more && ops[..|ops|] == ops;
    if n <= |ops| {
      assert more[..n] == ops[..n];
    }
  }

  lemma KeptSnoc(ops: seq<Op>, op: Op, i: nat, k: nat)
    requires k <= |ops|
    ensures Kept(ops + [op], i, k) <==> Kept(ops, i, k) && Slide(WindowAfter(ops), op).Has(i)
  {
    hide Slide, WindowAfter, WindowAt;
    var more := ops + [op];
    WindowSnoc(ops, op, 0);
    forall n | k < n <= |ops| ensures WindowAt(more, n) == WindowAt(ops, n) {
      WindowSnoc(ops, op, n);
    }
  }

  lemma WrittenSnoc(ops: seq<Op>, op: Op, i: nat, data: Bytes, k: nat)
    ensures Written(ops + [op], i, data, k) <==>
              || (k == |ops| && op == WriteNext(data) && !WindowAfter(ops).closed && i == WindowAfter(ops).next
                  && Slide(WindowAfter(ops), op).Has(i))
              || (Written(ops, i, data, k) && Slide(WindowAfter(ops), op).Has(i))
  {
    hide Slide, WindowAfter, WindowAt, Kept;
    WindowSnoc(ops, op, k);
    if k <= |ops| {
      KeptSnoc(ops, op, i, k);
      KeptNone(ops, i);
    }
  }

  lemma KeptNone(ops: seq<Op>, i: nat)
    ensures Kept(ops, i, |ops|)
  {
  }

  lemma {:induction false} WindowFrames(ops: seq<Op>)
    ensures Framed(Final(EMPTY_LOG, ops), WindowAfter(ops)) && 1 <= WindowAfter(ops).first <= WindowAfter(ops).next
    decreases |ops|
  {
    hide Step, Slide;
    if ops != [] {
      var n := |ops| - 1;
      assert ops == ops[..n] + [ops[n]];
      WindowFrames(ops[..n]);
      RunSnoc(EMPTY_LOG, ops[..n], ops[n]);
      SlideStep(Final(EMPTY_LOG, ops[..n]), WindowAfter(ops[..n]), ops[n]);
    }
  }

  lemma {:induction false} EntryIff(ops: seq<Op>, i: nat, data: Bytes)
    ensures EntryIs(Final(EMPTY_LOG, ops), i, data) <==> exists k :: Written(ops, i, data, k)
    decreases |ops|
  {
    hide Step, Slide, EntryIs;
    if ops == [] {
      assert !EntryIs(Final(EMPTY_LOG, ops), i, data) by {
        NothingThere(i, data);
      }
    } else {
      var n := |ops| - 1;
      var before, op := ops[..n], ops[n];
      assert ops == before + [op];
      EntryIff(before, i, data);
      WindowFrames(before);
      RunSnoc(EMPTY_LOG, before, op);
      EntryStep(Final(EMPTY_LOG, before), WindowAfter(before), op, i, data);
      WrittenLast(before, op, i, data);
    }
  }

  lemma NothingThere(i: nat, data: Bytes)
    ensures !EntryIs(Final(EMPTY_LOG, []), i, data)
  {
  }

  lemma WrittenLast(ops: seq<Op>, op: Op, i: nat, data: Bytes)
    ensures (exists k :: Written(ops + [op], i, data, k)) <==>
              || (op == WriteNext(data) && !WindowAfter(ops).closed && i == WindowAfter(ops).next)
              || ((exists k :: Written(ops, i, data, k)) && Slide(WindowAfter(ops), op).Has(i))
  {
    hide Written;
    WindowFrames(ops);
    WrittenSnoc(ops, op, i, data, |ops|);
    if k: nat :| Written(ops + [op], i, data, k) {
      WrittenSnoc(ops, op, i, data, k);
    }
    if k: nat :| Written(ops, i, data, k) {
      WrittenSnoc(ops, op, i, data, k);
    }
  }

  /** After every run a read answers with exactly the data last written at the index, provided
      no truncation took the index away since and the log is open. */
  lemma ReadIff(ops: seq<Op>, i: nat, data: Bytes)
    ensures Step(Final(EMPTY_LOG, ops), ReadAt(i)).1 == Got(Data(data)) <==>
              !WindowAfter(ops).closed && exists k :: Written(ops, i, data, k)
  {
    hide Final, WindowAfter, Written;
    WindowFrames(ops);
    EntryIff(ops, i, data);
  }

  /** And all other answers, by the window. */
  lemma AnswerIs(ops: seq<Op>, op: Op)
    ensures var w, a := WindowAfter(ops), Step(Final(EMPTY_LOG, ops), op).1;
            match op
            case WriteNext(_) => a == Status(if w.closed then ErrClosed else NoError)
            case ReadAt(i) =>
              && (w.closed ==> a == Got(Failed(ErrClosed)))
              && (!w.closed ==> (a == Got(Failed(ErrNotFound)) <==> !w.Has(i)))
            case DropDecoded => a == Status(if w.closed then ErrClosed else NoError)
            case Front(i) => a == Status(if w.closed then ErrClosed else if w.Has(i) then NoError else ErrOutOfRange)
            case Back(i) => a == Status(if w.closed then ErrClosed else if w.Has(i) then NoError else ErrOutOfRange)
            case Shut => a == Status(if w.closed then ErrClosed else NoError)
            case Reopen => a == Status(NoError)
  {
    hide Final, WindowAfter;
    WindowFrames(ops);
  }

  /** The same of the log object: any run of a new log, then a read. */
  method ReadAfterRun(disk: Disk, segmentSize: int, cacheSize: int, ops: seq<Op>, i: nat) returns (a: Answer)
    requires forall n :: n in disk ==> !Relevant(n)
    ensures forall data: Bytes ::
              a == Got(Data(data)) <==> !WindowAfter(ops).closed && exists k :: Written(ops, i, data, k)
  {
    hide Final, WindowAfter, Written, Step, Answers, Now;
    var w, answers := RunFromCreate(disk, segmentSize, cacheSize, ops + [ReadAt(i)]);
    RunSnoc(EMPTY_LOG, ops, ReadAt(i));
    a := answers[|answers| - 1];
    forall data: Bytes
      ensures a == Got(Data(data)) <==> !WindowAfter(ops).closed && exists k :: Written(ops, i, data, k)
    {
      ReadIff(ops, i, data);
    }
  }

  // ----- segment sizes -----

  /** No entry was added to a segment already above the size. */
  ghost predicate Capped(chunk: seq<Bytes>, size: nat)
  {
    chunk != [] ==> |FrameAll(chunk[..|chunk| - 1])| <= size
  }

  /** Every segment is capped, and between the first and the tail every one is full. */
  ghost predicate Packed(chunks: seq<seq<Bytes>>, size: nat)
  {
    && (forall k :: 0 <= k < |chunks| ==> Capped(chunks[k], size))
    && (forall k :: 0 < k < |chunks| - 1 ==> |FrameAll(chunks[k])| >= size)
  }

  lemma CappedPrefix(chunk: seq<Bytes>, n: nat, size: nat)
    requires Capped(chunk, size) && n <= |chunk|
    ensures Capped(chunk[..n], size)
  {
    if n > 0 {
      var m := |chunk| - 1;
      FrameAllCut(chunk[..m], n - 1);
      assert chunk[..n][..n - 1] == chunk[..m][..n - 1];
    }
  }

  lemma CappedSuffix(chunk: seq<Bytes>, n: nat, size: nat)
    requires Capped(chunk, size) && n <= |chunk|
    ensures Capped(chunk[n..], size)
  {
    if n < |chunk| {
      var m := |chunk| - 1;
      FrameAllCut(chunk[..m], n);
      assert chunk[n..][..m - n] == chunk[..m][n..];
    }
  }

  lemma PackedCycled(chunks: seq<seq<Bytes>>, size: nat)
    requires |chunks| >= 1 && Packed(chunks, size) && |FrameAll(chunks[|chunks| - 1])| >= size
    ensures Packed(Cycled(chunks), size)
  {
  }

  lemma PackedAppended(chunks: seq<seq<Bytes>>, e: Bytes, size: nat)
    requires |chunks| >= 1 && Packed(chunks, size) && |FrameAll(chunks[|chunks| - 1])| <= size
    ensures Packed(Appended(chunks, e), size)
  {
    var tail := chunks[|chunks| - 1];
    assert (tail + [e])[..|tail|] == tail;
  }

  lemma PackedRolled(chunks: seq<seq<Bytes>>, size: nat)
    requires |chunks| >= 1 && Packed(chunks, size)
    ensures Packed(Rolled(chunks, size), size)
    ensures |Rolled(chunks, size)| >= 1 && |FrameAll(Rolled(chunks, size)[|Rolled(chunks, size)| - 1])| <= size
  {
    if |FrameAll(chunks[|chunks| - 1])| > size {
      PackedCycled(chunks, size);
    }
  }

  lemma PackedWrite(chunks: seq<seq<Bytes>>, e: Bytes, size: nat)
    requires |chunks| >= 1 && size >= 1 && Packed(chunks, size)
    ensures Packed(WriteChunks(chunks, e, size), size) && Packed(Appended(Rolled(chunks, size), e), size)
  {
    hide Packed, FrameAll;
    PackedRolled(chunks, size);
    var longer := Appended(Rolled(chunks, size), e);
    PackedAppended(Rolled(chunks, size), e, size);
    if |FrameAll(longer[|longer| - 1])| > size - 1 {
      PackedCycled(longer, size);
    }
  }

  lemma PackedFront(first: nat, chunks: seq<seq<Bytes>>, k: nat, i: nat, size: nat)
    requires Covers(first, chunks, k, i) && Packed(chunks, size)
    ensures Packed(FrontChunks(first, chunks, k, i), size)
  {
    hide Capped, FrameAll;
    CappedSuffix(chunks[k], i - StartOf(first, chunks, k), size);
  }

  lemma PackedBack(first: nat, chunks: seq<seq<Bytes>>, k: nat, i: nat, size: nat)
    requires Covers(first, chunks, k, i) && Packed(chunks, size)
    ensures Packed(BackChunks(first, chunks, k, i), size)
  {
    hide Capped, FrameAll;
    CappedPrefix(chunks[k], i - StartOf(first, chunks, k) + 1, size);
  }

  lemma PackedAfter(l: Layout, op: Op, size: nat)
    requires |l.chunks| >= 1 && size >= 1 && Packed(l.chunks, size)
    ensures Packed(After(l, op, size).chunks, size)
  {
    hide Packed, WriteChunks, FrontChunks, BackChunks, Flatten, Covers;
    match op {
      case WriteNext(data) => PackedWrite(l.chunks, data, size);
      case Front(i) =>
        var k := Place(l.first, l.chunks, i);
        if Covers(l.first, l.chunks, k, i) {
          PackedFront(l.first, l.chunks, k, i, size);
        }
      case Back(i) =>
        var k := Place(l.first, l.chunks, i);
        if Covers(l.first, l.chunks, k, i) {
          PackedBack(l.first, l.chunks, k, i, size);
        }
      case _ =>
    }
  }

  lemma PackedFollow(l: Layout, ev: Event, size: nat)
    requires |l.chunks| >= 1 && size >= 1 && Packed(l.chunks, size) && Follow(l, ev, size).Some?
    ensures Packed(Follow(l, ev, size).value.chunks, size)
  {
    hide Packed, WriteChunks, After;
    PackedAfter(l, ev.op, size);
    if ev.op.WriteNext? {
      PackedRolled(l.chunks, size);
      PackedWrite(l.chunks, ev.op.data, size);
    }
  }

  /** Along every run, with crashes or without, segments are packed. */
  lemma {:induction false} PathPacked(path: seq<Layout>, events: seq<Event>, size: nat, n: nat)
    requires size >= 1 && Path(path, events, size) && Packed(path[0].chunks, size) && n <= |events|
    ensures Packed(path[n].chunks, size)
    decreases n
  {
    hide Packed, Follow;
    if n > 0 {
      PathPacked(path, events, size, n - 1);
      PackedFollow(path[n - 1], events[n - 1], size);
    }
  }

  /** ... and so are those of a new log at the end of a run. */
  method RunKeepsPacked(disk: Disk, segmentSize: int, cacheSize: int, events: seq<Event>) returns (r: Wal, n: nat)
    requires forall n :: n in disk ==> !Relevant(n)
    ensures n == |events| ==> Packed(r.chunks, r.segmentSize)
  {
    hide Packed, Follow, Laid, Wal.Valid;
    var answers;
    ghost var path;
    r, n, answers, path := CrashRunFromCreate(disk, segmentSize, cacheSize, events);
    if n == |events| {
      assert events[..n] == events;
      NewPacked(r.segmentSize);
      PathPacked(path, events, r.segmentSize, n);
      LaidChunks(r, path[n]);
    }
  }

  lemma NewPacked(size: nat)
    ensures Packed([[]], size)
  {
  }

  lemma LaidChunks(w: Wal, l: Layout)
    requires Laid(w, l)
    ensures w.chunks == l.chunks
  {
  }
}
