/** Crash behaviour of the three operations that change a log directory: a truncation cut
    short anywhere reopens as the old or the new log, an interrupted write as the old log,
    the new log, or - exactly when it tore an entry - as a corrupt one. */
module CrashSafety {
  import opened Varint
  import opened Framing
  import opened LogDirectory
  import opened Recovery

  /** Segment k holds the entry with index i. */
  ghost predicate Covers(first: nat, chunks: seq<seq<Bytes>>, k: nat, i: nat)
  {
    k < |chunks| && StartOf(first, chunks, k) <= i < StartOf(first, chunks, k) + |chunks[k]|
  }

  // ----- scratch file -----

  lemma TempIrrelevant(d: Disk, d': Disk, first: nat, chunks: seq<seq<Bytes>>)
    requires Holds(d, first, chunks) && d' - {Temp} == d - {Temp}
    ensures Holds(d', first, chunks)
  {
    forall n | n != Temp ensures n in d <==> n in d' {
      assert n in d <==> n in d - {Temp};
      assert n in d' <==> n in d' - {Temp};
    }
    forall n | n in d && n != Temp ensures d[n] == d'[n] {
      assert d[n] == (d - {Temp})[n];
      assert d'[n] == (d' - {Temp})[n];
    }
    forall k | 0 <= k < |chunks| ensures SegmentOk(d', first, chunks, k) {
      assert SegmentOk(d, first, chunks, k);
    }
  }

  /** The scratch file is written, then renamed to `mark`: the point of no return. */
  function Prelude(data: seq<byte>, mark: FileName): seq<FsOp>
  {
    [Create(Temp), Append(Temp, data), Rename(Temp, mark)]
  }

  lemma PreludeRuns(d: Disk, data: seq<byte>, mark: FileName)
    requires mark != Temp
    ensures Run(d, Prelude(data, mark)) == (d - {Temp})[mark := data]
    ensures Run(d, Prelude(data, mark)[..0]) == d
    ensures Run(d, Prelude(data, mark)[..1]) == d[Temp := []]
    ensures Run(d, Prelude(data, mark)[..2]) == d[Temp := data]
  {
    var p := Prelude(data, mark);
    assert p[..0] == [];
    assert p[..1] == [] + [Create(Temp)];
    RunSnoc(d, [], Create(Temp));
    assert p[..2] == p[..1] + [Append(Temp, data)];
    RunSnoc(d, p[..1], Append(Temp, data));
    assert [] + data == data;
    assert p == p[..2] + [Rename(Temp, mark)];
    RunSnoc(d, p[..2], Rename(Temp, mark));
    assert d[Temp := data] - {Temp} == d - {Temp};
  }

  /** A crash before the point of no return leaves the old log, whatever the scratch file
      holds by then. */
  lemma PreludeCrash(d: Disk, first: nat, chunks: seq<seq<Bytes>>, ops: seq<FsOp>, data: seq<byte>, mark: FileName,
                     c: nat, j: nat)
    requires Holds(d, first, chunks) && mark != Temp
    requires |ops| >= 3 && ops[..3] == Prelude(data, mark) && c < 3
    ensures Holds(Crashed(d, ops, c, j), first, chunks)
  {
    PreludeRuns(d, data, mark);
    assert ops[..c] == Prelude(data, mark)[..c];
    assert ops[c] == Prelude(data, mark)[c];
    var s := Crashed(d, ops, c, j);
    assert s - {Temp} == d - {Temp};
    TempIrrelevant(d, s, first, chunks);
  }

  lemma CrashAfter(d: Disk, a: seq<FsOp>, b: seq<FsOp>, c: nat, j: nat)
    requires |a| <= c <= |a| + |b|
    requires forall i :: 0 <= i < |b| ==> !b[i].Append?
    ensures Crashed(d, a + b, c, j) == Run(Run(d, a), b[..c - |a|])
  {
    assert (a + b)[..c] == a + b[..c - |a|];
    RunAppend(d, a, b[..c - |a|]);
  }

  // ----- front truncation -----

  function FrontChunks(first: nat, chunks: seq<seq<Bytes>>, k: nat, i: nat): seq<seq<Bytes>>
    requires Covers(first, chunks, k, i)
  {
    [chunks[k][i - StartOf(first, chunks, k)..]] + chunks[k + 1..]
  }

  /** The file operations of truncateFront. */
  function FrontOps(first: nat, chunks: seq<seq<Bytes>>, k: nat, i: nat): seq<FsOp>
    requires Covers(first, chunks, k, i)
  {
    Prelude(FrameAll(FrontChunks(first, chunks, k, i)[0]), Start(i))
    + (Removes(SegNames(first, chunks)[..k + 1]) + [Rename(Start(i), Seg(i))])
  }

  lemma FrontStarts(first: nat, chunks: seq<seq<Bytes>>, k: nat, i: nat)
    requires WellFormed(first, chunks) && Covers(first, chunks, k, i)
    ensures WellFormed(i, FrontChunks(first, chunks, k, i))
    ensures forall m :: 1 <= m < |chunks| - k ==>
              StartOf(i, FrontChunks(first, chunks, k, i), m) == StartOf(first, chunks, k + m)
  {
    var next := FrontChunks(first, chunks, k, i);
    assert forall m :: 1 <= m < |next| ==> next[m] == chunks[k + m];
    forall m | 1 <= m < |chunks| - k ensures StartOf(i, next, m) == StartOf(first, chunks, k + m) {
      FrontStart(first, chunks, k, i, m);
    }
  }

  lemma {:induction false} FrontStart(first: nat, chunks: seq<seq<Bytes>>, k: nat, i: nat, m: nat)
    requires Covers(first, chunks, k, i) && 1 <= m < |chunks| - k
    ensures StartOf(i, FrontChunks(first, chunks, k, i), m) == StartOf(first, chunks, k + m)
    decreases m
  {
    if m == 1 {
      assert Offset(FrontChunks(first, chunks, k, i), 0) == 0;
    } else {
      FrontStart(first, chunks, k, i, m - 1);
    }
  }

  /** The chunks left by a front truncation are the entries from i on. */
  lemma FrontEntries(first: nat, chunks: seq<seq<Bytes>>, k: nat, i: nat)
    requires Covers(first, chunks, k, i)
    ensures Log(i, Flatten(FrontChunks(first, chunks, k, i))) == Log(first, Flatten(chunks)).DropBefore(i)
  {
    var cut := chunks[k][i - StartOf(first, chunks, k)..];
    FlattenAround(chunks, k);
    FlattenAppend([cut], chunks[k + 1..]);
    FlattenOne(cut);
  }

  /** After the rename to START the directory is a front truncation in progress. */
  lemma FrontEntered(d: Disk, first: nat, chunks: seq<seq<Bytes>>, k: nat, i: nat)
    requires Holds(d, first, chunks) && Covers(first, chunks, k, i)
    ensures var next := FrontChunks(first, chunks, k, i);
            FrontForm((d - {Temp})[Start(i) := FrameAll(next[0])], i, next)
  {
    var next := FrontChunks(first, chunks, k, i);
    FrontStarts(first, chunks, k, i);
    var c := (d - {Temp})[Start(i) := FrameAll(next[0])];
    var segs := SegNames(first, chunks);
    forall m | 1 <= m < |next| ensures SegmentOk(c, i, next, m) {
      assert SegmentOk(d, first, chunks, k + m);
    }
    forall n | n in c && Relevant(n)
      ensures n == Start(i) || (n.Seg? && n.index <= i) || n in SegNames(i, next)[1..]
    {
      if n != Start(i) {
        var m :| 0 <= m < |segs| && segs[m] == n;
        if m < k {
          StartsIncrease(first, chunks, m, k);
        } else if m > k {
          assert SegNames(i, next)[1..][m - k - 1] == n;
        }
      }
    }
  }

  lemma FrontLeftovers(d: Disk, first: nat, chunks: seq<seq<Bytes>>, k: nat, i: nat)
    requires Holds(d, first, chunks) && Covers(first, chunks, k, i)
    ensures forall x :: 0 <= x <= k ==> SegNames(first, chunks)[x].index <= i
    ensures forall n :: n in d && n.Seg? && 0 < n.index <= i ==> n in SegNames(first, chunks)[..k + 1]
  {
    var segs := SegNames(first, chunks);
    forall x | 0 <= x <= k ensures segs[x].index <= i {
      if x < k { StartsIncrease(first, chunks, x, k); }
    }
    forall n | n in d && n.Seg? && 0 < n.index <= i ensures n in segs[..k + 1] {
      var m :| 0 <= m < |segs| && segs[m] == n;
      if m > k {
        OffsetMonotone(chunks, k + 1, m);
      }
      assert segs[..k + 1][m] == n;
    }
  }

  /** Every crash of a front truncation. */
  lemma FrontCrash(d: Disk, first: nat, chunks: seq<seq<Bytes>>, k: nat, i: nat, c: nat, j: nat)
    requires Holds(d, first, chunks) && Covers(first, chunks, k, i)
    requires c <= |FrontOps(first, chunks, k, i)|
    ensures c < 3 ==> Recoverable(Crashed(d, FrontOps(first, chunks, k, i), c, j), first, chunks)
    ensures c >= 3 ==> Recoverable(Crashed(d, FrontOps(first, chunks, k, i), c, j), i, FrontChunks(first, chunks, k, i))
  {
    var next := FrontChunks(first, chunks, k, i);
    var data := FrameAll(next[0]);
    var ops := FrontOps(first, chunks, k, i);
    if c < 3 {
      assert ops[..3] == Prelude(data, Start(i));
      PreludeCrash(d, first, chunks, ops, data, Start(i), c, j);
    } else {
      var cleanup := FrontCleanup(d, first, chunks, k, i);
      CrashAfter(d, Prelude(data, Start(i)), cleanup, c, j);
    }
  }

  lemma FrontCleanup(d: Disk, first: nat, chunks: seq<seq<Bytes>>, k: nat, i: nat) returns (cleanup: seq<FsOp>)
    requires Holds(d, first, chunks) && Covers(first, chunks, k, i)
    ensures var next := FrontChunks(first, chunks, k, i);
            var begun := Run(d, Prelude(FrameAll(next[0]), Start(i)));
            && FrontOps(first, chunks, k, i) == Prelude(FrameAll(next[0]), Start(i)) + cleanup
            && (forall x :: 0 <= x < |cleanup| ==> !cleanup[x].Append?)
            && (forall x :: 0 <= x <= |cleanup| ==> Recoverable(Run(begun, cleanup[..x]), i, next))
            && Holds(Run(begun, cleanup), i, next)
  {
    var next := FrontChunks(first, chunks, k, i);
    var begun := Run(d, Prelude(FrameAll(next[0]), Start(i)));
    var left := SegNames(first, chunks)[..k + 1];
    cleanup := Removes(left) + [Rename(Start(i), Seg(i))];
    PreludeRuns(d, FrameAll(next[0]), Start(i));
    FrontEntered(d, first, chunks, k, i);
    FrontLeftovers(d, first, chunks, k, i);
    RemovesHas(left);
    FrontRun(begun, i, next, Removes(left), cleanup);
  }

  /** Uninterrupted, the operations end in the healthy directory of the truncated log. */
  lemma FrontCompletes(d: Disk, first: nat, chunks: seq<seq<Bytes>>, k: nat, i: nat)
    requires Holds(d, first, chunks) && Covers(first, chunks, k, i)
    ensures Holds(Run(d, FrontOps(first, chunks, k, i)), i, FrontChunks(first, chunks, k, i))
  {
    var cleanup := FrontCleanup(d, first, chunks, k, i);
    RunAppend(d, Prelude(FrameAll(FrontChunks(first, chunks, k, i)[0]), Start(i)), cleanup);
  }

  /** Crash atomicity of truncateFront: whatever the step it is cut at, reopening gives the
      untouched log or the truncated one, and the truncated one from the START rename on.
      `ds` starts with the directory the crash left; every later one is left by cutting
      short the cleanup of reopening its predecessor. */
  lemma TruncateFrontAtomic(d: Disk, first: nat, chunks: seq<seq<Bytes>>, k: nat, i: nat, c: nat, j: nat,
                            ds: seq<Disk>, names: seq<FileName>)
    requires Holds(d, first, chunks) && Covers(first, chunks, k, i)
    requires c <= |FrontOps(first, chunks, k, i)|
    requires InterruptedLoads(ds) && ds[0] == Crashed(d, FrontOps(first, chunks, k, i), c, j)
    requires IsListing(ds[|ds| - 1], names)
    ensures AllRelevant(names)
    ensures OpensAs(Recover(ds[|ds| - 1], names),
                    if c < 3 then Log(first, Flatten(chunks)) else Log(first, Flatten(chunks)).DropBefore(i))
  {
    FrontCrash(d, first, chunks, k, i, c, j);
    FrontEntries(first, chunks, k, i);
    if c < 3 {
      InterruptedLoadsAgree(ds, names, first, chunks);
    } else {
      InterruptedLoadsAgree(ds, names, i, FrontChunks(first, chunks, k, i));
    }
  }

  // ----- back truncation -----

  function BackChunks(first: nat, chunks: seq<seq<Bytes>>, k: nat, i: nat): seq<seq<Bytes>>
    requires Covers(first, chunks, k, i)
  {
    chunks[..k] + [chunks[k][..i - StartOf(first, chunks, k) + 1]]
  }

  /** The file operations of truncateBack. */
  function BackOps(first: nat, chunks: seq<seq<Bytes>>, k: nat, i: nat): seq<FsOp>
    requires Covers(first, chunks, k, i)
  {
    var s := StartOf(first, chunks, k);
    Prelude(FrameAll(BackChunks(first, chunks, k, i)[k]), End(s))
    + (Removes(SegNames(first, chunks)[k..]) + [Rename(End(s), Seg(s))])
  }

  lemma BackStarts(first: nat, chunks: seq<seq<Bytes>>, k: nat, i: nat)
    requires WellFormed(first, chunks) && Covers(first, chunks, k, i)
    ensures WellFormed(first, BackChunks(first, chunks, k, i))
    ensures forall m :: 0 <= m <= k ==> StartOf(first, BackChunks(first, chunks, k, i), m) == StartOf(first, chunks, m)
  {
    var cut := chunks[k][..i - StartOf(first, chunks, k) + 1];
    var next := BackChunks(first, chunks, k, i);
    assert chunks == chunks[..k] + chunks[k..];
    forall m | 0 <= m <= k ensures StartOf(first, next, m) == StartOf(first, chunks, m) {
      OffsetSplit(chunks[..k], [cut], m);
      OffsetSplit(chunks[..k], chunks[k..], m);
    }
  }

  /** The chunks left by a back truncation are the entries up to i. */
  lemma BackEntries(first: nat, chunks: seq<seq<Bytes>>, k: nat, i: nat)
    requires Covers(first, chunks, k, i)
    ensures Log(first, Flatten(BackChunks(first, chunks, k, i))) == Log(first, Flatten(chunks)).KeepThrough(i)
  {
    var cut := chunks[k][..i - StartOf(first, chunks, k) + 1];
    FlattenAround(chunks, k);
    FlattenAppend(chunks[..k], [cut]);
    FlattenOne(cut);
  }

  lemma BackEntered(d: Disk, first: nat, chunks: seq<seq<Bytes>>, k: nat, i: nat, s: nat)
    requires Holds(d, first, chunks) && Covers(first, chunks, k, i) && s == StartOf(first, chunks, k)
    ensures var next := BackChunks(first, chunks, k, i);
            BackForm((d - {Temp})[End(s) := FrameAll(next[k])], first, next)
  {
    var next := BackChunks(first, chunks, k, i);
    BackStarts(first, chunks, k, i);
    var c := (d - {Temp})[End(s) := FrameAll(next[k])];
    var segs := SegNames(first, chunks);
    forall m | 0 <= m < k ensures SegmentOk(c, first, next, m) {
      assert SegmentOk(d, first, chunks, m);
    }
    forall n | n in c && Relevant(n)
      ensures n == End(s) || (n.Seg? && n.index >= s) || n in SegNames(first, next)[..k]
    {
      if n != End(s) {
        var m :| 0 <= m < |segs| && segs[m] == n;
        if m < k {
          assert SegNames(first, next)[..k][m] == n;
        } else if m > k {
          StartsIncrease(first, chunks, k, m);
        }
      }
    }
  }

  lemma BackLeftovers(d: Disk, first: nat, chunks: seq<seq<Bytes>>, k: nat, s: nat)
    requires Holds(d, first, chunks) && k < |chunks| && s == StartOf(first, chunks, k)
    ensures forall x :: k <= x < |chunks| ==> SegNames(first, chunks)[x].index >= s
    ensures forall n :: n in d && n.Seg? && n.index > s ==> n in SegNames(first, chunks)[k..]
  {
    var segs := SegNames(first, chunks);
    forall x | k <= x < |chunks| ensures segs[x].index >= s {
      if x > k { StartsIncrease(first, chunks, k, x); }
    }
    forall n | n in d && n.Seg? && n.index > s ensures n in segs[k..] {
      var m :| 0 <= m < |segs| && segs[m] == n;
      if m < k {
        StartsIncrease(first, chunks, m, k);
      }
      assert segs[k..][m - k] == n;
    }
  }

  lemma BackCleanup(d: Disk, first: nat, chunks: seq<seq<Bytes>>, k: nat, i: nat) returns (cleanup: seq<FsOp>)
    requires Holds(d, first, chunks) && Covers(first, chunks, k, i)
    ensures var next := BackChunks(first, chunks, k, i);
            var prelude := Prelude(FrameAll(next[k]), End(StartOf(first, chunks, k)));
            var begun := Run(d, prelude);
            && BackOps(first, chunks, k, i) == prelude + cleanup
            && (forall x :: 0 <= x < |cleanup| ==> !cleanup[x].Append?)
            && (forall x :: 0 <= x <= |cleanup| ==> Recoverable(Run(begun, cleanup[..x]), first, next))
            && Holds(Run(begun, cleanup), first, next)
  {
    var s := StartOf(first, chunks, k);
    var next := BackChunks(first, chunks, k, i);
    var begun := Run(d, Prelude(FrameAll(next[k]), End(s)));
    var left := SegNames(first, chunks)[k..];
    cleanup := Removes(left) + [Rename(End(s), Seg(s))];
    PreludeRuns(d, FrameAll(next[k]), End(s));
    BackEntered(d, first, chunks, k, i, s);
    BackStarts(first, chunks, k, i);
    BackLeftovers(d, first, chunks, k, s);
    RemovesHas(left);
    BackRun(begun, first, next, s, Removes(left), cleanup);
  }

  lemma BackCrash(d: Disk, first: nat, chunks: seq<seq<Bytes>>, k: nat, i: nat, c: nat, j: nat)
    requires Holds(d, first, chunks) && Covers(first, chunks, k, i)
    requires c <= |BackOps(first, chunks, k, i)|
    ensures c < 3 ==> Recoverable(Crashed(d, BackOps(first, chunks, k, i), c, j), first, chunks)
    ensures c >= 3 ==>
              Recoverable(Crashed(d, BackOps(first, chunks, k, i), c, j), first, BackChunks(first, chunks, k, i))
  {
    var data := FrameAll(BackChunks(first, chunks, k, i)[k]);
    var mark := End(StartOf(first, chunks, k));
    var ops := BackOps(first, chunks, k, i);
    if c < 3 {
      assert ops[..3] == Prelude(data, mark);
      PreludeCrash(d, first, chunks, ops, data, mark, c, j);
    } else {
      var cleanup := BackCleanup(d, first, chunks, k, i);
      CrashAfter(d, Prelude(data, mark), cleanup, c, j);
    }
  }

  lemma BackCompletes(d: Disk, first: nat, chunks: seq<seq<Bytes>>, k: nat, i: nat)
    requires Holds(d, first, chunks) && Covers(first, chunks, k, i)
    ensures Holds(Run(d, BackOps(first, chunks, k, i)), first, BackChunks(first, chunks, k, i))
  {
    var cleanup := BackCleanup(d, first, chunks, k, i);
    RunAppend(d, Prelude(FrameAll(BackChunks(first, chunks, k, i)[k]), End(StartOf(first, chunks, k))), cleanup);
  }

  /** Crash atomicity of truncateBack, with END as the point of no return. */
  lemma TruncateBackAtomic(d: Disk, first: nat, chunks: seq<seq<Bytes>>, k: nat, i: nat, c: nat, j: nat,
                           ds: seq<Disk>, names: seq<FileName>)
    requires Holds(d, first, chunks) && Covers(first, chunks, k, i)
    requires c <= |BackOps(first, chunks, k, i)|
    requires InterruptedLoads(ds) && ds[0] == Crashed(d, BackOps(first, chunks, k, i), c, j)
    requires IsListing(ds[|ds| - 1], names)
    ensures AllRelevant(names)
    ensures OpensAs(Recover(ds[|ds| - 1], names),
                    if c < 3 then Log(first, Flatten(chunks)) else Log(first, Flatten(chunks)).KeepThrough(i))
  {
    BackCrash(d, first, chunks, k, i, c, j);
    BackEntries(first, chunks, k, i);
    if c < 3 {
      InterruptedLoadsAgree(ds, names, first, chunks);
    } else {
      InterruptedLoadsAgree(ds, names, first, BackChunks(first, chunks, k, i));
    }
  }

  // ----- writes -----

  function TailName(first: nat, chunks: seq<seq<Bytes>>): FileName
    requires |chunks| >= 1
  {
    Seg(StartOf(first, chunks, |chunks| - 1))
  }

  /** cycle: a new empty tail segment behind a full one. */
  function Cycled(chunks: seq<seq<Bytes>>): seq<seq<Bytes>>
  {
    chunks + [[]]
  }

  function Appended(chunks: seq<seq<Bytes>>, e: Bytes): seq<seq<Bytes>>
    requires |chunks| >= 1
  {
    chunks[..|chunks| - 1] + [chunks[|chunks| - 1] + [e]]
  }

  lemma CycleHolds(d: Disk, first: nat, chunks: seq<seq<Bytes>>)
    requires Holds(d, first, chunks) && chunks[|chunks| - 1] != []
    ensures TailName(first, Cycled(chunks)) == Seg(first + |Flatten(chunks)|)
    ensures Holds(Apply(d, Create(TailName(first, Cycled(chunks)))), first, Cycled(chunks))
    ensures Flatten(Cycled(chunks)) == Flatten(chunks)
  {
    hide Flatten;
    var next := Cycled(chunks);
    var n := TailName(first, next);
    var d' := Apply(d, Create(n));
    FlattenAppend(chunks, [[]]);
    FlattenOne([]);
    FlattenLength(chunks);
    OffsetSplit(chunks, [[]], |chunks|);
    forall k | 0 <= k < |next|
      ensures StartOf(first, next, k) == StartOf(first, chunks, k) && SegmentOk(d', first, next, k)
    {
      OffsetSplit(chunks, [[]], k);
      if k < |chunks| {
        assert SegmentOk(d, first, chunks, k);
        StartsIncrease(first, next, k, |chunks|);
      }
    }
    assert SegNames(first, next) == SegNames(first, chunks) + [n];
  }

  lemma AppendedEntries(chunks: seq<seq<Bytes>>, e: Bytes)
    requires |chunks| >= 1
    ensures Flatten(Appended(chunks, e)) == Flatten(chunks) + [e]
  {
    var m := |chunks| - 1;
    var next := Appended(chunks, e);
    FlattenLast(chunks);
    FlattenLast(next);
    assert next[..m] == chunks[..m] && next[m] == chunks[m] + [e];
    Regrouped(Flatten(chunks[..m]), chunks[m], [e]);
  }

  lemma Regrouped<T>(a: seq<T>, b: seq<T>, c: seq<T>)
    ensures a + (b + c) == a + b + c
  {
  }

  /** A directory whose tail file alone was replaced. */
  lemma TailReplaced(d: Disk, first: nat, chunks: seq<seq<Bytes>>, next: seq<seq<Bytes>>)
    requires Holds(d, first, chunks) && |next| == |chunks|
    requires forall k :: 0 <= k < |chunks| - 1 ==> next[k] == chunks[k]
    ensures SegNames(first, next) == SegNames(first, chunks)
    ensures Holds(d[TailName(first, chunks) := FrameAll(next[|next| - 1])], first, next)
  {
    var m := |chunks| - 1;
    var d' := d[TailName(first, chunks) := FrameAll(next[m])];
    forall k | 0 <= k < |next|
      ensures StartOf(first, next, k) == StartOf(first, chunks, k) && SegmentOk(d', first, next, k)
    {
      OffsetPrefix(next, chunks, k);
      if k < m {
        assert SegmentOk(d, first, chunks, k);
        StartsIncrease(first, chunks, k, m);
      }
    }
    assert TailName(first, chunks) == SegNames(first, chunks)[m];
  }

  lemma AppendHolds(d: Disk, first: nat, chunks: seq<seq<Bytes>>, e: Bytes)
    requires Holds(d, first, chunks)
    ensures Holds(Apply(d, Append(TailName(first, chunks), Frame(e))), first, Appended(chunks, e))
    ensures SegNames(first, Appended(chunks, e)) == SegNames(first, chunks)
  {
    var m := |chunks| - 1;
    assert SegmentOk(d, first, chunks, m);
    FrameAllSnoc(chunks[m], e);
    TailReplaced(d, first, chunks, Appended(chunks, e));
  }

  /** No entry boundary lies strictly inside the last frame. */
  lemma InsideFrame(es: seq<Bytes>, e: Bytes, j: nat, m: nat)
    requires 0 < j < |Frame(e)|
    ensures !Boundary(es + [e], |FrameAll(es)| + j, m)
  {
    FrameAllSnoc(es, e);
    if m <= |es| {
      assert (es + [e])[..m] == es[..m];
      FrameAllCut(es, m);
    } else if m == |es| + 1 {
      assert (es + [e])[..m] == es + [e];
    }
  }

  /** A torn append changes no names: the listing is still that of the segments. */
  lemma TornListing(d: Disk, first: nat, chunks: seq<seq<Bytes>>, torn: seq<byte>, names: seq<FileName>)
    requires Holds(d, first, chunks) && IsListing(Apply(d, Append(TailName(first, chunks), torn)), names)
    ensures AllRelevant(names) && names == SegNames(first, chunks) && LoadPlan(names) == Plan([], names)
  {
    var s := Apply(d, Append(TailName(first, chunks), torn));
    assert SegmentOk(d, first, chunks, |chunks| - 1);
    assert forall n :: n in s <==> n in d;
    ListingOfHolds(d, names, first, chunks);
    PlanOfSegments(names);
  }

  /** Only the tail file decides whether the plan of a plain listing opens. */
  lemma TailDecides(s: Disk, names: seq<FileName>)
    requires AllRelevant(names) && |names| > 0 && LoadPlan(names) == Plan([], names)
    requires names[|names| - 1] in s && Scan(s[names[|names| - 1]], 0) == None
    ensures Recover(s, names) == Corrupted
  {
    assert Run(s, []) == s;
  }

  /** A torn write of an entry makes the log unreadable. */
  lemma TornAppend(d: Disk, first: nat, chunks: seq<seq<Bytes>>, e: Bytes, j: nat, names: seq<FileName>)
    requires Holds(d, first, chunks) && 0 < j < |Frame(e)|
    requires IsListing(Apply(d, Append(TailName(first, chunks), Frame(e)[..j])), names)
    ensures AllRelevant(names) && Recover(Apply(d, Append(TailName(first, chunks), Frame(e)[..j])), names) == Corrupted
  {
    TornListing(d, first, chunks, Frame(e)[..j], names);
    TornFile(d, first, chunks, e, j);
    TailDecides(Apply(d, Append(TailName(first, chunks), Frame(e)[..j])), names);
  }

  lemma TornFile(d: Disk, first: nat, chunks: seq<seq<Bytes>>, e: Bytes, j: nat)
    requires Holds(d, first, chunks) && 0 < j < |Frame(e)|
    ensures SegNames(first, chunks)[|chunks| - 1] == TailName(first, chunks)
    ensures var s := Apply(d, Append(TailName(first, chunks), Frame(e)[..j]));
            TailName(first, chunks) in s && Scan(s[TailName(first, chunks)], 0) == None
  {
    assert SegmentOk(d, first, chunks, |chunks| - 1);
    TornTail(chunks[|chunks| - 1], e, j);
  }

  lemma NoBoundary(es: seq<Bytes>, e: Bytes, at: nat)
    requires |FrameAll(es)| < at < |FrameAll(es)| + |Frame(e)|
    ensures !exists m: nat :: Boundary(es + [e], at, m)
  {
    forall m: nat ensures !Boundary(es + [e], at, m) {
      InsideFrame(es, e, at - |FrameAll(es)|, m);
    }
  }

  lemma TornTail(es: seq<Bytes>, e: Bytes, j: nat)
    requires 0 < j < |Frame(e)|
    ensures Scan(FrameAll(es) + Frame(e)[..j], 0) == None
  {
    hide Scan, FrameAll, Frame, Boundary;
    var at := |FrameAll(es)| + j;
    FrameAllSnoc(es, e);
    assert FrameAll(es + [e])[..at] == FrameAll(es) + Frame(e)[..j];
    NoBoundary(es, e, at);
    ScanPrefix(es + [e], at, 0);
  }

  /** The chunks after rolling over a tail that is larger than `size`. */
  function Rolled(chunks: seq<seq<Bytes>>, size: nat): seq<seq<Bytes>>
    requires |chunks| >= 1
  {
    if |FrameAll(chunks[|chunks| - 1])| > size then Cycled(chunks) else chunks
  }

  function RollOps(first: nat, chunks: seq<seq<Bytes>>, size: nat): seq<FsOp>
    requires |chunks| >= 1
  {
    if |FrameAll(chunks[|chunks| - 1])| > size then [Create(TailName(first, Cycled(chunks)))] else []
  }

  /** writeBatch of one entry: roll over an overfull tail, append, roll over a tail that has
      reached its capacity. */
  function WriteOps(first: nat, chunks: seq<seq<Bytes>>, e: Bytes, size: nat): seq<FsOp>
    requires |chunks| >= 1 && size >= 1
  {
    var rolled := Rolled(chunks, size);
    RollOps(first, chunks, size)
    + ([Append(TailName(first, rolled), Frame(e))] + RollOps(first, Appended(rolled, e), size - 1))
  }

  /** The same at an index the caller chose: only the name of a last new segment depends on
      it. */
  function WriteOpsAt(first: nat, chunks: seq<seq<Bytes>>, e: Bytes, size: nat, index: nat): seq<FsOp>
    requires |chunks| >= 1 && size >= 1
  {
    var rolled := Rolled(chunks, size);
    var full := |FrameAll(Appended(rolled, e)[|rolled| - 1])| > size - 1;
    RollOps(first, chunks, size)
    + ([Append(TailName(first, rolled), Frame(e))] + if full then [Create(Seg(index + 1))] else [])
  }

  function WriteChunks(chunks: seq<seq<Bytes>>, e: Bytes, size: nat): seq<seq<Bytes>>
    requires |chunks| >= 1 && size >= 1
  {
    Rolled(Appended(Rolled(chunks, size), e), size - 1)
  }

  /** At the next index this is the write the crash analysis is about. */
  lemma NextIndexOps(d: Disk, first: nat, chunks: seq<seq<Bytes>>, e: Bytes, size: nat, index: nat)
    requires Holds(d, first, chunks) && size >= 1 && index == first + |Flatten(chunks)|
    ensures WriteOpsAt(first, chunks, e, size, index) == WriteOps(first, chunks, e, size)
  {
    var rolled := Rolled(chunks, size);
    RollHolds(d, first, chunks, size);
    AppendHolds(Run(d, RollOps(first, chunks, size)), first, rolled, e);
    AppendedEntries(rolled, e);
    CycleHolds(Apply(Run(d, RollOps(first, chunks, size)), Append(TailName(first, rolled), Frame(e))),
               first, Appended(rolled, e));
  }

  /** Where the missing check of the index shows on disk: a write at the index before the tail
      segment, with a new segment behind it, creates the tail file again. The directory is
      healthy, and the entries of the tail are lost with the new one. */
  lemma WrongIndexEmptiesTail(d: Disk, first: nat, chunks: seq<seq<Bytes>>, e: Bytes, size: nat, index: nat)
    requires Holds(d, first, chunks) && size >= 1 && Seg(index + 1) == TailName(first, chunks)
    requires |FrameAll(chunks[|chunks| - 1])| <= size
    requires |FrameAll(chunks[|chunks| - 1])| + |Frame(e)| >= size
    ensures Holds(Run(d, WriteOpsAt(first, chunks, e, size, index)), first, chunks[..|chunks| - 1] + [[]])
  {
    hide Run, Apply, WriteOpsAt, Frame, FrameAll;
    var append := Append(TailName(first, chunks), Frame(e));
    var create := Create(Seg(index + 1));
    StepsBeforeTail(first, chunks, e, size, index);
    assert [append] == [] + [append] && [append, create] == [append] + [create];
    RunSnoc(d, [append], create);
    RunSnoc(d, [], append);
    Rewritten(d, TailName(first, chunks), Frame(e));
    EmptiedTail(d, Run(d, [append, create]), first, chunks);
  }

  lemma StepsBeforeTail(first: nat, chunks: seq<seq<Bytes>>, e: Bytes, size: nat, index: nat)
    requires |chunks| >= 1 && size >= 1
    requires |FrameAll(chunks[|chunks| - 1])| <= size
    requires |FrameAll(chunks[|chunks| - 1])| + |Frame(e)| >= size
    ensures WriteOpsAt(first, chunks, e, size, index) ==
            [Append(TailName(first, chunks), Frame(e)), Create(Seg(index + 1))]
  {
    hide Frame, FrameAll;
    FrameAllSnoc(chunks[|chunks| - 1], e);
  }

  lemma Rewritten(d: Disk, n: FileName, data: seq<byte>)
    ensures Apply(Apply(Run(d, []), Append(n, data)), Create(n)) == d[n := []]
  {
  }

  lemma EmptiedTail(d: Disk, d': Disk, first: nat, chunks: seq<seq<Bytes>>)
    requires Holds(d, first, chunks) && d' == d[TailName(first, chunks) := []]
    ensures Holds(d', first, chunks[..|chunks| - 1] + [[]])
  {
    var m := |chunks| - 1;
    var next := chunks[..m] + [[]];
    forall k | 0 <= k <= m
      ensures StartOf(first, next, k) == StartOf(first, chunks, k) && SegmentOk(d', first, next, k)
    {
      OffsetPrefix(next, chunks, k);
      assert SegmentOk(d, first, chunks, k);
      if k < m {
        StartsIncrease(first, chunks, k, m);
      }
    }
    assert SegNames(first, next) == SegNames(first, chunks);
    assert SegmentOk(d, first, chunks, m);
    assert forall k :: 0 <= k < m ==> next[k] == chunks[k];
  }

  /** Two entries at 1 and 2; a write at 1 leaves only the first. */
  lemma WrongIndexLosesEntries()
    ensures var d: Disk := map[Seg(1) := [0], Seg(2) := [0]];
            var d' := Run(d, WriteOpsAt(1, [[[]], [[]]], [], 1, 1));
            Holds(d, 1, [[[]], [[]]]) && Holds(d', 1, [[[]], []])
  {
    hide Run, WriteOpsAt, Holds, FrameAll, Frame, TailName;
    var d: Disk := map[Seg(1) := [0], Seg(2) := [0]];
    var chunks: seq<seq<Bytes>> := [[[]], [[]]];
    OneEmptyEntry();
    TwoEntries(d, chunks);
    WrongIndexEmptiesTail(d, 1, chunks, [], 1, 1);
    assert chunks[..1] + [[]] == [[[]], []];
  }

  lemma TwoEntries(d: Disk, chunks: seq<seq<Bytes>>)
    requires d == map[Seg(1) := [0], Seg(2) := [0]] && chunks == [[[]], [[]]]
    ensures Holds(d, 1, chunks) && TailName(1, chunks) == Seg(2)
  {
    hide FrameAll, Frame;
    OneEmptyEntry();
    assert Offset(chunks, 0) == 0 && Offset(chunks, 1) == 1;
    assert SegmentOk(d, 1, chunks, 0) && SegmentOk(d, 1, chunks, 1);
    assert SegNames(1, chunks) == [Seg(1), Seg(2)];
  }

  lemma OneEmptyEntry()
    ensures Frame([]) == [0] && FrameAll([[]]) == [0]
  {
    var none: Bytes := [];
    assert FrameAll([]) == [];
    assert [none] == [] + [none];
    FrameAllSnoc([], none);
  }

  lemma RollHolds(d: Disk, first: nat, chunks: seq<seq<Bytes>>, size: nat)
    requires Holds(d, first, chunks)
    ensures Holds(Run(d, RollOps(first, chunks, size)), first, Rolled(chunks, size))
    ensures Flatten(Rolled(chunks, size)) == Flatten(chunks)
  {
    if |FrameAll(chunks[|chunks| - 1])| > size {
      assert FrameAll([]) == [];
      CycleHolds(d, first, chunks);
      assert [Create(TailName(first, Cycled(chunks)))] == [] + [Create(TailName(first, Cycled(chunks)))];
      RunSnoc(d, [], Create(TailName(first, Cycled(chunks))));
    }
  }

  lemma WriteCompletes(d: Disk, first: nat, chunks: seq<seq<Bytes>>, e: Bytes, size: nat)
    requires Holds(d, first, chunks) && size >= 1
    ensures Holds(Run(d, WriteOps(first, chunks, e, size)), first, WriteChunks(chunks, e, size))
    ensures Flatten(WriteChunks(chunks, e, size)) == Flatten(chunks) + [e]
  {
    var rolled := Rolled(chunks, size);
    var roll := RollOps(first, chunks, size);
    var append := Append(TailName(first, rolled), Frame(e));
    var last := RollOps(first, Appended(rolled, e), size - 1);
    RollHolds(d, first, chunks, size);
    var d1 := Run(d, roll);
    AppendHolds(d1, first, rolled, e);
    AppendedEntries(rolled, e);
    RollHolds(Apply(d1, append), first, Appended(rolled, e), size - 1);
    RunAppend(d, roll, [append] + last);
    RunAppend(d1, [append], last);
    assert [append] == [] + [append];
    RunSnoc(d1, [], append);
  }

  /** The append cut inside: nothing of it, all of it, or a torn entry. */
  lemma AppendCrash(d: Disk, first: nat, chunks: seq<seq<Bytes>>, e: Bytes, j: nat, names: seq<FileName>)
    requires Holds(d, first, chunks) && j <= |Frame(e)|
    requires IsListing(Apply(d, Append(TailName(first, chunks), Frame(e)[..j])), names)
    ensures AllRelevant(names)
    ensures var o := Recover(Apply(d, Append(TailName(first, chunks), Frame(e)[..j])), names);
            && (0 < j < |Frame(e)| ==> o == Corrupted)
            && (j == 0 ==> OpensAs(o, Log(first, Flatten(chunks))))
            && (j == |Frame(e)| ==> OpensAs(o, Log(first, Flatten(chunks) + [e])))
  {
    if j == 0 {
      AppendNothing(d, first, chunks);
      RecoverHoldsAs(d, names, first, chunks);
    } else if j < |Frame(e)| {
      TornAppend(d, first, chunks, e, j, names);
    } else {
      assert Frame(e)[..j] == Frame(e);
      AppendHolds(d, first, chunks, e);
      AppendedEntries(chunks, e);
      RecoverHoldsAs(Apply(d, Append(TailName(first, chunks), Frame(e))), names, first, Appended(chunks, e));
    }
  }

  lemma AppendNothing(d: Disk, first: nat, chunks: seq<seq<Bytes>>)
    requires Holds(d, first, chunks)
    ensures Apply(d, Append(TailName(first, chunks), [])) == d
  {
    assert SegmentOk(d, first, chunks, |chunks| - 1);
    assert d[TailName(first, chunks)] + [] == d[TailName(first, chunks)];
  }

  /** The segments after a write cut at file operation c, when j bytes of the entry made it if
      that was the append; None when the entry is torn. */
  function CutChunks(chunks: seq<seq<Bytes>>, e: Bytes, size: nat, c: nat, j: nat): Option<seq<seq<Bytes>>>
    requires |chunks| >= 1 && size >= 1
  {
    var rolled := Rolled(chunks, size);
    var at := |rolled| - |chunks|;
    if c < at then Some(chunks)
    else if c == at then
      if j == 0 then Some(rolled) else if j < |Frame(e)| then None else Some(Appended(rolled, e))
    else if c == at + 1 then Some(Appended(rolled, e))
    else Some(WriteChunks(chunks, e, size))
  }

  lemma CutEntries(chunks: seq<seq<Bytes>>, e: Bytes, size: nat, c: nat, j: nat)
    requires |chunks| >= 1 && size >= 1 && CutChunks(chunks, e, size, c, j).Some?
    ensures var next := CutChunks(chunks, e, size, c, j).value;
            Flatten(next) == Flatten(chunks) || Flatten(next) == Flatten(chunks) + [e]
  {
    hide Flatten, WriteChunks;
    RolledEntries(chunks, size);
    WrittenEntries(chunks, e, size);
  }

  /** Unless it was torn, a write cut short leaves a healthy directory with the old log or
      the new one, in exactly these segments. */
  lemma WriteCrashHolds(d: Disk, first: nat, chunks: seq<seq<Bytes>>, e: Bytes, size: nat, c: nat, j: nat)
    requires Holds(d, first, chunks) && size >= 1 && c <= |WriteOps(first, chunks, e, size)| && j <= |Frame(e)|
    requires CutChunks(chunks, e, size, c, j).Some?
    ensures Holds(Crashed(d, WriteOps(first, chunks, e, size), c, j), first, CutChunks(chunks, e, size, c, j).value)
  {
    hide Flatten, FrameAll, Frame, WriteChunks;
    var rolled, roll := Rolled(chunks, size), RollOps(first, chunks, size);
    var ops := WriteOps(first, chunks, e, size);
    RollHolds(d, first, chunks, size);
    if c < |roll| {
      assert ops[..c] == [];
    } else if c == |roll| {
      assert ops[..c] == roll && ops[c] == Append(TailName(first, rolled), Frame(e));
      AppendCut(Run(d, roll), first, rolled, e, j);
    } else {
      WriteCrashAfter(d, first, chunks, e, size, c, j);
    }
  }

  lemma AppendCut(d: Disk, first: nat, chunks: seq<seq<Bytes>>, e: Bytes, j: nat)
    requires Holds(d, first, chunks) && (j == 0 || j == |Frame(e)|)
    ensures Holds(Apply(d, Append(TailName(first, chunks), Frame(e)[..j])), first,
                  if j == 0 then chunks else Appended(chunks, e))
  {
    if j == 0 {
      AppendNothing(d, first, chunks);
    } else {
      assert Frame(e)[..j] == Frame(e);
      AppendHolds(d, first, chunks, e);
    }
  }

  /** A directory that no load opens, and none changes. */
  ghost predicate Spoilt(d: Disk)
  {
    forall names :: IsListing(d, names) ==>
      AllRelevant(names) && LoadPlan(names) == Plan([], names) && Recover(d, names) == Corrupted
  }

  /** ... which is what a torn write leaves. */
  lemma TornSpoils(d: Disk, first: nat, chunks: seq<seq<Bytes>>, e: Bytes, size: nat, c: nat, j: nat)
    requires Holds(d, first, chunks) && size >= 1 && c <= |WriteOps(first, chunks, e, size)|
    requires CutChunks(chunks, e, size, c, j).None?
    ensures Spoilt(Crashed(d, WriteOps(first, chunks, e, size), c, j))
  {
    hide Flatten, FrameAll, Frame, LoadPlan, Recover, IsListing;
    var rolled, roll := Rolled(chunks, size), RollOps(first, chunks, size);
    var ops := WriteOps(first, chunks, e, size);
    RollHolds(d, first, chunks, size);
    assert ops[..c] == roll && ops[c] == Append(TailName(first, rolled), Frame(e));
    var s := Crashed(d, ops, c, j);
    forall names | IsListing(s, names)
      ensures AllRelevant(names) && LoadPlan(names) == Plan([], names) && Recover(s, names) == Corrupted
    {
      TornListing(Run(d, roll), first, rolled, Frame(e)[..j], names);
      TornAppend(Run(d, roll), first, rolled, e, j, names);
    }
  }

  /** A write cut short: reopening finds the old log before the append, the new log after
      it, and reports corruption exactly when the append itself was torn. */
  lemma WriteCrash(d: Disk, first: nat, chunks: seq<seq<Bytes>>, e: Bytes, size: nat, c: nat, j: nat,
                   names: seq<FileName>)
    requires Holds(d, first, chunks) && size >= 1
    requires c <= |WriteOps(first, chunks, e, size)| && j <= |Frame(e)|
    requires IsListing(Crashed(d, WriteOps(first, chunks, e, size), c, j), names)
    ensures AllRelevant(names)
    ensures var at := |RollOps(first, chunks, size)|;
            var o := Recover(Crashed(d, WriteOps(first, chunks, e, size), c, j), names);
            && (o == Corrupted <==> c == at && 0 < j < |Frame(e)|)
            && (c < at || (c == at && j == 0) ==> OpensAs(o, Log(first, Flatten(chunks))))
            && (c > at || (c == at && j == |Frame(e)|) ==> OpensAs(o, Log(first, Flatten(chunks) + [e])))
  {
    var rolled := Rolled(chunks, size);
    var roll := RollOps(first, chunks, size);
    var append := Append(TailName(first, rolled), Frame(e));
    var last := RollOps(first, Appended(rolled, e), size - 1);
    var ops := WriteOps(first, chunks, e, size);
    var s := Crashed(d, ops, c, j);
    RollHolds(d, first, chunks, size);
    if c < |roll| {
      assert ops[..c] == [];
      RecoverHoldsAs(s, names, first, chunks);
    } else if c == |roll| {
      assert ops[..c] == roll && ops[c] == append;
      AppendCrash(Run(d, roll), first, rolled, e, j, names);
    } else {
      WriteCrashAfter(d, first, chunks, e, size, c, j);
      RecoverWritten(s, names, first, chunks, e, size);
    }
  }

  /** Past the append only the final rollover is left to do. */
  lemma WriteCrashAfter(d: Disk, first: nat, chunks: seq<seq<Bytes>>, e: Bytes, size: nat, c: nat, j: nat)
    requires Holds(d, first, chunks) && size >= 1
    requires |chunks| >= 1 && |RollOps(first, chunks, size)| < c <= |WriteOps(first, chunks, e, size)|
    ensures var s := Crashed(d, WriteOps(first, chunks, e, size), c, j);
            Holds(s, first, if c == |RollOps(first, chunks, size)| + 1 then Appended(Rolled(chunks, size), e)
                            else WriteChunks(chunks, e, size))
  {
    hide Flatten, Holds, FrameAll, Frame;
    var rolled := Rolled(chunks, size);
    var roll := RollOps(first, chunks, size);
    var append := Append(TailName(first, rolled), Frame(e));
    var last := RollOps(first, Appended(rolled, e), size - 1);
    var ops := WriteOps(first, chunks, e, size);
    RollHolds(d, first, chunks, size);
    AppendHolds(Run(d, roll), first, rolled, e);
    WriteCompletes(d, first, chunks, e, size);
    if c == |roll| + 1 {
      assert ops[..c] == roll + [append];
      RunSnoc(d, roll, append);
      assert Run(d, ops[..c]) == Apply(Run(d, roll), append);
    } else {
      assert ops[..c] == ops;
    }
  }

  lemma WrittenEntries(chunks: seq<seq<Bytes>>, e: Bytes, size: nat)
    requires |chunks| >= 1 && size >= 1 && Flatten(Rolled(chunks, size)) == Flatten(chunks)
    ensures Flatten(Appended(Rolled(chunks, size), e)) == Flatten(chunks) + [e]
    ensures Flatten(WriteChunks(chunks, e, size)) == Flatten(chunks) + [e]
  {
    hide Flatten, FrameAll;
    var appended, written := Appended(Rolled(chunks, size), e), WriteChunks(chunks, e, size);
    AppendedEntries(Rolled(chunks, size), e);
    RolledEntries(appended, size - 1);
    assert written == Rolled(appended, size - 1);
  }

  lemma RolledEntries(chunks: seq<seq<Bytes>>, size: nat)
    requires |chunks| >= 1
    ensures Flatten(Rolled(chunks, size)) == Flatten(chunks)
  {
    FlattenAppend(chunks, [[]]);
    FlattenOne([]);
  }

  lemma RecoverWritten(s: Disk, names: seq<FileName>, first: nat, chunks: seq<seq<Bytes>>, e: Bytes, size: nat)
    requires |chunks| >= 1 && size >= 1 && IsListing(s, names)
    requires Flatten(Rolled(chunks, size)) == Flatten(chunks)
    requires Holds(s, first, Appended(Rolled(chunks, size), e)) || Holds(s, first, WriteChunks(chunks, e, size))
    ensures AllRelevant(names) && OpensAs(Recover(s, names), Log(first, Flatten(chunks) + [e]))
  {
    hide Flatten, Holds, FrameAll, Recover, IsListing;
    WrittenEntries(chunks, e, size);
    if Holds(s, first, Appended(Rolled(chunks, size), e)) {
      RecoverHoldsAs(s, names, first, Appended(Rolled(chunks, size), e));
    } else {
      RecoverHoldsAs(s, names, first, WriteChunks(chunks, e, size));
    }
  }
}
