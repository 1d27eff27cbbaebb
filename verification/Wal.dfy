/** The segmented write-ahead log as an object: a list of segments of which only the tail is
    always decoded, a bounded cache of other decoded segments, and the directory. */
module Wal {
  import opened Varint
  import opened Framing
  import opened LogDirectory
  import opened Recovery
  import opened CrashSafety

  datatype Error = NoError | ErrCorrupt | ErrClosed | ErrNotFound | ErrOutOfRange

  datatype ReadResult = Data(data: seq<byte>) | Failed(err: Error)

  /** Reading a plain indexed sequence. */
  function Lookup(log: Log, index: nat): ReadResult
  {
    if index == 0 || index < log.first || index > log.Last() then Failed(ErrNotFound)
    else Data(log.entries[index - log.first])
  }

  const DEFAULT_SEGMENT_SIZE: nat := 10 * 1024 * 1024
  const DEFAULT_CACHE_SIZE: nat := 2

  // ----- what the segments should look like -----

  /** First index, file bytes and entry positions of one segment. */
  datatype View = View(start: nat, bytes: seq<byte>, marks: seq<Position>)
  {
    function End(): nat { start + |marks| }

    ghost predicate Stored(d: Disk)
    {
      Seg(start) in d && d[Seg(start)] == bytes && Scan(bytes, 0) == Some(marks)
    }
  }

  ghost predicate Before(a: View, b: View)
  {
    a.End() <= b.start && a.start < b.start
  }

  /** Contiguous segments, all but the last with entries, each with its file. */
  ghost predicate ViewsOk(d: Disk, views: seq<View>)
  {
    && |views| >= 1 && views[0].start >= 1
    && (forall i, j :: 0 <= i < j < |views| ==>
          Before(views[i], views[j]) && (j == i + 1 ==> views[i].End() == views[j].start))
    && (forall k :: 0 <= k < |views| ==> views[k].Stored(d))
  }

  ghost predicate Reaches(v: View, index: nat)
  {
    v.start <= index < v.End()
  }

  function Views(first: nat, chunks: seq<seq<Bytes>>): (vs: seq<View>)
    ensures |vs| == |chunks|
  {
    seq(|chunks|, k requires 0 <= k < |chunks| =>
      View(StartOf(first, chunks, k), FrameAll(chunks[k]), Positions(chunks[k], 0)))
  }

  lemma HoldsViewsOk(d: Disk, first: nat, chunks: seq<seq<Bytes>>)
    requires Holds(d, first, chunks)
    ensures ViewsOk(d, Views(first, chunks))
    ensures Views(first, chunks)[0].start == first
    ensures Views(first, chunks)[|chunks| - 1].End() == first + |Flatten(chunks)|
    ensures Seg(Views(first, chunks)[|chunks| - 1].start) == TailName(first, chunks)
  {
    var views := Views(first, chunks);
    forall i, j | 0 <= i < j < |views|
      ensures Before(views[i], views[j]) && (j == i + 1 ==> views[i].End() == views[j].start)
    {
      StartsIncrease(first, chunks, i, j);
      OffsetMonotone(chunks, i + 1, j);
    }
    forall k | 0 <= k < |views| ensures views[k].Stored(d) {
      assert SegmentOk(d, first, chunks, k);
      ScanFrames(chunks[k], 0);
    }
    FlattenLength(chunks);
  }

  /** Reading through a view is reading the log. */
  lemma ViewEntry(first: nat, chunks: seq<seq<Bytes>>, k: nat, index: nat)
    requires k < |chunks| && Reaches(Views(first, chunks)[k], index)
    ensures Covers(first, chunks, k, index) && 0 <= index - first < |Flatten(chunks)|
    ensures var v := Views(first, chunks)[k];
            var p := v.marks[index - v.start];
            p.pos <= p.end <= |v.bytes| && Payload(v.bytes[p.pos..p.end]) == Some(Flatten(chunks)[index - first])
  {
    var off := index - StartOf(first, chunks, k);
    ReadBack(chunks[k], off);
    FlattenAt(chunks, k, off);
  }

  /** A healthy directory, the views of its segments, its index range and its tail file. */
  ghost predicate Denotes(d: Disk, first: nat, end: nat, tail: FileName, views: seq<View>, chunks: seq<seq<Bytes>>)
  {
    && Holds(d, first, chunks)
    && views == Views(first, chunks)
    && end == first + |Flatten(chunks)|
    && tail == TailName(first, chunks)
  }

  lemma DenotesIntro(d: Disk, first: nat, end: nat, tail: FileName, views: seq<View>, chunks: seq<seq<Bytes>>)
    requires Holds(d, first, chunks) && views == Views(first, chunks)
    requires end == first + |Flatten(chunks)| && tail == TailName(first, chunks)
    ensures Denotes(d, first, end, tail, views, chunks)
  {
  }

  lemma DenotesCycle(d: Disk, first: nat, end: nat, tail: FileName, views: seq<View>, chunks: seq<seq<Bytes>>)
    requires Denotes(d, first, end, tail, views, chunks) && chunks[|chunks| - 1] != []
    ensures TailName(first, Cycled(chunks)) == Seg(end)
    ensures Flatten(Cycled(chunks)) == Flatten(chunks)
    ensures Denotes(Apply(d, Create(Seg(end))), first, end, Seg(end), views + [View(end, [], [])], Cycled(chunks))
  {
    CycleHoldsAt(d, first, chunks, end);
    CycledViews(first, chunks, end);
    DenotesIntro(Apply(d, Create(Seg(end))), first, end, Seg(end), views + [View(end, [], [])], Cycled(chunks));
  }

  lemma CycleHoldsAt(d: Disk, first: nat, chunks: seq<seq<Bytes>>, end: nat)
    requires Holds(d, first, chunks) && chunks[|chunks| - 1] != [] && end == first + |Flatten(chunks)|
    ensures TailName(first, Cycled(chunks)) == Seg(end)
    ensures Flatten(Cycled(chunks)) == Flatten(chunks)
    ensures Holds(Apply(d, Create(Seg(end))), first, Cycled(chunks))
  {
    CycleHolds(d, first, chunks);
  }

  lemma CycledViews(first: nat, chunks: seq<seq<Bytes>>, end: nat)
    requires end == first + |Flatten(chunks)|
    ensures Views(first, Cycled(chunks)) == Views(first, chunks) + [View(end, [], [])]
  {
    forall k | 0 <= k < |chunks| ensures StartOf(first, Cycled(chunks), k) == StartOf(first, chunks, k) {
      OffsetPrefix(Cycled(chunks), chunks, k);
    }
    OffsetPrefix(Cycled(chunks), chunks, |chunks|);
    FlattenLength(chunks);
    assert FrameAll([]) == [] && Positions([], 0) == [];
  }

  /** The view of a segment with one more entry. */
  function Longer(v: View, e: Bytes): View
  {
    View(v.start, v.bytes + Frame(e), v.marks + [Position(|v.bytes|, |v.bytes| + |Frame(e)|)])
  }

  lemma AppendedViews(first: nat, chunks: seq<seq<Bytes>>, e: Bytes)
    requires |chunks| >= 1
    ensures var views := Views(first, chunks);
            Views(first, Appended(chunks, e)) == views[|views| - 1 := Longer(views[|views| - 1], e)]
  {
    var m := |chunks| - 1;
    forall k | 0 <= k <= m ensures StartOf(first, Appended(chunks, e), k) == StartOf(first, chunks, k) {
      OffsetPrefix(Appended(chunks, e), chunks, k);
    }
    FrameAllSnoc(chunks[m], e);
    PositionsSnoc(chunks[m], e);
  }

  lemma DenotesAppend(d: Disk, first: nat, end: nat, tail: FileName, views: seq<View>, chunks: seq<seq<Bytes>>,
                      e: Bytes)
    requires Denotes(d, first, end, tail, views, chunks)
    ensures Flatten(Appended(chunks, e)) == Flatten(chunks) + [e]
    ensures Denotes(Apply(d, Append(tail, Frame(e))), first, end + 1, tail,
                    views[|views| - 1 := Longer(views[|views| - 1], e)], Appended(chunks, e))
  {
    AppendHolds(d, first, chunks, e);
    AppendedEntries(chunks, e);
    AppendedViews(first, chunks, e);
    OffsetPrefix(Appended(chunks, e), chunks, |chunks| - 1);
    DenotesIntro(Apply(d, Append(tail, Frame(e))), first, end + 1, tail,
                 views[|views| - 1 := Longer(views[|views| - 1], e)], Appended(chunks, e));
  }

  /** Views that stand for a log meet end to end, the last at the end of the log. */
  lemma DenotesMeets(d: Disk, first: nat, end: nat, tail: FileName, views: seq<View>, chunks: seq<seq<Bytes>>)
    requires Denotes(d, first, end, tail, views, chunks)
    ensures |views| >= 1 && views[|views| - 1].End() == end
    ensures |views| >= 2 ==> views[|views| - 2].End() == views[|views| - 1].start
  {
    HoldsViewsOk(d, first, chunks);
  }

  /** Some log makes sense of the segments in memory, the index range, the tail file and the
      directory. */
  ghost predicate Stands(d: Disk, first: nat, end: nat, tail: FileName, segments: seq<Segment>)
  {
    exists views, log :: Denotes(d, first, end, tail, views, log) && Described(segments, views)
  }

  /** Segments that stand for a log end where it does, and a decoded one before the tail where
      the tail begins. */
  lemma SegmentsMeet(d: Disk, first: nat, end: nat, tail: FileName, views: seq<View>, log: seq<seq<Bytes>>,
                     segments: seq<Segment>)
    requires Denotes(d, first, end, tail, views, log) && Described(segments, views)
    ensures segments[|segments| - 1].index + |segments[|segments| - 1].epos| == end
    ensures |segments| >= 2 && segments[|segments| - 2].ebuf != [] ==>
              segments[|segments| - 2].index + |segments[|segments| - 2].epos| == segments[|segments| - 1].index
  {
    DenotesMeets(d, first, end, tail, views, log);
    assert segments[|segments| - 1].Describes(views[|views| - 1]);
    if |segments| >= 2 {
      assert segments[|segments| - 2].Describes(views[|views| - 2]);
    }
  }

  /** Segments that end elsewhere than the next index says stand for no log: the decoded tail,
      or the decoded segment before a new empty tail. */
  lemma OutOfOrder(d: Disk, first: nat, end: nat, tail: FileName, segments: seq<Segment>)
    requires |segments| >= 1
    requires var t := segments[|segments| - 1];
             || t.index + |t.epos| != end
             || (|segments| >= 2 && segments[|segments| - 2].ebuf != [] && t.index == end
                 && segments[|segments| - 2].index + |segments[|segments| - 2].epos| != end)
    ensures !Stands(d, first, end, tail, segments)
  {
    forall views, log ensures !(Denotes(d, first, end, tail, views, log) && Described(segments, views)) {
      if Denotes(d, first, end, tail, views, log) && Described(segments, views) {
        SegmentsMeet(d, first, end, tail, views, log, segments);
      }
    }
  }

  /** The views when a new tail is started behind one larger than `limit`. */
  function RolledViews(views: seq<View>, limit: nat, end: nat): seq<View>
    requires |views| >= 1
  {
    if |views[|views| - 1].bytes| > limit then views + [View(end, [], [])] else views
  }

  function RollSteps(views: seq<View>, limit: nat, end: nat): seq<FsOp>
    requires |views| >= 1
  {
    if |views[|views| - 1].bytes| > limit then [Create(Seg(end))] else []
  }

  function AppendedView(views: seq<View>, e: Bytes): seq<View>
    requires |views| >= 1
  {
    views[|views| - 1 := Longer(views[|views| - 1], e)]
  }

  /** What a write at any index makes of the views. */
  function WrittenViews(views: seq<View>, e: Bytes, size: nat, next: nat, index: nat): seq<View>
    requires |views| >= 1 && size >= 1
  {
    RolledViews(AppendedView(RolledViews(views, size, next), e), size - 1, index + 1)
  }

  /** The file operations of a write at any index, in terms of the log before it. */
  lemma WriteSteps(d: Disk, first: nat, next: nat, tail: FileName, views: seq<View>, chunks: seq<seq<Bytes>>,
                   e: Bytes, size: nat, index: nat)
    requires Denotes(d, first, next, tail, views, chunks) && size >= 1
    ensures |views| >= 1 && |chunks| >= 1
    ensures var rolled := RolledViews(views, size, next);
            var sfile := if |rolled| > |views| then Seg(next) else tail;
            WriteOpsAt(first, chunks, e, size, index) ==
            RollSteps(views, size, next)
            + ([Append(sfile, Frame(e))] + RollSteps(AppendedView(rolled, e), size - 1, index + 1))
    ensures RollOps(first, chunks, size) == RollSteps(views, size, next)
  {
    hide Denotes, Flatten, Frame, Appended;
    RolledMatch(d, first, next, tail, views, chunks, size);
    AppendedViews(first, Rolled(chunks, size), e);
  }

  lemma RolledMatch(d: Disk, first: nat, next: nat, tail: FileName, views: seq<View>, chunks: seq<seq<Bytes>>,
                    size: nat)
    requires Denotes(d, first, next, tail, views, chunks)
    ensures |views| == |chunks| >= 1 && RollOps(first, chunks, size) == RollSteps(views, size, next)
    ensures RolledViews(views, size, next) == Views(first, Rolled(chunks, size))
    ensures TailName(first, Rolled(chunks, size)) ==
            if |RolledViews(views, size, next)| > |views| then Seg(next) else tail
  {
    hide Flatten;
    if |FrameAll(chunks[|chunks| - 1])| > size {
      assert FrameAll([]) == [];
      DenotesCycle(d, first, next, tail, views, chunks);
    }
  }

  /** Position and payload of an entry, as a view has it. */
  ghost predicate Payloads(v: View, index: nat, data: seq<byte>)
  {
    && Reaches(v, index)
    && var p := v.marks[index - v.start];
    && p.pos <= p.end <= |v.bytes| && Payload(v.bytes[p.pos..p.end]) == Some(data)
  }

  lemma ViewEntries(first: nat, chunks: seq<seq<Bytes>>, index: nat)
    requires 0 <= index - first < |Flatten(chunks)|
    ensures forall k :: 0 <= k < |chunks| && Reaches(Views(first, chunks)[k], index) ==>
              Payloads(Views(first, chunks)[k], index, Flatten(chunks)[index - first])
  {
    forall k | 0 <= k < |chunks| && Reaches(Views(first, chunks)[k], index)
      ensures Payloads(Views(first, chunks)[k], index, Flatten(chunks)[index - first])
    {
      ViewEntry(first, chunks, k, index);
    }
  }

  lemma RunThree(d: Disk, a: FsOp, b: FsOp, c: FsOp)
    ensures Run(d, [a, b, c]) == Apply(Apply(Apply(d, a), b), c)
  {
    RunOne(d, a);
    RunSnoc(d, [a], b);
    assert [a] + [b] == [a, b];
    RunSnoc(d, [a, b], c);
    assert [a, b] + [c] == [a, b, c];
  }

  lemma RunOne(d: Disk, op: FsOp)
    ensures Run(d, [op]) == Apply(d, op)
  {
    assert [op] == [] + [op];
    RunSnoc(d, [], op);
  }

  lemma RunAround(d: Disk, a: seq<FsOp>, op: FsOp, b: seq<FsOp>)
    ensures Run(d, a + ([op] + b)) == Run(Apply(Run(d, a), op), b)
  {
    RunAppend(d, a, [op] + b);
    RunAppend(Run(d, a), [op], b);
    RunOne(Run(d, a), op);
  }

  // ----- segments in memory -----

  datatype Segment = Segment(path: FileName, index: nat, ebuf: seq<byte>, epos: seq<Position>)
  {
    function Dropped(): Segment { this.(ebuf := [], epos := []) }

    ghost predicate Loaded(v: View)
    {
      ebuf == v.bytes && epos == v.marks
    }

    /** Stands for the segment `v`, decoded or not. */
    ghost predicate Describes(v: View)
    {
      index == v.start && path == Seg(v.start) && (Loaded(v) || (ebuf == [] && epos == []))
    }
  }

  /** Every segment stands for its view and the tail is decoded. */
  ghost predicate Described(segments: seq<Segment>, views: seq<View>)
  {
    && |segments| == |views| >= 1
    && (forall k {:trigger segments[k]} :: 0 <= k < |segments| ==> segments[k].Describes(views[k]))
    && segments[|segments| - 1].Loaded(views[|views| - 1])
  }

  /** A bounded cache of distinct positions before `limit`. */
  ghost predicate CacheBelow(cache: seq<nat>, capacity: nat, limit: int)
  {
    && |cache| <= capacity
    && (forall c :: 0 <= c < |cache| ==> cache[c] < limit)
    && (forall c, e :: 0 <= c < e < |cache| ==> cache[c] != cache[e])
  }

  /** What is decoded is in the cache, or the tail. */
  ghost predicate DecodedCached(segments: seq<Segment>, cache: seq<nat>)
  {
    forall k {:trigger segments[k]} :: 0 <= k < |segments| - 1 && segments[k].ebuf != [] ==> k in cache
  }

  /** The segments in memory are right, the tail is not in the cache, and no other segment
      stays decoded outside it. */
  ghost predicate Coherent(segments: seq<Segment>, views: seq<View>, cache: seq<nat>, capacity: nat)
  {
    && capacity >= 1
    && Described(segments, views)
    && CacheBelow(cache, capacity, |segments| - 1)
    && DecodedCached(segments, cache)
  }

  /** The positions of the decoded segments. */
  ghost function InMemory(segments: seq<Segment>): set<nat>
  {
    set k: nat | k < |segments| && segments[k].ebuf != []
  }

  /** What the cache is for: however long the log, only so many segments are in memory. */
  lemma BoundedMemory(segments: seq<Segment>, views: seq<View>, cache: seq<nat>, capacity: nat)
    requires Coherent(segments, views, cache, capacity)
    ensures |InMemory(segments)| <= capacity + 1
  {
    CachedBound(cache);
    SubsetBound(InMemory(segments), Members(cache) + {|segments| - 1});
  }

  ghost function Members(cache: seq<nat>): set<nat>
  {
    set c | c in cache
  }

  lemma {:induction false} CachedBound(cache: seq<nat>)
    ensures |Members(cache)| <= |cache|
  {
    if cache == [] {
      assert Members(cache) == {};
    } else {
      CachedBound(cache[1..]);
      assert cache == [cache[0]] + cache[1..];
      assert Members(cache) == Members(cache[1..]) + {cache[0]};
    }
  }

  lemma SubsetBound(a: set<nat>, b: set<nat>)
    requires a <= b
    ensures |a| <= |b|
  {
    assert b == a + (b - a);
  }

  /** The cache entries under other keys. */
  function Without(cache: seq<nat>, key: nat): (r: seq<nat>)
    ensures |r| <= |cache|
    ensures forall x :: x in r <==> x in cache && x != key
    ensures forall capacity, limit :: CacheBelow(cache, capacity, limit) ==> CacheBelow(r, capacity, limit)
  {
    if cache == [] then []
    else if cache[0] == key then
      WithoutTail(cache);
      Without(cache[1..], key)
    else
      WithoutTail(cache);
      var rest := Without(cache[1..], key);
      assert forall c :: 0 <= c < |rest| ==> rest[c] in rest;
      [cache[0]] + rest
  }

  lemma WithoutTail(cache: seq<nat>)
    requires cache != []
    ensures forall capacity, limit :: CacheBelow(cache, capacity, limit) ==>
              CacheBelow(cache[1..], capacity, limit) && cache[0] !in cache[1..] && |cache[1..]| < capacity
  {
  }

  /** tinylru's SetEvicted, for any choice of what to evict except the key just set. */
  method SetEvicted(cache: seq<nat>, capacity: nat, key: nat, ghost limit: nat)
    returns (r: seq<nat>, evicted: Option<nat>)
    requires 1 <= capacity && CacheBelow(cache, capacity, limit)
    ensures |r| >= 1 && r[0] == key
    ensures CacheBelow(r, capacity, if key < limit then limit else key + 1)
    ensures evicted.Some? ==> evicted.value in cache && evicted.value != key && evicted.value !in r
    ensures forall x :: x in cache && x != key ==> x in r || evicted == Some(x)
  {
    var others := Without(cache, key);
    assert CacheBelow(others, capacity, limit);
    assert key !in others;
    evicted := None;
    if |others| + 1 > capacity {
      var v :| 0 <= v < |others|;
      evicted := Some(others[v]);
      assert others[v] in others;
      others := others[..v] + others[v + 1..];
    }
    r := [key] + others;
  }

  lemma CoherentAppend(segments: seq<Segment>, views: seq<View>, cache: seq<nat>, capacity: nat, e: Bytes)
    requires Coherent(segments, views, cache, capacity)
    ensures var m := |segments| - 1;
            var v := Longer(views[m], e);
            Coherent(segments[m := segments[m].(ebuf := v.bytes, epos := v.marks)], views[m := v], cache, capacity)
            && segments[m].ebuf == views[m].bytes && segments[m].epos == views[m].marks
  {
    var m := |segments| - 1;
    assert segments[m].Describes(views[m]);
    var v := Longer(views[m], e);
    var now := segments[m := segments[m].(ebuf := v.bytes, epos := v.marks)];
    forall k | 0 <= k < |now| ensures now[k].Describes(views[m := v][k]) {
      assert segments[k].Describes(views[k]);
    }
  }

  /** A segment decoded and put in the cache, and what left the cache dropped. */
  /** The tail goes to the cache and a new tail takes its place. */
  lemma CoherentCycle(was: seq<Segment>, views: seq<View>, cache: seq<nat>, capacity: nat, evicted: Option<nat>,
                      now: seq<Segment>, cache': seq<nat>, s: Segment, v: View)
    requires Coherent(was, views, cache, capacity) && CacheBelow(cache', capacity, |was|) && |was| - 1 in cache'
    requires forall c :: c in cache ==> c in cache' || evicted == Some(c)
    requires evicted.Some? ==> evicted.value < |was| - 1 && evicted.value !in cache'
    requires now == if evicted.Some? then was[evicted.value := was[evicted.value].Dropped()] else was
    requires s.Describes(v) && s.Loaded(v)
    ensures Coherent(now + [s], views + [v], cache', capacity)
  {
    var next := now + [s];
    forall k | 0 <= k < |next| ensures next[k].Describes((views + [v])[k]) {
      if k < |was| {
        assert was[k].Describes(views[k]);
      }
    }
    forall k | 0 <= k < |next| - 1 && next[k].ebuf != [] ensures k in cache' {
      assert k < |was| - 1 ==> was[k].ebuf != [];
    }
  }

  lemma CoherentPush(was: seq<Segment>, views: seq<View>, cache: seq<nat>, capacity: nat, idx: nat, loaded: Segment,
                     evicted: Option<nat>, now: seq<Segment>, cache': seq<nat>)
    requires Coherent(was, views, cache, capacity) && idx < |was| - 1
    requires loaded.Describes(views[idx]) && loaded.Loaded(views[idx])
    requires CacheBelow(cache', capacity, |was| - 1) && idx in cache'
    requires forall c :: c in cache ==> c in cache' || evicted == Some(c)
    requires evicted.Some? ==> evicted.value < |was| - 1 && evicted.value !in cache'
    requires var held := was[idx := loaded];
             now == if evicted.Some? then held[evicted.value := held[evicted.value].Dropped()] else held
    ensures Coherent(now, views, cache', capacity) && now[idx] == loaded
  {
    forall k | 0 <= k < |now| ensures now[k].Describes(views[k]) {
      assert was[k].Describes(views[k]);
    }
    forall k | 0 <= k < |now| - 1 && now[k].ebuf != [] ensures k in cache' {
      assert k == idx || was[k].ebuf != [];
    }
  }

  // ----- truncations -----

  lemma ReachesUnique(d: Disk, views: seq<View>, index: nat, a: nat, b: nat)
    requires ViewsOk(d, views) && a < |views| && b < |views| && Reaches(views[a], index) && Reaches(views[b], index)
    ensures a == b
  {
  }

  /** Cutting a segment buffer at an entry. */
  lemma CutBuffer(chunk: seq<Bytes>, off: nat)
    requires off < |chunk|
    ensures var p := Positions(chunk, 0)[off];
            && p.pos <= p.end <= |FrameAll(chunk)|
            && FrameAll(chunk)[p.pos..] == FrameAll(chunk[off..])
            && FrameAll(chunk)[..p.end] == FrameAll(chunk[..off + 1])
  {
    PositionAt(chunk, off);
    FrameAllCut(chunk, off);
    FrameAllCut(chunk, off + 1);
    FrameAllCut(chunk[..off + 1], off);
    assert chunk[..off + 1][..off] == chunk[..off];
  }

  /** The bytes both truncations keep of the segment they cut. */
  lemma ViewCuts(first: nat, chunks: seq<seq<Bytes>>, k: nat, index: nat)
    requires k < |chunks| && Reaches(Views(first, chunks)[k], index)
    ensures Covers(first, chunks, k, index)
    ensures var v := Views(first, chunks)[k];
            var p := v.marks[index - v.start];
            && p.pos <= p.end <= |v.bytes|
            && v.bytes[p.pos..] == FrameAll(FrontChunks(first, chunks, k, index)[0])
            && v.bytes[..p.end] == FrameAll(BackChunks(first, chunks, k, index)[k])
  {
    CutBuffer(chunks[k], index - StartOf(first, chunks, k));
  }

  function ViewOf(start: nat, chunk: seq<Bytes>): View
  {
    View(start, FrameAll(chunk), Positions(chunk, 0))
  }

  lemma DenotesFront(d: Disk, first: nat, end: nat, tail: FileName, views: seq<View>, chunks: seq<seq<Bytes>>,
                     k: nat, i: nat)
    requires Denotes(d, first, end, tail, views, chunks) && Covers(first, chunks, k, i)
    ensures Denotes(Run(d, FrontOps(first, chunks, k, i)), i, end, if k == |chunks| - 1 then Seg(i) else tail,
                    [ViewOf(i, FrontChunks(first, chunks, k, i)[0])] + views[k + 1..], FrontChunks(first, chunks, k, i))
  {
    var next := FrontChunks(first, chunks, k, i);
    FrontCompletes(d, first, chunks, k, i);
    FrontEntries(first, chunks, k, i);
    FrontViews(first, chunks, k, i);
    FrontEnd(first, chunks, k, i);
    DenotesIntro(Run(d, FrontOps(first, chunks, k, i)), i, end, if k == |chunks| - 1 then Seg(i) else tail,
                 [ViewOf(i, next[0])] + views[k + 1..], next);
  }

  lemma FrontEnd(first: nat, chunks: seq<seq<Bytes>>, k: nat, i: nat)
    requires WellFormed(first, chunks) && Covers(first, chunks, k, i)
    ensures i + |Flatten(FrontChunks(first, chunks, k, i))| == first + |Flatten(chunks)|
    ensures TailName(i, FrontChunks(first, chunks, k, i)) == if k == |chunks| - 1 then Seg(i)
                                                             else TailName(first, chunks)
  {
    FrontStarts(first, chunks, k, i);
    FrontEntries(first, chunks, k, i);
    FlattenAt(chunks, k, i - StartOf(first, chunks, k));
  }

  lemma FrontViews(first: nat, chunks: seq<seq<Bytes>>, k: nat, i: nat)
    requires WellFormed(first, chunks) && Covers(first, chunks, k, i)
    ensures Views(i, FrontChunks(first, chunks, k, i))
         == [ViewOf(i, FrontChunks(first, chunks, k, i)[0])] + Views(first, chunks)[k + 1..]
  {
    FrontStarts(first, chunks, k, i);
  }

  lemma DenotesBack(d: Disk, first: nat, end: nat, tail: FileName, views: seq<View>, chunks: seq<seq<Bytes>>,
                    k: nat, i: nat)
    requires Denotes(d, first, end, tail, views, chunks) && Covers(first, chunks, k, i)
    ensures Denotes(Run(d, BackOps(first, chunks, k, i)), first, i + 1, Seg(views[k].start),
                    views[..k] + [ViewOf(views[k].start, BackChunks(first, chunks, k, i)[k])],
                    BackChunks(first, chunks, k, i))
  {
    var next := BackChunks(first, chunks, k, i);
    BackCompletes(d, first, chunks, k, i);
    BackEnd(first, chunks, k, i);
    BackViews(first, chunks, k, i);
    DenotesIntro(Run(d, BackOps(first, chunks, k, i)), first, i + 1, Seg(views[k].start),
                 views[..k] + [ViewOf(views[k].start, next[k])], next);
  }

  lemma BackEnd(first: nat, chunks: seq<seq<Bytes>>, k: nat, i: nat)
    requires WellFormed(first, chunks) && Covers(first, chunks, k, i)
    ensures first + |Flatten(BackChunks(first, chunks, k, i))| == i + 1
    ensures TailName(first, BackChunks(first, chunks, k, i)) == Seg(StartOf(first, chunks, k))
  {
    BackStarts(first, chunks, k, i);
    BackEntries(first, chunks, k, i);
    FlattenAt(chunks, k, i - StartOf(first, chunks, k));
  }

  lemma BackViews(first: nat, chunks: seq<seq<Bytes>>, k: nat, i: nat)
    requires WellFormed(first, chunks) && Covers(first, chunks, k, i)
    ensures Views(first, BackChunks(first, chunks, k, i))
         == Views(first, chunks)[..k] + [ViewOf(StartOf(first, chunks, k), BackChunks(first, chunks, k, i)[k])]
  {
    BackStarts(first, chunks, k, i);
  }

  lemma DenotesStored(d: Disk, first: nat, end: nat, tail: FileName, views: seq<View>, chunks: seq<seq<Bytes>>, k: nat)
    requires Denotes(d, first, end, tail, views, chunks) && k < |views|
    ensures views[k].Stored(d)
  {
    HoldsViewsOk(d, first, chunks);
  }

  lemma FrontOutcome(d: Disk, first: nat, end: nat, tail: FileName, views: seq<View>, chunks: seq<seq<Bytes>>,
                     k: nat, i: nat)
    requires Denotes(d, first, end, tail, views, chunks) && Covers(first, chunks, k, i)
    ensures Denotes(Run(d, FrontOps(first, chunks, k, i)), i, end, if k == |views| - 1 then Seg(i) else tail,
                    [ViewOf(i, FrontChunks(first, chunks, k, i)[0])] + views[k + 1..], FrontChunks(first, chunks, k, i))
    ensures ViewOf(i, FrontChunks(first, chunks, k, i)[0]).Stored(Run(d, FrontOps(first, chunks, k, i)))
    ensures Log(i, Flatten(FrontChunks(first, chunks, k, i))) == Log(first, Flatten(chunks)).DropBefore(i)
  {
    DenotesFront(d, first, end, tail, views, chunks, k, i);
    FrontEntries(first, chunks, k, i);
    DenotesStored(Run(d, FrontOps(first, chunks, k, i)), i, end, if k == |views| - 1 then Seg(i) else tail,
                  [ViewOf(i, FrontChunks(first, chunks, k, i)[0])] + views[k + 1..],
                  FrontChunks(first, chunks, k, i), 0);
  }

  lemma BackOutcome(d: Disk, first: nat, end: nat, tail: FileName, views: seq<View>, chunks: seq<seq<Bytes>>,
                    k: nat, i: nat)
    requires Denotes(d, first, end, tail, views, chunks) && Covers(first, chunks, k, i)
    ensures Denotes(Run(d, BackOps(first, chunks, k, i)), first, i + 1, Seg(views[k].start),
                    views[..k] + [ViewOf(views[k].start, BackChunks(first, chunks, k, i)[k])],
                    BackChunks(first, chunks, k, i))
    ensures ViewOf(views[k].start, BackChunks(first, chunks, k, i)[k]).Stored(Run(d, BackOps(first, chunks, k, i)))
    ensures Log(first, Flatten(BackChunks(first, chunks, k, i))) == Log(first, Flatten(chunks)).KeepThrough(i)
  {
    DenotesBack(d, first, end, tail, views, chunks, k, i);
    BackEntries(first, chunks, k, i);
    DenotesStored(Run(d, BackOps(first, chunks, k, i)), first, i + 1, Seg(views[k].start),
                  views[..k] + [ViewOf(views[k].start, BackChunks(first, chunks, k, i)[k])],
                  BackChunks(first, chunks, k, i), k);
  }

  function Paths(segments: seq<Segment>): (r: seq<FileName>)
    ensures |r| == |segments|
  {
    seq(|segments|, i requires 0 <= i < |segments| => segments[i].path)
  }

  /** Segments after a front truncation: the cut one, then the later ones, decoded or not. */
  lemma DescribedAfterFront(was: seq<Segment>, views: seq<View>, now: seq<Segment>, v: View, k: nat)
    requires Described(was, views) && k < |was| && |now| == |was| - k
    requires now[0].Describes(v) && (|now| == 1 ==> now[0].Loaded(v))
    requires forall m :: 1 <= m < |now| ==> now[m] == was[k + m] || now[m] == was[k + m].Dropped()
    requires |now| > 1 ==> now[|now| - 1] == was[|was| - 1]
    ensures Described(now, [v] + views[k + 1..])
  {
    forall m | 1 <= m < |now| ensures now[m].Describes(views[k + m]) {
      assert was[k + m].Describes(views[k + m]);
    }
  }

  lemma DescribedAfterBack(was: seq<Segment>, views: seq<View>, now: seq<Segment>, v: View, k: nat)
    requires Described(was, views) && k < |was| && |now| == k + 1
    requires now[k].Describes(v) && now[k].Loaded(v)
    requires forall m :: 0 <= m < k ==> now[m] == was[m] || now[m] == was[m].Dropped()
    ensures Described(now, views[..k] + [v])
  {
    forall m | 0 <= m < k ensures now[m].Describes(views[m]) {
      assert was[m].Describes(views[m]);
    }
  }

  lemma BackStep(names: seq<FileName>, j: nat)
    requires j < |names|
    ensures RemovesBack(names)[..j + 1] == RemovesBack(names)[..j] + [Remove(names[|names| - 1 - j])]
  {
  }

  lemma RemovesStep(names: seq<FileName>, lo: nat, i: nat)
    requires lo <= i < |names|
    ensures Removes(names[lo..i + 1]) == Removes(names[lo..i]) + [Remove(names[i])]
  {
  }

  lemma PathsAreNames(segments: seq<Segment>, first: nat, chunks: seq<seq<Bytes>>)
    requires Described(segments, Views(first, chunks))
    ensures Paths(segments) == SegNames(first, chunks)
  {
    forall k | 0 <= k < |segments| ensures segments[k].path == Seg(StartOf(first, chunks, k)) {
      assert segments[k].Describes(Views(first, chunks)[k]);
    }
  }

  // ----- opening -----

  /** Segments known by name only. */
  function Unloaded(names: seq<FileName>): (r: seq<Segment>)
    requires AllRelevant(names)
    ensures |r| == |names|
  {
    seq(|names|, i requires 0 <= i < |names| => Segment(names[i], names[i].index, [], []))
  }

  /** The scan of the listing at the start of load. */
  method Classify(names: seq<FileName>) returns (segs: seq<Segment>, startIdx: int, endIdx: int)
    requires AllRelevant(names)
    ensures segs == Unloaded(names) && startIdx == StartPos(names) && endIdx == EndPos(names)
  {
    segs, startIdx, endIdx := [], -1, -1;
    var i := 0;
    while i < |names|
      invariant 0 <= i <= |names| && AllRelevant(names[..i])
      invariant segs == Unloaded(names[..i]) && startIdx == StartPos(names[..i]) && endIdx == EndPos(names[..i])
    {
      assert names[..i + 1][..i] == names[..i];
      if names[i].Start? {
        startIdx := |segs|;
      } else if names[i].End? && endIdx == -1 {
        endIdx := |segs|;
      }
      segs := segs + [Segment(names[i], names[i].index, [], [])];
      i := i + 1;
    }
    assert names[..i] == names;
  }

  /** The segments up to END, without the one END replaces, END under its final name. */
  method KeepThroughEnd(segs: seq<Segment>, endIdx: nat, ghost names: seq<FileName>) returns (r: seq<Segment>)
    requires AllRelevant(names) && segs == Unloaded(names) && endIdx < |segs|
    requires endIdx == EndPos(names) && StartPos(names) == -1
    ensures LoadPlan(names).Plan? && r == Unloaded(LoadPlan(names).segs)
  {
    r := segs[..endIdx + 1];
    if |r| > 1 && r[|r| - 2].index == r[|r| - 1].index {
      r := r[..|r| - 2] + [r[|r| - 1]];
    }
    var tail := r[|r| - 1];
    r := r[|r| - 1 := tail.(path := Seg(tail.index))];
  }

  /** The fields load sets when it has decoded the tail of `names`. */
  ghost predicate TailRead(d: Disk, names: seq<FileName>, segments: seq<Segment>, first: nat, end: nat, sfile: FileName)
    requires |names| > 0 && AllRelevant(names)
  {
    var n := |names| - 1;
    var tail := names[n];
    && tail in d && Scan(d[tail], 0).Some?
    && first == names[0].index && sfile == tail
    && end == tail.index + |Scan(d[tail], 0).value|
    && segments == Unloaded(names)[n := Segment(tail, tail.index, d[tail], Scan(d[tail], 0).value)]
  }

  lemma ListingRelevant(d: Disk, names: seq<FileName>)
    requires IsListing(d, names)
    ensures AllRelevant(names)
  {
    forall i | 0 <= i < |names| ensures Relevant(names[i]) {
      assert names[i] in names;
    }
  }

  /** What a plan leaves behind when it opens as a log. */
  lemma Executed(d: Disk, plan: Plan, first: nat, chunks: seq<seq<Bytes>>)
    requires plan.Plan? && |plan.segs| > 0 && AllRelevant(plan.segs) && Opens(Execute(d, plan), first, chunks)
    ensures Holds(Run(d, plan.ops), first, chunks) && plan.segs == SegNames(first, chunks)
  {
  }

  /** A directory without a log stands for the empty log at index 1. */
  ghost predicate Empty(d: Disk, first: nat, chunks: seq<seq<Bytes>>)
  {
    first == 1 && chunks == [[]] && forall n :: n in d ==> !Relevant(n)
  }

  lemma RecoverExecutes(d: Disk, names: seq<FileName>, first: nat, chunks: seq<seq<Bytes>>)
    requires (Recoverable(d, first, chunks) || Empty(d, first, chunks)) && IsListing(d, names)
    ensures AllRelevant(names) && LoadPlan(names).Plan? && Recover(d, names).Opened?
    ensures Holds(Run(d, LoadPlan(names).ops), first, chunks) && LoadPlan(names).segs == SegNames(first, chunks)
  {
    if Recoverable(d, first, chunks) {
      RecoverWorks(d, names, first, chunks);
    } else {
      RecoverEmpty(d, names);
    }
    Executed(d, LoadPlan(names), first, chunks);
  }

  lemma DenotesDisk(d: Disk, first: nat, chunks: seq<seq<Bytes>>)
    requires Holds(d, first, chunks)
    ensures Denotes(d, first, first + |Flatten(chunks)|, TailName(first, chunks), Views(first, chunks), chunks)
  {
    DenotesIntro(d, first, first + |Flatten(chunks)|, TailName(first, chunks), Views(first, chunks), chunks);
  }

  /** The tail file of a healthy directory. */
  lemma TailFile(d: Disk, first: nat, chunks: seq<seq<Bytes>>)
    requires Holds(d, first, chunks)
    ensures TailName(first, chunks) in d && d[TailName(first, chunks)] == FrameAll(chunks[|chunks| - 1])
    ensures Scan(d[TailName(first, chunks)], 0) == Some(Positions(chunks[|chunks| - 1], 0))
    ensures TailName(first, chunks).index + |chunks[|chunks| - 1]| == first + |Flatten(chunks)|
  {
    ScanTail(d, first, chunks);
    assert SegmentOk(d, first, chunks, |chunks| - 1);
  }

  /** Opened segments: all unloaded but the tail. */
  lemma OpenedCoherent(first: nat, chunks: seq<seq<Bytes>>, segments: seq<Segment>, capacity: nat)
    requires |chunks| >= 1 && AllRelevant(SegNames(first, chunks)) && capacity >= 1
    requires var m := |chunks| - 1;
             var tail := SegNames(first, chunks)[m];
             segments == Unloaded(SegNames(first, chunks))
                           [m := Segment(tail, tail.index, FrameAll(chunks[m]), Positions(chunks[m], 0))]
    ensures Coherent(segments, Views(first, chunks), [], capacity)
  {
    var views := Views(first, chunks);
    forall k | 0 <= k < |segments| ensures segments[k].Describes(views[k]) {
    }
  }

  // ----- the log object -----

  /** The plan of a directory with START, and the segments it leaves. */
  lemma StartPlan(names: seq<FileName>, s: nat)
    requires AllRelevant(names) && s < |names| && s == StartPos(names) && EndPos(names) == -1
    ensures LoadPlan(names).Plan?
    ensures LoadPlan(names).ops == Removes(names[..s]) + [Rename(names[s], Seg(names[s].index))]
    ensures Unloaded(names)[s].path == names[s] && Unloaded(names)[s].index == names[s].index
    ensures Unloaded(LoadPlan(names).segs) ==
            Unloaded(names)[s..][0 := Unloaded(names)[s].(path := Seg(names[s].index))]
  {
    hide StartPos, EndPos, Removes;
    var final := Seg(names[s].index);
    var kept := [final] + names[s + 1..];
    assert LoadPlan(names).segs == kept;
    UnloadedFrom(names, s, kept);
  }

  lemma UnloadedFrom(names: seq<FileName>, s: nat, kept: seq<FileName>)
    requires AllRelevant(names) && AllRelevant(kept) && s < |names|
    requires kept == [Seg(names[s].index)] + names[s + 1..]
    ensures Unloaded(kept) == Unloaded(names)[s..][0 := Unloaded(names)[s].(path := Seg(names[s].index))]
  {
    var rest := Unloaded(names)[s..][0 := Unloaded(names)[s].(path := Seg(names[s].index))];
    assert |Unloaded(kept)| == |rest|;
    forall k | 0 <= k < |rest| ensures Unloaded(kept)[k] == rest[k] {
      if k > 0 {
        assert kept[k] == names[s + k];
      }
    }
  }

  class Wal {
    const segmentSize: nat
    const cacheSize: nat
    var disk: Disk
    var closed: bool
    var corrupt: bool
    var segments: seq<Segment>
    var firstIndex: nat
    var lastIndex: nat
    var sfile: FileName
    var cache: seq<nat>                      // positions of cached segments, most recent first
    ghost var views: seq<View>               // what each segment stands for
    ghost var chunks: seq<seq<Bytes>>        // the entries of each segment
    var trace: seq<FsOp>                     // file operations so far

    /** The segments in memory are right and the tail is not in the cache. */
    ghost predicate MemoryValid()
      reads this`segments, this`views, this`cache
    {
      Coherent(segments, views, cache, cacheSize)
    }

    /** The fields describe the log `chunks`, kept in a healthy directory. */
    ghost predicate Meaning()
      reads this
    {
      segmentSize >= 1 && Denotes(disk, firstIndex, lastIndex + 1, sfile, views, chunks)
    }

    ghost predicate Valid()
      reads this
    {
      Meaning() && MemoryValid()
    }

    /** The plain indexed sequence this object refines. */
    ghost function Contents(): Log
      reads this
    {
      Log(firstIndex, Flatten(chunks))
    }

    /** Every file operation goes through here. */
    method Do(op: FsOp)
      modifies this`disk, this`trace
      ensures disk == Apply(old(disk), op) && trace == old(trace) + [op]
    {
      disk := Apply(disk, op);
      trace := trace + [op];
    }

    // ----- looking up segments -----

    /** r is the position of the last segment starting at or before `index`. */
    ghost predicate Found(index: nat, r: int)
      reads this
    {
      && -1 <= r < |segments|
      && (forall k :: 0 <= k <= r ==> segments[k].index <= index)
      && (forall k :: r < k < |segments| ==> segments[k].index > index)
    }

    ghost predicate Sorted()
      reads this
    {
      forall i, j :: 0 <= i < j < |segments| ==> segments[i].index < segments[j].index
    }

    lemma SegmentsSorted()
      requires Described(segments, views) && ViewsOk(disk, views)
      ensures Sorted()
    {
      forall i, j | 0 <= i < j < |segments| ensures segments[i].index < segments[j].index {
        assert segments[i].Describes(views[i]) && segments[j].Describes(views[j]);
        assert Before(views[i], views[j]);
      }
    }

    /** Binary search over the segments. */
    method FindSegment(index: nat) returns (r: int)
      requires Sorted()
      ensures Found(index, r)
    {
      var i, j := 0, |segments|;
      while i < j
        invariant 0 <= i <= j <= |segments|
        invariant forall k :: 0 <= k < i ==> segments[k].index <= index
        invariant forall k :: j <= k < |segments| ==> segments[k].index > index
      {
        var h := i + (j - i) / 2;
        if index >= segments[h].index {
          i := h + 1;
        } else {
          j := h;
        }
      }
      r := i - 1;
    }

    /** The segment found for an index of the log is the one that reaches over it. */
    lemma FoundReaches(index: nat, r: int)
      requires Described(segments, views) && ViewsOk(disk, views) && Found(index, r)
      requires views[0].start <= index < views[|views| - 1].End()
      ensures 0 <= r && Reaches(views[r], index)
    {
      assert segments[0].Describes(views[0]);
      assert segments[r].Describes(views[r]);
      if r + 1 < |segments| {
        assert segments[r + 1].Describes(views[r + 1]);
      }
    }

    /** And conversely. */
    lemma ReachesFound(index: nat, k: nat)
      requires Described(segments, views) && ViewsOk(disk, views) && k < |views| && Reaches(views[k], index)
      ensures Found(index, k)
    {
      forall i | 0 <= i < |segments| ensures i <= k <==> segments[i].index <= index {
        assert segments[i].Describes(views[i]);
      }
    }

    /** The segment search finds for an index of the log. */
    method Locate(index: nat) returns (idx: nat)
      requires Described(segments, views) && ViewsOk(disk, views)
      requires views[0].start <= index < views[|views| - 1].End()
      ensures idx < |views| && Found(index, idx) && Reaches(views[idx], index) && views[idx].Stored(disk)
    {
      SegmentsSorted();
      var r := FindSegment(index);
      FoundReaches(index, r);
      idx := r;
    }

    /** pushCache: the segment becomes the most recent one; an overfull cache gives up some
        other segment, whose decoded entries are dropped. */
    method PushCache(segIdx: nat, ghost limit: nat) returns (evicted: Option<nat>)
      requires cacheSize >= 1 && CacheBelow(cache, cacheSize, limit) && limit <= |segments| && segIdx < |segments|
      modifies this`cache, this`segments
      ensures CacheBelow(cache, cacheSize, if segIdx < limit then limit else segIdx + 1)
      ensures |cache| > 0 && cache[0] == segIdx
      ensures forall c :: c in old(cache) ==> c in cache || evicted == Some(c)
      ensures evicted.None? ==> segments == old(segments)
      ensures evicted.Some? ==>
                && evicted.value in old(cache) && evicted.value !in cache && evicted.value < limit
                && segments == old(segments)[evicted.value := old(segments)[evicted.value].Dropped()]
    {
      cache, evicted := SetEvicted(cache, cacheSize, segIdx, limit);
      if evicted.Some? {
        var v := evicted.value;
        segments := segments[v := segments[v].Dropped()];
      }
    }

    /** loadSegmentEntries: the segment decoded from its file, None for ErrCorrupt. */
    method LoadSegmentEntries(s: Segment) returns (r: Option<Segment>)
      ensures r.Some? <==> s.path in disk && Scan(disk[s.path], 0).Some?
      ensures r.Some? ==> r.value == s.(ebuf := disk[s.path], epos := Scan(disk[s.path], 0).value)
    {
      if s.path !in disk {
        return None;
      }
      var data := disk[s.path];
      var epos := LoadEntries(data);
      if epos.None? {
        return None;
      }
      r := Some(s.(ebuf := data, epos := epos.value));
    }

    /** The part of loadSegment past the two shortcuts. */
    method LoadAndCache(idx: nat) returns (ok: bool)
      requires MemoryValid() && idx < |segments| - 1 && views[idx].Stored(disk)
      modifies this`cache, this`segments
      ensures ok && MemoryValid()
      ensures segments[idx].Loaded(views[idx])
      ensures |cache| > 0 && cache[0] == idx
    {
      assert segments[idx].Describes(views[idx]);
      if |segments[idx].epos| == 0 {
        var s := LoadSegmentEntries(segments[idx]);
        if s.None? {
          return false;
        }
        segments := segments[idx := s.value];
      }
      ghost var loaded := segments[idx];
      var evicted := PushCache(idx, |segments| - 1);
      CoherentPush(old(segments), views, old(cache), cacheSize, idx, loaded, evicted, segments, cache);
      ok := true;
    }

    /** What loadSegment promises: the segment that reaches over the index, decoded, and in
        the cache unless it is the tail. */
    ghost predicate Resolved(index: nat, k: nat)
      reads this
    {
      && k < |segments| == |views|
      && Reaches(views[k], index)
      && segments[k].Describes(views[k]) && segments[k].Loaded(views[k])
      && (k < |segments| - 1 ==> k in cache)
    }

    /** loadSegment: the tail, the most recently cached segment if it covers the index, or
        the segment found by search. */
    method LoadReaching(index: nat) returns (ok: bool, k: nat)
      requires MemoryValid() && ViewsOk(disk, views)
      requires views[0].start <= index < views[|views| - 1].End()
      modifies this`cache, this`segments
      ensures ok && MemoryValid() && Resolved(index, k)
    {
      k := |segments| - 1;
      assert segments[k].Describes(views[k]);
      if index >= segments[k].index {
        return true, k;
      }
      if |cache| > 0 {
        var rseg := segments[cache[0]];
        assert rseg.Describes(views[cache[0]]);
        if rseg.index <= index < rseg.index + |rseg.epos| {
          return true, cache[0];
        }
      }
      k := Locate(index);
      ok := LoadAndCache(k);
      assert segments[k].Describes(views[k]);
    }

    /** With its shortcuts loadSegment still gives segments[findSegment(index)], decoded. */
    method LoadSegment(index: nat) returns (ok: bool, k: nat)
      requires MemoryValid() && ViewsOk(disk, views)
      requires views[0].start <= index < views[|views| - 1].End()
      modifies this`cache, this`segments
      ensures ok && MemoryValid() && Resolved(index, k) && Found(index, k)
    {
      ok, k := LoadReaching(index);
      ReachesFound(index, k);
    }

    // ----- reading -----

    lemma RangeOfViews()
      requires Meaning()
      ensures ViewsOk(disk, views) && views[0].start == firstIndex && views[|views| - 1].End() == lastIndex + 1
      ensures |views| >= 1 && |chunks| >= 1 && segmentSize >= 1
    {
      HoldsViewsOk(disk, firstIndex, chunks);
    }

    lemma TailLoaded()
      requires MemoryValid()
      ensures |segments| == |views| >= 1 && segments[|segments| - 1].Loaded(views[|views| - 1])
      ensures segments[|segments| - 1].index == views[|views| - 1].start
    {
      assert segments[|segments| - 1].Describes(views[|views| - 1]);
    }

    lemma RangeOfLog()
      requires Meaning()
      ensures Contents().Last() == lastIndex && firstIndex >= 1
    {
    }

    lemma EntryOfViews(index: nat)
      requires Meaning() && firstIndex <= index <= lastIndex
      ensures ViewsOk(disk, views) && views[0].start <= index < views[|views| - 1].End()
      ensures index - firstIndex < |Contents().entries|
      ensures forall k :: 0 <= k < |views| && Reaches(views[k], index) ==>
                Payloads(views[k], index, Contents().entries[index - firstIndex])
    {
      hide Holds, Flatten, Payloads, FrameAll, Positions;
      RangeOfViews();
      ViewEntries(firstIndex, chunks, index);
    }

    /** The decoding at the end of Read. */
    method EntryAt(s: Segment, index: nat, ghost v: View, ghost data: seq<byte>) returns (r: ReadResult)
      requires s.index == v.start && s.Loaded(v) && Payloads(v, index, data)
      ensures r == Data(data)
    {
      var epos := s.epos[index - s.index];
      var edata := s.ebuf[epos.pos..epos.end];
      var (size, n) := Uvarint(edata);
      if n <= 0 {
        return Failed(ErrCorrupt);
      }
      if |edata| - n < size {
        return Failed(ErrCorrupt);
      }
      r := Data(edata[n..n + size]);
    }

    /** Read of an index inside the log. */
    method ReadInside(index: nat, ghost data: seq<byte>) returns (r: ReadResult)
      requires MemoryValid() && ViewsOk(disk, views)
      requires views[0].start <= index < views[|views| - 1].End()
      requires forall k :: 0 <= k < |views| && Reaches(views[k], index) ==> Payloads(views[k], index, data)
      modifies this`cache, this`segments
      ensures MemoryValid() && r == Data(data)
    {
      var ok, k := LoadSegment(index);
      if !ok {
        return Failed(ErrCorrupt);
      }
      r := EntryAt(segments[k], index, views[k], data);
    }

    method ReadEntry(index: nat) returns (r: ReadResult)
      requires Valid() && firstIndex <= index <= lastIndex
      modifies this`cache, this`segments
      ensures MemoryValid()
      ensures index - firstIndex < |Contents().entries| && r == Data(Contents().entries[index - firstIndex])
    {
      hide Denotes, Coherent, Flatten, Payloads, ViewsOk;
      EntryOfViews(index);
      r := ReadInside(index, Contents().entries[index - firstIndex]);
    }

    method Read(index: nat) returns (r: ReadResult)
      requires Valid()
      modifies this`cache, this`segments
      ensures Valid()
      ensures r == if corrupt then Failed(ErrCorrupt)
                   else if closed then Failed(ErrClosed) else Lookup(Contents(), index)
    {
      RangeOfLog();
      if corrupt {
        r := Failed(ErrCorrupt);
      } else if closed {
        r := Failed(ErrClosed);
      } else if index == 0 || index < firstIndex || index > lastIndex {
        r := Failed(ErrNotFound);
      } else {
        r := ReadEntry(index);
      }
    }

    // ----- dropping the cache -----

    /** clearCache: the decoded entries of every cached segment are dropped. */
    method DropCache()
      requires forall c :: c in cache ==> c < |segments|
      modifies this`cache, this`segments
      ensures cache == [] && |segments| == |old(segments)|
      ensures forall k :: 0 <= k < |segments| ==>
                segments[k] == if k in old(cache) then old(segments)[k].Dropped() else old(segments)[k]
      ensures DecodedCached(old(segments), old(cache)) ==> DecodedCached(segments, cache)
    {
      var i := 0;
      while i < |cache|
        invariant 0 <= i <= |cache| && cache == old(cache) && |segments| == |old(segments)|
        invariant forall k :: 0 <= k < |segments| ==>
                    segments[k] == if k in cache[..i] then old(segments)[k].Dropped() else old(segments)[k]
      {
        assert cache[i] in cache;
        segments := segments[cache[i] := segments[cache[i]].Dropped()];
        assert cache[..i + 1] == cache[..i] + [cache[i]];
        i := i + 1;
      }
      assert cache[..i] == cache;
      cache := [];
    }

    method ClearCache() returns (err: Error)
      requires Valid()
      modifies this`cache, this`segments
      ensures Valid()
      ensures err == if corrupt then ErrCorrupt else if closed then ErrClosed else NoError
      ensures err == NoError ==> cache == []
    {
      hide Denotes;
      if corrupt {
        err := ErrCorrupt;
      } else if closed {
        err := ErrClosed;
      } else {
        DropCache();
        err := NoError;
      }
    }

    // ----- writing -----

    /** cycle: the tail goes to the cache and a new empty segment takes its place. */
    method Cycle()
      requires MemoryValid()
      modifies this`disk, this`trace, this`cache, this`segments, this`sfile, this`views
      ensures MemoryValid()
      ensures views == old(views) + [View(lastIndex + 1, [], [])]
      ensures trace == old(trace) + [Create(Seg(lastIndex + 1))]
      ensures disk == Apply(old(disk), Create(Seg(lastIndex + 1)))
      ensures sfile == Seg(lastIndex + 1)
      ensures |cache| > 0 && cache[0] == |old(segments)| - 1
      ensures |segments| == |old(segments)| + 1
      ensures segments[|segments| - 2] == old(segments)[|old(segments)| - 1]
    {
      hide Described, DecodedCached;
      TailLoaded();
      var evicted := PushCache(|segments| - 1, |segments| - 1);
      var s := Segment(Seg(lastIndex + 1), lastIndex + 1, [], []);
      CoherentCycle(old(segments), views, old(cache), cacheSize, evicted, segments, cache, s,
                    View(lastIndex + 1, [], []));
      Do(Create(s.path));
      sfile := s.path;
      segments := segments + [s];
      views := views + [View(lastIndex + 1, [], [])];
    }

    /** The loop body of writeBatch for the one entry of a batch: into the tail buffer, then
        to the tail file. */
    method AppendTail(index: nat, data: Bytes)
      requires MemoryValid()
      modifies this`disk, this`trace, this`views, this`lastIndex, this`segments
      ensures MemoryValid()
      ensures views == old(views)[|old(views)| - 1 := Longer(old(views)[|old(views)| - 1], data)]
      ensures trace == old(trace) + [Append(sfile, Frame(data))]
      ensures disk == Apply(old(disk), Append(sfile, Frame(data)))
      ensures lastIndex == index
    {
      CoherentAppend(segments, views, cache, cacheSize, data);
      var s := segments[|segments| - 1];
      var mark := |s.ebuf|;
      var ebuf, epos := AppendBinaryEntry(s.ebuf, data);
      segments := segments[|segments| - 1 := s.(ebuf := ebuf, epos := s.epos + [epos])];
      assert ebuf[mark..] == Frame(data);
      Do(Append(sfile, ebuf[mark..]));
      lastIndex := index;
      views := views[|views| - 1 := Longer(views[|views| - 1], data)];
    }

    /** Start a new tail segment once the buffer of the current one is above a limit. */
    method Roll(limit: nat)
      requires MemoryValid()
      modifies this`disk, this`trace, this`cache, this`segments, this`sfile, this`views, this`chunks
      ensures MemoryValid() && |old(views)| >= 1 && views == RolledViews(old(views), limit, lastIndex + 1)
      ensures |views| > |old(views)| ==> segments[|segments| - 2] == old(segments)[|old(segments)| - 1]
      ensures |views| == |old(views)| ==> segments == old(segments)
      ensures sfile == if |views| > |old(views)| then Seg(lastIndex + 1) else old(sfile)
      ensures trace == old(trace) + RollSteps(old(views), limit, lastIndex + 1)
      ensures disk == Run(old(disk), RollSteps(old(views), limit, lastIndex + 1))
      ensures old(Valid()) ==>
                && Valid() && chunks == Rolled(old(chunks), limit) && Flatten(chunks) == Flatten(old(chunks))
    {
      hide Denotes, Flatten;
      if Valid() {
        TailBuffer();
      }
      var s := segments[|segments| - 1];
      RunOne(disk, Create(Seg(lastIndex + 1)));
      if |s.ebuf| > limit {
        if Valid() {
          DenotesCycle(disk, firstIndex, lastIndex + 1, sfile, views, chunks);
        }
        Cycle();
        chunks := Cycled(chunks);
      }
    }

    lemma TailBuffer()
      requires Valid()
      ensures |segments| == |chunks| && |chunks| >= 1
      ensures segments[|segments| - 1].ebuf == FrameAll(chunks[|chunks| - 1])
      ensures |segments[|segments| - 1].ebuf| > 0 ==> chunks[|chunks| - 1] != []
    {
      assert FrameAll([]) == [];
    }

    /** The entry goes to the tail segment, whatever its index. */
    method AppendEntry(index: nat, data: Bytes)
      requires Valid()
      modifies this`disk, this`trace, this`views, this`lastIndex, this`segments, this`chunks
      ensures MemoryValid() && lastIndex == index
      ensures |old(views)| >= 1 && views == AppendedView(old(views), data)
      ensures trace == old(trace) + [Append(sfile, Frame(data))]
      ensures disk == Apply(old(disk), Append(sfile, Frame(data)))
      ensures index == old(lastIndex) + 1 ==>
                Valid() && chunks == Appended(old(chunks), data) && Flatten(chunks) == Flatten(old(chunks)) + [data]
    {
      DenotesAppend(disk, firstIndex, lastIndex + 1, sfile, views, chunks, data);
      AppendTail(index, data);
      chunks := Appended(chunks, data);
    }

    ghost predicate Standing()
      reads this
    {
      Stands(disk, firstIndex, lastIndex + 1, sfile, segments)
    }

    lemma ValidStands()
      requires Valid()
      ensures Standing()
    {
    }

    /** writeBatch up to the end of the append. */
    method MakeRoomAndAppend(index: nat, data: Bytes)
      requires Valid()
      modifies this`disk, this`trace, this`cache, this`segments, this`sfile, this`views, this`chunks, this`lastIndex
      ensures MemoryValid() && lastIndex == index && |old(chunks)| >= 1 && segmentSize >= 1 && |old(views)| >= 1
      ensures views == AppendedView(RolledViews(old(views), segmentSize, old(lastIndex) + 1), data)
      ensures |views| >= 1 && views[|views| - 1].End() == old(lastIndex) + 2
      ensures sfile == if |views| > |old(views)| then Seg(old(lastIndex) + 1) else old(sfile)
      ensures trace
           == old(trace) + RollSteps(old(views), segmentSize, old(lastIndex) + 1) + [Append(sfile, Frame(data))]
      ensures disk == Apply(Run(old(disk), RollSteps(old(views), segmentSize, old(lastIndex) + 1)),
                            Append(sfile, Frame(data)))
      ensures index == old(lastIndex) + 1 ==>
                && Valid() && chunks == Appended(Rolled(old(chunks), segmentSize), data)
                && Flatten(chunks) == Flatten(old(chunks)) + [data]
    {
      hide Meaning, MemoryValid, ViewsOk, Flatten, Rolled, RollSteps, RolledViews, Appended, Frame;
      RangeOfViews();
      Roll(segmentSize);
      RangeOfViews();
      AppendEntry(index, data);
    }

    lemma StepsOf(data: Bytes, index: nat)
      requires Valid()
      ensures |views| >= 1 && |chunks| >= 1 && segmentSize >= 1
      ensures var rolled := RolledViews(views, segmentSize, lastIndex + 1);
              WriteOpsAt(firstIndex, chunks, data, segmentSize, index) ==
              RollSteps(views, segmentSize, lastIndex + 1)
              + ([Append(if |rolled| > |views| then Seg(lastIndex + 1) else sfile, Frame(data))]
                 + RollSteps(AppendedView(rolled, data), segmentSize - 1, index + 1))
    {
      hide WriteOpsAt, RollSteps, RolledViews, AppendedView, Frame;
      WriteSteps(disk, firstIndex, lastIndex + 1, sfile, views, chunks, data, segmentSize, index);
    }

    lemma StepsNext(data: Bytes)
      requires Valid()
      ensures |chunks| >= 1 && segmentSize >= 1
      ensures WriteOpsAt(firstIndex, chunks, data, segmentSize, lastIndex + 1)
           == WriteOps(firstIndex, chunks, data, segmentSize)
    {
      NextIndexOps(disk, firstIndex, chunks, data, segmentSize, lastIndex + 1);
    }

    /** The decoded segment that got the entry, last or with a new tail behind it, ends where
        the log did; the index range says otherwise. */
    lemma Astray(was: seq<View>, tail: Segment)
      requires MemoryValid() && |was| >= 1 && segmentSize >= 1
      requires views == RolledViews(was, segmentSize - 1, lastIndex + 1)
      requires was[|was| - 1].bytes != [] && was[|was| - 1].End() != lastIndex + 1
      requires tail.Loaded(was[|was| - 1]) && tail.index == was[|was| - 1].start
      requires segments[if |views| > |was| then |segments| - 2 else |segments| - 1] == tail
      ensures !Standing()
    {
      assert segments[|segments| - 1].Describes(views[|views| - 1]);
      OutOfOrder(disk, firstIndex, lastIndex + 1, sfile, segments);
    }

    /** writeBatch on the batch Write builds: make room, append, make room again. Nothing
        checks the index: the bytes are written all the same, and any index other than the next
        leaves an object that stands for no log. */
    method WriteEntry(index: nat, data: Bytes)
      requires Valid()
      modifies this`disk, this`trace, this`cache, this`segments, this`sfile, this`views, this`chunks, this`lastIndex
      ensures MemoryValid() && lastIndex == index && |old(chunks)| >= 1 && |old(views)| >= 1 && segmentSize >= 1
      ensures views == WrittenViews(old(views), data, segmentSize, old(lastIndex) + 1, index)
      ensures trace == old(trace) + WriteOpsAt(firstIndex, old(chunks), data, segmentSize, index)
      ensures disk == Run(old(disk), WriteOpsAt(firstIndex, old(chunks), data, segmentSize, index))
      ensures index == old(lastIndex) + 1 ==>
                && Valid() && chunks == WriteChunks(old(chunks), data, segmentSize)
                && Flatten(chunks) == Flatten(old(chunks)) + [data]
      ensures index != old(lastIndex) + 1 ==> !Standing()
    {
      hide Valid, MemoryValid, Stands, Flatten, Rolled, RollSteps, Appended, Frame, WriteOpsAt, Denotes, Run, Apply;
      StepsOf(data, index);
      MakeRoomAndAppend(index, data);
      TailLoaded();
      ghost var appended, tail := views, segments[|segments| - 1];
      RunAround(old(disk), RollSteps(old(views), segmentSize, old(lastIndex) + 1), Append(sfile, Frame(data)),
                RollSteps(appended, segmentSize - 1, index + 1));
      Roll(segmentSize - 1);
      if index != old(lastIndex) + 1 {
        Astray(appended, tail);
      }
    }

    /** Write: at the index after LastIndex, as documented, the entry is appended, whatever
        segments have to be started for it; the log survives exactly such writes. */
    method Write(index: nat, data: Bytes) returns (err: Error)
      requires Valid()
      modifies this`disk, this`trace, this`cache, this`segments, this`sfile, this`views, this`chunks, this`lastIndex
      ensures err == if corrupt then ErrCorrupt else if closed then ErrClosed else NoError
      ensures err == NoError ==>
                && |old(chunks)| >= 1 && segmentSize >= 1 && lastIndex == index && MemoryValid()
                && trace == old(trace) + WriteOpsAt(firstIndex, old(chunks), data, segmentSize, index)
                && disk == Run(old(disk), WriteOpsAt(firstIndex, old(chunks), data, segmentSize, index))
      ensures err == NoError && index == old(lastIndex) + 1 ==>
                && Valid() && Contents() == Log(firstIndex, old(Contents().entries) + [data])
                && chunks == WriteChunks(old(chunks), data, segmentSize)
                && trace == old(trace) + WriteOps(firstIndex, old(chunks), data, segmentSize)
      ensures err == NoError && index != old(lastIndex) + 1 ==> !Standing() && !Valid()
      ensures err != NoError ==> Valid() && Contents() == old(Contents()) && trace == old(trace) && disk == old(disk)
      ensures err != NoError ==> chunks == old(chunks)
    {
      hide Valid, MemoryValid, Standing, Flatten, WriteOps, WriteOpsAt, WriteChunks;
      if corrupt {
        err := ErrCorrupt;
      } else if closed {
        err := ErrClosed;
      } else {
        StepsNext(data);
        WriteEntry(index, data);
        if Valid() {
          ValidStands();
        }
        err := NoError;
      }
    }

    // ----- truncating -----

    method RemoveSegments(lo: nat, hi: nat)
      requires lo <= hi <= |segments|
      modifies this`disk, this`trace
      ensures trace == old(trace) + Removes(Paths(segments)[lo..hi])
      ensures disk == Run(old(disk), Removes(Paths(segments)[lo..hi]))
    {
      var i := lo;
      while i < hi
        invariant lo <= i <= hi
        invariant trace == old(trace) + Removes(Paths(segments)[lo..i])
        invariant disk == Run(old(disk), Removes(Paths(segments)[lo..i]))
      {
        RemovesStep(Paths(segments), lo, i);
        RunSnoc(old(disk), Removes(Paths(segments)[lo..i]), Remove(segments[i].path));
        Do(Remove(segments[i].path));
        i := i + 1;
      }
    }

    /** The file operations both truncations share: write the scratch file, rename it to its
        mark, remove the segments from lo to hi, rename the mark to its final name. */
    method ReplaceFiles(data: seq<byte>, mark: FileName, lo: nat, hi: nat, final: FileName)
      requires lo <= hi <= |segments|
      modifies this`disk, this`trace
      ensures trace == old(trace) + (Prelude(data, mark) + (Removes(Paths(segments)[lo..hi]) + [Rename(mark, final)]))
      ensures disk == Run(old(disk), Prelude(data, mark) + (Removes(Paths(segments)[lo..hi]) + [Rename(mark, final)]))
    {
      hide Run, Apply, Removes, Paths;
      ghost var prelude, gone := Prelude(data, mark), Removes(Paths(segments)[lo..hi]);
      Do(Create(Temp));
      Do(Append(Temp, data));
      Do(Rename(Temp, mark));
      RunThree(old(disk), Create(Temp), Append(Temp, data), Rename(Temp, mark));
      assert trace == old(trace) + prelude;
      ghost var begun := disk;
      RemoveSegments(lo, hi);
      RunSnoc(begun, gone, Rename(mark, final));
      RunAppend(old(disk), prelude, gone + [Rename(mark, final)]);
      Do(Rename(mark, final));
    }

    /** What truncating needs of the segment that covers the index. */
    lemma CutsAt(index: nat, k: nat)
      requires Valid() && k < |views| && Reaches(views[k], index)
      ensures Covers(firstIndex, chunks, k, index) && |segments| == |chunks|
      ensures views[k].start == StartOf(firstIndex, chunks, k)
      ensures var p := views[k].marks[index - views[k].start];
              && p.pos <= p.end <= |views[k].bytes|
              && views[k].bytes[p.pos..] == FrameAll(FrontChunks(firstIndex, chunks, k, index)[0])
              && views[k].bytes[..p.end] == FrameAll(BackChunks(firstIndex, chunks, k, index)[k])
      ensures Paths(segments) == SegNames(firstIndex, chunks)
    {
      ViewCuts(firstIndex, chunks, k, index);
      PathsAreNames(segments, firstIndex, chunks);
    }

    /** After the files of a front truncation: the cut segment takes its new name, a cut tail
        is reopened and decoded again, cached segments are dropped, earlier ones forgotten. */
    method AdoptFront(k: nat, index: nat, size: nat, ghost v: View) returns (ok: bool)
      requires MemoryValid() && k < |segments| && (k < |segments| - 1 ==> k in cache)
      requires v.start == index && v.Stored(disk) && size == |v.bytes|
      modifies this`cache, this`segments, this`views, this`sfile, this`firstIndex
      ensures ok && MemoryValid()
      ensures views == [v] + old(views)[k + 1..] && firstIndex == index
      ensures sfile == if k == |old(views)| - 1 then Seg(index) else old(sfile)
    {
      segments := segments[k := segments[k].(path := Seg(index), index := index)];
      if k == |segments| - 1 {
        sfile := Seg(index);
        if |disk[sfile]| != size {
          return false;
        }
        var s := LoadSegmentEntries(segments[k]);
        if s.None? {
          return false;
        }
        segments := segments[k := s.value];
      }
      DropCache();
      segments := segments[k..];
      firstIndex := index;
      views := [v] + views[k + 1..];
      DescribedAfterFront(old(segments), old(views), segments, v, k);
      ok := true;
    }

    /** findSegment and loadSegment, which agree. */
    method CutPoint(index: nat) returns (ok: bool, k: nat)
      requires Valid() && firstIndex <= index <= lastIndex
      modifies this`cache, this`segments
      ensures ok && MemoryValid() && Resolved(index, k)
    {
      RangeOfViews();
      k := Locate(index);
      var at;
      ok, at := LoadSegment(index);
      ReachesUnique(disk, views, index, k, at);
    }

    /** The files of a front truncation. */
    method FrontFiles(k: nat, index: nat) returns (size: nat)
      requires Valid() && Resolved(index, k)
      modifies this`disk, this`trace
      ensures Covers(firstIndex, chunks, k, index) && |views| == |chunks|
      ensures trace == old(trace) + FrontOps(firstIndex, chunks, k, index)
      ensures disk == Run(old(disk), FrontOps(firstIndex, chunks, k, index))
      ensures size == |ViewOf(index, FrontChunks(firstIndex, chunks, k, index)[0]).bytes|
    {
      CutsAt(index, k);
      var s := segments[k];
      var epos := s.epos[index - s.index..];
      var ebuf := s.ebuf[epos[0].pos..];
      ReplaceFiles(ebuf, Start(index), 0, k + 1, Seg(index));
      assert Paths(segments)[0..k + 1] == SegNames(firstIndex, chunks)[..k + 1];
      size := |ebuf|;
    }

    /** The directory after a front truncation stands for the shortened log. */
    method CutFront(k: nat, index: nat) returns (size: nat, ghost next: seq<seq<Bytes>>)
      requires Valid() && Resolved(index, k)
      modifies this`disk, this`trace
      ensures Covers(firstIndex, chunks, k, index) && next == FrontChunks(firstIndex, chunks, k, index) && |next| >= 1
      ensures trace == old(trace) + FrontOps(firstIndex, chunks, k, index)
      ensures disk == Run(old(disk), FrontOps(firstIndex, chunks, k, index))
      ensures Denotes(disk, index, lastIndex + 1, if k == |views| - 1 then Seg(index) else sfile,
                      [ViewOf(index, next[0])] + views[k + 1..], next)
      ensures Log(index, Flatten(next)) == Contents().DropBefore(index)
      ensures ViewOf(index, next[0]).Stored(disk) && size == |ViewOf(index, next[0]).bytes|
    {
      size := FrontFiles(k, index);
      next := FrontChunks(firstIndex, chunks, k, index);
      FrontOutcome(old(disk), firstIndex, lastIndex + 1, sfile, views, chunks, k, index);
    }

    /** truncateFront once the segment to cut is found and decoded. */
    method TruncateFrontAt(k: nat, index: nat) returns (ok: bool)
      requires Valid() && Resolved(index, k)
      modifies this`disk, this`trace, this`cache, this`segments, this`sfile, this`views, this`chunks, this`firstIndex
      ensures ok && Valid()
      ensures Covers(old(firstIndex), old(chunks), k, index)
      ensures Contents() == old(Contents()).DropBefore(index)
      ensures chunks == FrontChunks(old(firstIndex), old(chunks), k, index) && firstIndex == index
      ensures trace == old(trace) + FrontOps(old(firstIndex), old(chunks), k, index)
      ensures disk == Run(old(disk), FrontOps(old(firstIndex), old(chunks), k, index))
    {
      hide MemoryValid, Denotes, Flatten, Log.DropBefore, FrontOps, FrontChunks, Covers, Run, Reaches;
      var size, next := CutFront(k, index);
      assert trace == old(trace) + FrontOps(old(firstIndex), old(chunks), k, index);
      ok := AdoptFront(k, index, size, ViewOf(index, next[0]));
      chunks := next;
    }

    /** truncateBack: the same steps at the other end. */
    method BackFiles(k: nat, index: nat) returns (size: nat)
      requires Valid() && Resolved(index, k)
      modifies this`disk, this`trace
      ensures Covers(firstIndex, chunks, k, index) && |views| == |chunks|
      ensures trace == old(trace) + BackOps(firstIndex, chunks, k, index)
      ensures disk == Run(old(disk), BackOps(firstIndex, chunks, k, index))
      ensures size == |ViewOf(views[k].start, BackChunks(firstIndex, chunks, k, index)[k]).bytes|
    {
      CutsAt(index, k);
      var s := segments[k];
      var epos := s.epos[..index - s.index + 1];
      var ebuf := s.ebuf[..epos[|epos| - 1].end];
      ReplaceFiles(ebuf, End(s.index), k, |segments|, Seg(s.index));
      assert Paths(segments)[k..|segments|] == SegNames(firstIndex, chunks)[k..];
      size := |ebuf|;
    }

    /** After the files of a back truncation: the cut segment becomes the tail, cached
        segments are dropped, later ones forgotten, the new tail is decoded again. */
    method AdoptBack(k: nat, index: nat, size: nat, ghost v: View) returns (ok: bool)
      requires MemoryValid() && k < |segments|
      requires v.start == views[k].start && v.Stored(disk) && size == |v.bytes|
      modifies this`cache, this`segments, this`views, this`sfile, this`lastIndex
      ensures ok && MemoryValid()
      ensures views == old(views)[..k] + [v] && lastIndex == index
      ensures sfile == Seg(v.start)
    {
      assert segments[k].Describes(views[k]);
      sfile := segments[k].path;
      if |disk[sfile]| != size {
        return false;
      }
      DropCache();
      segments := segments[..k + 1];
      lastIndex := index;
      assert segments[k].path == Seg(v.start);
      var s := LoadSegmentEntries(segments[k]);
      if s.None? {
        return false;
      }
      segments := segments[k := s.value];
      views := views[..k] + [v];
      DescribedAfterBack(old(segments), old(views), segments, v, k);
      ok := true;
    }

    method CutBack(k: nat, index: nat) returns (size: nat, ghost next: seq<seq<Bytes>>)
      requires Valid() && Resolved(index, k)
      modifies this`disk, this`trace
      ensures Covers(firstIndex, chunks, k, index) && next == BackChunks(firstIndex, chunks, k, index) && k < |next|
      ensures trace == old(trace) + BackOps(firstIndex, chunks, k, index)
      ensures disk == Run(old(disk), BackOps(firstIndex, chunks, k, index))
      ensures Denotes(disk, firstIndex, index + 1, Seg(views[k].start),
                      views[..k] + [ViewOf(views[k].start, next[k])], next)
      ensures Log(firstIndex, Flatten(next)) == Contents().KeepThrough(index)
      ensures ViewOf(views[k].start, next[k]).Stored(disk) && size == |ViewOf(views[k].start, next[k]).bytes|
    {
      size := BackFiles(k, index);
      next := BackChunks(firstIndex, chunks, k, index);
      BackOutcome(old(disk), firstIndex, lastIndex + 1, sfile, views, chunks, k, index);
    }

    method TruncateBackAt(k: nat, index: nat) returns (ok: bool)
      requires Valid() && Resolved(index, k)
      modifies this`disk, this`trace, this`cache, this`segments, this`sfile, this`views, this`chunks, this`lastIndex
      ensures ok && Valid()
      ensures Covers(firstIndex, old(chunks), k, index)
      ensures Contents() == old(Contents()).KeepThrough(index)
      ensures chunks == BackChunks(firstIndex, old(chunks), k, index)
      ensures trace == old(trace) + BackOps(firstIndex, old(chunks), k, index)
      ensures disk == Run(old(disk), BackOps(firstIndex, old(chunks), k, index))
    {
      hide MemoryValid, Denotes, Flatten, Log.KeepThrough, BackOps, BackChunks, Covers, Run, Reaches;
      var size, next := CutBack(k, index);
      assert trace == old(trace) + BackOps(old(firstIndex), old(chunks), k, index);
      ok := AdoptBack(k, index, size, ViewOf(views[k].start, next[k]));
      chunks := next;
    }

    method FrontWithin(index: nat) returns (ok: bool, ghost k: nat)
      requires Valid() && firstIndex <= index <= lastIndex
      modifies this`disk, this`trace, this`cache, this`segments, this`sfile, this`views, this`chunks, this`firstIndex
      ensures ok && Valid()
      ensures Covers(old(firstIndex), old(chunks), k, index)
      ensures Contents() == old(Contents()).DropBefore(index)
      ensures chunks == FrontChunks(old(firstIndex), old(chunks), k, index) && firstIndex == index
      ensures trace == old(trace) + FrontOps(old(firstIndex), old(chunks), k, index)
      ensures disk == Run(old(disk), FrontOps(old(firstIndex), old(chunks), k, index))
    {
      var at;
      ok, at := CutPoint(index);
      k := at;
      ok := TruncateFrontAt(at, index);
    }

    method BackWithin(index: nat) returns (ok: bool, ghost k: nat)
      requires Valid() && firstIndex <= index <= lastIndex
      modifies this`disk, this`trace, this`cache, this`segments, this`sfile, this`views, this`chunks, this`lastIndex
      ensures ok && Valid()
      ensures Covers(firstIndex, old(chunks), k, index)
      ensures Contents() == old(Contents()).KeepThrough(index)
      ensures chunks == BackChunks(firstIndex, old(chunks), k, index)
      ensures trace == old(trace) + BackOps(firstIndex, old(chunks), k, index)
      ensures disk == Run(old(disk), BackOps(firstIndex, old(chunks), k, index))
    {
      var at;
      ok, at := CutPoint(index);
      k := at;
      ok := TruncateBackAt(at, index);
    }

    ghost predicate InRange(index: nat)
      reads this
    {
      index != 0 && lastIndex != 0 && firstIndex <= index <= lastIndex
    }

    /** TruncateFront: the entry at `index` becomes the first. */
    method TruncateFront(index: nat) returns (err: Error, ghost k: nat)
      requires Valid()
      modifies this`disk, this`trace, this`cache, this`segments, this`sfile, this`views, this`chunks, this`firstIndex
      ensures Valid()
      ensures err == if corrupt then ErrCorrupt else if closed then ErrClosed
                     else if old(InRange(index)) then NoError else ErrOutOfRange
      ensures Contents() == if err == NoError then old(Contents()).DropBefore(index) else old(Contents())
      ensures err == NoError && index > old(firstIndex) ==>
                && Covers(old(firstIndex), old(chunks), k, index)
                && firstIndex == index && chunks == FrontChunks(old(firstIndex), old(chunks), k, index)
                && trace == old(trace) + FrontOps(old(firstIndex), old(chunks), k, index)
                && disk == Run(old(disk), FrontOps(old(firstIndex), old(chunks), k, index))
      ensures !(err == NoError && index > old(firstIndex)) ==>
                && trace == old(trace) && disk == old(disk) && chunks == old(chunks) && firstIndex == old(firstIndex)
    {
      hide Meaning, MemoryValid, Covers, FrontOps, FrontChunks, Flatten;
      RangeOfLog();
      err, k := NoError, 0;
      if corrupt {
        err := ErrCorrupt;
      } else if closed {
        err := ErrClosed;
      } else if index == 0 || lastIndex == 0 || index < firstIndex || index > lastIndex {
        err := ErrOutOfRange;
      } else if index != firstIndex {
        var ok;
        ok, k := FrontWithin(index);
        err := if ok then NoError else ErrCorrupt;
      }
    }

    /** TruncateBack: the entry at `index` becomes the last. */
    method TruncateBack(index: nat) returns (err: Error, ghost k: nat)
      requires Valid()
      modifies this`disk, this`trace, this`cache, this`segments, this`sfile, this`views, this`chunks, this`lastIndex
      ensures Valid()
      ensures err == if corrupt then ErrCorrupt else if closed then ErrClosed
                     else if old(InRange(index)) then NoError else ErrOutOfRange
      ensures Contents() == if err == NoError then old(Contents()).KeepThrough(index) else old(Contents())
      ensures err == NoError && index < old(lastIndex) ==>
                && Covers(firstIndex, old(chunks), k, index)
                && chunks == BackChunks(firstIndex, old(chunks), k, index)
                && trace == old(trace) + BackOps(firstIndex, old(chunks), k, index)
                && disk == Run(old(disk), BackOps(firstIndex, old(chunks), k, index))
      ensures !(err == NoError && index < old(lastIndex)) ==>
                trace == old(trace) && disk == old(disk) && chunks == old(chunks)
    {
      hide Meaning, MemoryValid, Covers, BackOps, BackChunks, Flatten;
      RangeOfLog();
      err, k := NoError, 0;
      if corrupt {
        err := ErrCorrupt;
      } else if closed {
        err := ErrClosed;
      } else if index == 0 || lastIndex == 0 || index < firstIndex || index > lastIndex {
        err := ErrOutOfRange;
      } else if index != lastIndex {
        var ok;
        ok, k := BackWithin(index);
        err := if ok then NoError else ErrCorrupt;
      }
    }

    /** Close: the log refuses everything from then on, its files are as they were. */
    method Close() returns (err: Error)
      requires Valid()
      modifies this`closed
      ensures Valid() && closed
      ensures err == if corrupt then ErrCorrupt else if old(closed) then ErrClosed else NoError
    {
      if closed {
        return if corrupt then ErrCorrupt else ErrClosed;
      }
      closed := true;
      err := if corrupt then ErrCorrupt else NoError;
    }

    // ----- opening -----

    /** Create: a log over a directory, not yet loaded. */
    constructor (disk: Disk, segmentSize: int, cacheSize: int)
      ensures this.disk == disk && this.segmentSize >= 1 && this.cacheSize >= 1
      ensures this.segmentSize == if segmentSize >= 1 then segmentSize else 10485760
      ensures this.cacheSize == if cacheSize >= 1 then cacheSize else 2
      ensures segments == [] && cache == [] && trace == [] && !closed && !corrupt
    {
      this.disk := disk;
      this.segmentSize := if segmentSize <= 0 then DEFAULT_SEGMENT_SIZE else segmentSize;
      this.cacheSize := if cacheSize <= 0 then DEFAULT_CACHE_SIZE else cacheSize;
      segments, cache, firstIndex, lastIndex, sfile := [], [], 0, 0, Temp;
      closed, corrupt, views, chunks, trace := false, false, [], [], [];
    }

    /** Delete all files leading up to START and rename it. */
    method CleanUpToStart(segs: seq<Segment>, startIdx: nat, ghost names: seq<FileName>) returns (r: seq<Segment>)
      requires AllRelevant(names) && segs == Unloaded(names) && startIdx < |segs|
      requires startIdx == StartPos(names) && EndPos(names) == -1
      modifies this`disk, this`trace
      ensures LoadPlan(names).Plan? && r == Unloaded(LoadPlan(names).segs)
      ensures trace == old(trace) + LoadPlan(names).ops && disk == Run(old(disk), LoadPlan(names).ops)
    {
      hide Run, Apply, LoadPlan, Unloaded, Removes;
      StartPlan(names, startIdx);
      RemoveBefore(segs, startIdx, names);
      r := segs[startIdx..];
      var final := Seg(r[0].index);
      RunSnoc(old(disk), Removes(names[..startIdx]), Rename(r[0].path, final));
      Do(Rename(r[0].path, final));
      r := r[0 := r[0].(path := final)];
    }

    method RemoveBefore(segs: seq<Segment>, startIdx: nat, ghost names: seq<FileName>)
      requires AllRelevant(names) && segs == Unloaded(names) && startIdx < |segs|
      modifies this`disk, this`trace
      ensures trace == old(trace) + Removes(names[..startIdx]) && disk == Run(old(disk), Removes(names[..startIdx]))
    {
      hide Apply;
      var i := 0;
      while i < startIdx
        invariant 0 <= i <= startIdx
        invariant trace == old(trace) + Removes(names[0..i]) && disk == Run(old(disk), Removes(names[0..i]))
      {
        RemovesStep(names, 0, i);
        RunSnoc(old(disk), Removes(names[0..i]), Remove(segs[i].path));
        Do(Remove(segs[i].path));
        i := i + 1;
      }
      assert names[0..startIdx] == names[..startIdx];
    }

    method RemoveAfter(segs: seq<Segment>, endIdx: nat, ghost rest: seq<FileName>)
      requires endIdx < |segs| && |rest| == |segs| - 1 - endIdx
      requires forall i :: endIdx < i < |segs| ==> segs[i].path == rest[i - endIdx - 1]
      modifies this`disk, this`trace
      ensures trace == old(trace) + RemovesBack(rest) && disk == Run(old(disk), RemovesBack(rest))
    {
      var i := |segs| - 1;
      while i > endIdx
        invariant endIdx <= i < |segs|
        invariant trace == old(trace) + RemovesBack(rest)[..|segs| - 1 - i]
        invariant disk == Run(old(disk), RemovesBack(rest)[..|segs| - 1 - i])
      {
        BackStep(rest, |segs| - 1 - i);
        RunSnoc(old(disk), RemovesBack(rest)[..|segs| - 1 - i], Remove(segs[i].path));
        Do(Remove(segs[i].path));
        i := i - 1;
      }
      assert RemovesBack(rest)[..|segs| - 1 - i] == RemovesBack(rest);
    }

    /** Delete all files following END and rename it over the segment it replaces. */
    method CleanAfterEnd(segs: seq<Segment>, endIdx: nat, ghost names: seq<FileName>) returns (r: seq<Segment>)
      requires AllRelevant(names) && segs == Unloaded(names) && endIdx < |segs|
      requires endIdx == EndPos(names) && StartPos(names) == -1
      modifies this`disk, this`trace
      ensures LoadPlan(names).Plan? && r == Unloaded(LoadPlan(names).segs)
      ensures trace == old(trace) + LoadPlan(names).ops && disk == Run(old(disk), LoadPlan(names).ops)
    {
      RemoveAfter(segs, endIdx, names[endIdx + 1..]);
      var final := Seg(segs[endIdx].index);
      RunSnoc(old(disk), RemovesBack(names[endIdx + 1..]), Rename(segs[endIdx].path, final));
      Do(Rename(segs[endIdx].path, final));
      r := KeepThroughEnd(segs, endIdx, names);
    }

    /** load up to the point where the files are in order. */
    method CleanUp() returns (ok: bool, segs: seq<Segment>, ghost names: seq<FileName>)
      modifies this`disk, this`trace
      ensures IsListing(old(disk), names) && AllRelevant(names)
      ensures ok <==> LoadPlan(names).Plan?
      ensures ok ==> segs == Unloaded(LoadPlan(names).segs)
      ensures ok ==> trace == old(trace) + LoadPlan(names).ops && disk == Run(old(disk), LoadPlan(names).ops)
      ensures !ok ==> trace == old(trace) && disk == old(disk)
    {
      var listing := ReadDir(disk);
      names := listing;
      ListingRelevant(disk, names);
      var startIdx, endIdx;
      segs, startIdx, endIdx := Classify(listing);
      ok := true;
      if |segs| == 0 {
        segs := [Segment(Seg(1), 1, [], [])];
        RunOne(disk, Create(Seg(1)));
        Do(Create(Seg(1)));
      } else if startIdx != -1 {
        if endIdx != -1 {
          ok := false;
        } else {
          segs := CleanUpToStart(segs, startIdx, names);
        }
      } else if endIdx != -1 {
        segs := CleanAfterEnd(segs, endIdx, names);
      }
    }

    /** What load has established when it succeeds with the plan. */
    ghost predicate TailOpened(plan: Plan)
      requires plan.Plan? && |plan.segs| > 0 && AllRelevant(plan.segs)
      reads this
    {
      TailRead(disk, plan.segs, segments, firstIndex, lastIndex + 1, sfile)
    }

    /** The end of load: open the tail segment and decode it. */
    method OpenTail(segs: seq<Segment>, ghost plan: Plan) returns (ok: bool)
      requires plan.Plan? && |plan.segs| > 0 && AllRelevant(plan.segs) && segs == Unloaded(plan.segs)
      modifies this`segments, this`firstIndex, this`lastIndex, this`sfile
      ensures ok <==> plan.segs[|plan.segs| - 1] in disk && Scan(disk[plan.segs[|plan.segs| - 1]], 0).Some?
      ensures ok ==> TailOpened(plan)
    {
      var n := |segs| - 1;
      firstIndex := segs[0].index;
      sfile := segs[n].path;
      if sfile !in disk {
        return false;
      }
      var data := disk[sfile];
      var epos := LoadEntries(data);
      if epos.None? {
        return false;
      }
      segments := segs[n := segs[n].(ebuf := data, epos := epos.value)];
      lastIndex := segs[n].index + |epos.value| - 1;
      ok := true;
    }

    method Opening() returns (ok: bool, ghost names: seq<FileName>)
      modifies this`disk, this`trace, this`segments, this`firstIndex, this`lastIndex, this`sfile
      ensures IsListing(old(disk), names) && AllRelevant(names)
      ensures ok <==> Recover(old(disk), names).Opened?
      ensures ok ==> LoadPlan(names).Plan? && TailOpened(LoadPlan(names))
      ensures LoadPlan(names).Plan? ==>
                trace == old(trace) + LoadPlan(names).ops && disk == Run(old(disk), LoadPlan(names).ops)
      ensures !LoadPlan(names).Plan? ==> trace == old(trace) && disk == old(disk)
    {
      hide Run, Scan, Unloaded, LoadPlan, IsListing, TailOpened;
      var segs;
      ok, segs, names := CleanUp();
      if ok {
        ok := OpenTail(segs, LoadPlan(names));
      }
    }

    /** An opened directory that stands for a log makes the object hold that log. */
    lemma OpenedIsValid(plan: Plan, first: nat, log: seq<seq<Bytes>>)
      requires segmentSize >= 1 && cacheSize >= 1 && cache == []
      requires plan.Plan? && |plan.segs| > 0 && AllRelevant(plan.segs) && plan.segs == SegNames(first, log)
      requires TailOpened(plan) && Holds(disk, first, log)
      requires chunks == log && views == Views(first, log)
      ensures Valid() && Contents() == Log(first, Flatten(log)) && firstIndex == first
    {
      hide Scan, FrameAll, Positions, Flatten, Holds;
      TailFile(disk, first, log);
      DenotesDisk(disk, first, log);
      OpenedCoherent(first, log, segments, cacheSize);
    }

    /** load. For every log the directory stands for - `first` and `log` are any - the object
        ends up holding that log. */
    method Load(ghost first: nat, ghost log: seq<seq<Bytes>>) returns (ok: bool, ghost names: seq<FileName>)
      requires segmentSize >= 1 && cacheSize >= 1 && cache == []
      modifies this`disk, this`trace, this`segments, this`firstIndex, this`lastIndex, this`sfile, this`views,
               this`chunks
      ensures IsListing(old(disk), names) && AllRelevant(names)
      ensures ok <==> Recover(old(disk), names).Opened?
      ensures LoadPlan(names).Plan? ==>
                trace == old(trace) + LoadPlan(names).ops && disk == Run(old(disk), LoadPlan(names).ops)
      ensures !LoadPlan(names).Plan? ==> !ok && trace == old(trace) && disk == old(disk)
      ensures Recoverable(old(disk), first, log) || Empty(old(disk), first, log) ==>
                ok && Valid() && Contents() == Log(first, Flatten(log)) && firstIndex == first && chunks == log
    {
      hide Denotes, Coherent, Holds, Recover, LoadPlan, Flatten;
      ok, names := Opening();
      chunks, views := log, Views(first, log);
      if Recoverable(old(disk), first, log) || Empty(old(disk), first, log) {
        RecoverExecutes(old(disk), names, first, log);
        OpenedIsValid(LoadPlan(names), first, log);
      }
    }
  }
}
