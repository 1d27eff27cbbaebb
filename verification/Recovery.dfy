/** Opening a log directory: the cleanup `load` plans from a listing, and the proof that it
    rebuilds one and the same log from every directory a crash can leave behind. */
module Recovery {
  import opened Framing
  import opened LogDirectory

  // ----- load -----

  /** Index of the last START file of the listing, -1 for none. */
  function StartPos(names: seq<FileName>): (r: int)
    ensures -1 <= r < |names|
    ensures r >= 0 ==> names[r].Start?
    ensures forall i :: r < i < |names| ==> !names[i].Start?
    decreases |names|
  {
    if names == [] then -1
    else if names[|names| - 1].Start? then |names| - 1
    else StartPos(names[..|names| - 1])
  }

  /** Index of the first END file of the listing, -1 for none. */
  function EndPos(names: seq<FileName>): (r: int)
    ensures -1 <= r < |names|
    ensures r >= 0 ==> names[r].End? && forall i :: 0 <= i < r ==> !names[i].End?
    ensures r < 0 ==> forall i :: 0 <= i < |names| ==> !names[i].End?
    decreases |names|
  {
    if names == [] then -1
    else
      var p := EndPos(names[..|names| - 1]);
      if p >= 0 then p else if names[|names| - 1].End? then |names| - 1 else -1
  }

  /** File operations and resulting segment files, or the START-and-END conflict. */
  datatype Plan = Conflict | Plan(ops: seq<FsOp>, segs: seq<FileName>)

  function Removes(names: seq<FileName>): (ops: seq<FsOp>)
    ensures |ops| == |names|
  {
    seq(|names|, i requires 0 <= i < |names| => Remove(names[i]))
  }

  function RemovesBack(names: seq<FileName>): (ops: seq<FsOp>)
    ensures |ops| == |names|
  {
    seq(|names|, i requires 0 <= i < |names| => Remove(names[|names| - 1 - i]))
  }

  ghost predicate AllRelevant(names: seq<FileName>)
  {
    forall i :: 0 <= i < |names| ==> Relevant(names[i])
  }

  function LoadPlan(names: seq<FileName>): (p: Plan)
    requires AllRelevant(names)
    ensures p.Plan? ==> |p.segs| > 0 && AllRelevant(p.segs)
  {
    if names == [] then Plan([Create(Seg(1))], [Seg(1)])
    else
      var s, e := StartPos(names), EndPos(names);
      if s >= 0 && e >= 0 then Conflict
      else if s >= 0 then
        var final := Seg(names[s].index);
        Plan(Removes(names[..s]) + [Rename(names[s], final)], [final] + names[s + 1..])
      else if e >= 0 then
        var final := Seg(names[e].index);
        // the segment before END that shares its index is overwritten by the rename
        var kept := if e > 0 && names[e - 1].index == names[e].index then names[..e - 1] else names[..e];
        Plan(RemovesBack(names[e + 1..]) + [Rename(names[e], final)], kept + [final])
      else Plan([], names)
  }

  datatype Opened =
    | Corrupted
    | Opened(disk: Disk, segs: seq<FileName>, firstIndex: nat, lastIndex: int)

  /** Carry out a plan, then decode the tail segment. */
  function Execute(d: Disk, plan: Plan): Opened
    requires plan.Plan? ==> |plan.segs| > 0 && AllRelevant(plan.segs)
  {
    match plan
    case Conflict => Corrupted
    case Plan(ops, segs) =>
      var d' := Run(d, ops);
      var tail := segs[|segs| - 1];
      if tail !in d' then Corrupted
      else match Scan(d'[tail], 0)
        case None => Corrupted
        case Some(ps) => Opened(d', segs, segs[0].index, tail.index + |ps| - 1)
  }

  /** The whole of `load`. */
  function Recover(d: Disk, names: seq<FileName>): Opened
    requires AllRelevant(names)
  {
    Execute(d, LoadPlan(names))
  }

  /** The opened log is `log`: healthy directory, its segments in order, its index range. */
  ghost predicate Opens(o: Opened, first: nat, chunks: seq<seq<Bytes>>)
  {
    && o.Opened?
    && Holds(o.disk, first, chunks)
    && o.segs == SegNames(first, chunks)
    && o.firstIndex == first
    && o.lastIndex == first + |Flatten(chunks)| - 1
  }

  ghost predicate OpensAs(o: Opened, log: Log)
  {
    exists chunks :: Opens(o, log.first, chunks) && Flatten(chunks) == log.entries
  }

  // ----- the directories load repairs -----

  /** A front truncation past its point of no return: START holds the new first segment,
      segments that only start before it may still be around with any contents. */
  ghost predicate FrontForm(d: Disk, first: nat, chunks: seq<seq<Bytes>>)
  {
    && WellFormed(first, chunks)
    && Start(first) in d && d[Start(first)] == FrameAll(chunks[0])
    && (forall k :: 1 <= k < |chunks| ==> SegmentOk(d, first, chunks, k))
    && (forall n :: n in d && Relevant(n) ==>
          n == Start(first) || (n.Seg? && n.index <= first) || n in SegNames(first, chunks)[1..])
  }

  /** A back truncation past its point of no return: END holds the new last segment,
      segments that start at or after it may still be around with any contents. */
  ghost predicate BackForm(d: Disk, first: nat, chunks: seq<seq<Bytes>>)
  {
    && WellFormed(first, chunks)
    && var m := |chunks| - 1;
    && var s := StartOf(first, chunks, m);
    && End(s) in d && d[End(s)] == FrameAll(chunks[m])
    && (forall k :: 0 <= k < m ==> SegmentOk(d, first, chunks, k))
    && (forall n :: n in d && Relevant(n) ==>
          n == End(s) || (n.Seg? && n.index >= s) || n in SegNames(first, chunks)[..m])
  }

  ghost predicate Recoverable(d: Disk, first: nat, chunks: seq<seq<Bytes>>)
  {
    Holds(d, first, chunks) || FrontForm(d, first, chunks) || BackForm(d, first, chunks)
  }

  // ----- reading the forms off a listing -----

  lemma ListingOfHolds(d: Disk, names: seq<FileName>, first: nat, chunks: seq<seq<Bytes>>)
    requires Holds(d, first, chunks) && IsListing(d, names)
    ensures names == SegNames(first, chunks)
  {
    var segs := SegNames(first, chunks);
    SegNamesAscend(first, chunks);
    forall n ensures n in names <==> n in segs {
      if n in segs {
        var k :| 0 <= k < |segs| && segs[k] == n;
        assert SegmentOk(d, first, chunks, k);
      }
    }
    AscendingUnique(names, segs);
  }

  lemma {:induction false} AscendingSlice(names: seq<FileName>, i: nat, j: nat)
    requires Ascending(names) && i <= j <= |names|
    ensures Ascending(names[i..j])
  {
    forall x, y | 0 <= x < y < j - i ensures Rank(names[i..j][x]) < Rank(names[i..j][y]) {
      assert names[i..j][x] == names[i + x] && names[i..j][y] == names[i + y];
    }
  }

  /** A listed name sits in the listing at some place, and a directory name is listed. */
  lemma Listed(d: Disk, names: seq<FileName>, n: FileName) returns (i: nat)
    requires IsListing(d, names) && n in d && Relevant(n)
    ensures i < |names| && names[i] == n
  {
    assert n in names;
    i :| 0 <= i < |names| && names[i] == n;
  }

  lemma SegsAfterFirst(first: nat, chunks: seq<seq<Bytes>>)
    requires WellFormed(first, chunks)
    ensures forall n :: n in SegNames(first, chunks)[1..] ==> n.Seg? && n.index > first
  {
    var segs := SegNames(first, chunks);
    forall n | n in segs[1..] ensures n.Seg? && n.index > first {
      var k :| 1 <= k < |segs| && segs[k] == n;
      StartsIncrease(first, chunks, 0, k);
    }
  }

  lemma SegsBeforeLast(first: nat, chunks: seq<seq<Bytes>>)
    requires WellFormed(first, chunks)
    ensures forall n :: n in SegNames(first, chunks)[..|chunks| - 1] ==>
              n.Seg? && 0 < n.index < StartOf(first, chunks, |chunks| - 1)
  {
    var m := |chunks| - 1;
    var segs := SegNames(first, chunks);
    forall n | n in segs[..m] ensures n.Seg? && 0 < n.index < StartOf(first, chunks, m) {
      var k :| 0 <= k < m && segs[k] == n;
      StartsIncrease(first, chunks, k, m);
    }
  }

  // ----- plans of listings of known shape -----

  lemma PlanOfSegments(names: seq<FileName>)
    requires |names| > 0 && AllRelevant(names) && forall i :: 0 <= i < |names| ==> names[i].Seg?
    ensures LoadPlan(names) == Plan([], names)
  {
    assert StartPos(names) == -1;
    assert EndPos(names) == -1;
  }

  lemma PlanAtStart(names: seq<FileName>, p: nat)
    requires p < |names| && AllRelevant(names) && names[p].Start?
    requires forall i :: 0 <= i < |names| && i != p ==> names[i].Seg?
    ensures LoadPlan(names)
         == Plan(Removes(names[..p]) + [Rename(names[p], Seg(names[p].index))], [Seg(names[p].index)] + names[p + 1..])
  {
    assert StartPos(names) == p;
    assert EndPos(names) == -1;
  }

  lemma PlanAtEnd(names: seq<FileName>, p: nat, kept: seq<FileName>)
    requires p < |names| && AllRelevant(names) && names[p].End?
    requires forall i :: 0 <= i < |names| && i != p ==> names[i].Seg?
    requires if p > 0 && names[p - 1].index == names[p].index then kept == names[..p - 1] else kept == names[..p]
    ensures LoadPlan(names)
         == Plan(RemovesBack(names[p + 1..]) + [Rename(names[p], Seg(names[p].index))], kept + [Seg(names[p].index)])
  {
    assert StartPos(names) == -1;
    assert EndPos(names) == p;
  }

  lemma RemovesHas(names: seq<FileName>)
    ensures forall n :: n in names ==> Remove(n) in Removes(names) && Remove(n) in RemovesBack(names)
  {
    forall n | n in names ensures Remove(n) in Removes(names) && Remove(n) in RemovesBack(names) {
      var i :| 0 <= i < |names| && names[i] == n;
      assert Removes(names)[i] == Remove(n);
      assert RemovesBack(names)[|names| - 1 - i] == Remove(n);
    }
  }

  /** In a front-form listing the names before START are leftovers, those after it
      segments of the new log. */
  lemma FrontListing(d: Disk, names: seq<FileName>, first: nat, chunks: seq<seq<Bytes>>) returns (p: nat)
    requires FrontForm(d, first, chunks) && IsListing(d, names)
    ensures p < |names| && names[p] == Start(first)
    ensures forall i :: 0 <= i < p ==> names[i].Seg? && names[i].index <= first
    ensures forall i :: p < i < |names| ==> names[i].Seg? && names[i] in SegNames(first, chunks)[1..]
  {
    var segs := SegNames(first, chunks);
    p := Listed(d, names, Start(first));
    SegsAfterFirst(first, chunks);
    forall i | 0 <= i < |names| && i != p ensures
      if i < p then names[i].Seg? && names[i].index <= first else names[i].Seg? && names[i] in segs[1..]
    {
      assert names[i] in names;
    }
  }

  lemma InOrder(names: seq<FileName>, i: nat, j: nat)
    requires Ascending(names) && i < |names| && j < |names| && Rank(names[i]) < Rank(names[j])
    ensures i < j
  {
    hide Rank;
  }

  lemma FrontListed(d: Disk, names: seq<FileName>, first: nat, chunks: seq<seq<Bytes>>, p: nat, n: FileName)
    requires FrontForm(d, first, chunks) && IsListing(d, names) && p < |names| && names[p] == Start(first)
    requires n in SegNames(first, chunks)[1..]
    ensures n in names[p + 1..]
  {
    hide IsListing, Ascending;
    var k :| 1 <= k < |chunks| && SegNames(first, chunks)[k] == n;
    assert SegmentOk(d, first, chunks, k);
    StartsIncrease(first, chunks, 0, k);
    var i := Listed(d, names, n);
    ListingAscends(d, names);
    InOrder(names, p, i);
    assert names[p + 1..][i - p - 1] == n;
  }

  lemma ListingAscends(d: Disk, names: seq<FileName>)
    requires IsListing(d, names)
    ensures Ascending(names)
  {
  }

  lemma ListingOfFront(d: Disk, names: seq<FileName>, first: nat, chunks: seq<seq<Bytes>>) returns (p: nat)
    requires FrontForm(d, first, chunks) && IsListing(d, names)
    ensures p < |names| && names[p] == Start(first)
    ensures forall i :: 0 <= i < p ==> names[i].Seg? && names[i].index <= first
    ensures forall i :: p < i < |names| ==> names[i].Seg?
    ensures names[p + 1..] == SegNames(first, chunks)[1..]
  {
    hide Ascending, IsListing, SegNames;
    var segs := SegNames(first, chunks);
    p := FrontListing(d, names, first, chunks);
    ListingAscends(d, names);
    SegNamesAscend(first, chunks);
    AscendingSlice(names, p + 1, |names|);
    AscendingSlice(segs, 1, |segs|);
    forall n ensures n in names[p + 1..] <==> n in segs[1..] {
      if n in segs[1..] {
        FrontListed(d, names, first, chunks, p, n);
      }
    }
    AscendingUnique(names[p + 1..], segs[1..]);
  }

  /** In a back-form listing the names before END are segments of the new log and possibly
      the one END replaces, those after it leftovers. */
  lemma BackListing(d: Disk, names: seq<FileName>, first: nat, chunks: seq<seq<Bytes>>, s: nat) returns (p: nat)
    requires BackForm(d, first, chunks) && IsListing(d, names) && s == StartOf(first, chunks, |chunks| - 1)
    ensures p < |names| && names[p] == End(s)
    ensures forall i :: 0 <= i < p ==>
              names[i].Seg? && (names[i] == Seg(s) || names[i] in SegNames(first, chunks)[..|chunks| - 1])
    ensures forall i :: p < i < |names| ==> names[i].Seg? && names[i].index > s
  {
    var segs := SegNames(first, chunks);
    var m := |chunks| - 1;
    p := Listed(d, names, End(s));
    SegsBeforeLast(first, chunks);
    forall i | 0 <= i < |names| && i != p ensures
      if i < p then names[i].Seg? && (names[i] == Seg(s) || names[i] in segs[..m])
      else names[i].Seg? && names[i].index > s
    {
      assert names[i] in names;
    }
  }

  /** The segments expected before END: those of the new log but the last, and the
      segment END replaces while it is still there. */
  ghost function BeforeEnd(d: Disk, first: nat, chunks: seq<seq<Bytes>>): seq<FileName>
    requires |chunks| >= 1
  {
    if Seg(StartOf(first, chunks, |chunks| - 1)) in d then SegNames(first, chunks)
    else SegNames(first, chunks)[..|chunks| - 1]
  }

  lemma BeforeEndOnDisk(d: Disk, first: nat, chunks: seq<seq<Bytes>>, s: nat, n: FileName)
    requires WellFormed(first, chunks) && s == StartOf(first, chunks, |chunks| - 1)
    requires forall k :: 0 <= k < |chunks| - 1 ==> SegmentOk(d, first, chunks, k)
    requires n in BeforeEnd(d, first, chunks)
    ensures n in d && n.Seg? && 0 < n.index <= s
  {
    var before := BeforeEnd(d, first, chunks);
    var k :| 0 <= k < |before| && before[k] == n;
    assert n == SegNames(first, chunks)[k];
    if k < |chunks| - 1 {
      assert SegmentOk(d, first, chunks, k);
      StartsIncrease(first, chunks, k, |chunks| - 1);
    }
  }

  lemma BeforeEndListed(d: Disk, names: seq<FileName>, first: nat, chunks: seq<seq<Bytes>>, s: nat, p: nat, n: FileName)
    requires BackForm(d, first, chunks) && IsListing(d, names) && s == StartOf(first, chunks, |chunks| - 1)
    requires p < |names| && names[p] == End(s)
    requires n in BeforeEnd(d, first, chunks)
    ensures n in names[..p]
  {
    hide IsListing, Ascending, BeforeEnd;
    BeforeEndOnDisk(d, first, chunks, s, n);
    var i := Listed(d, names, n);
    ListingAscends(d, names);
    InOrder(names, i, p);
    assert names[..p][i] == n;
  }

  lemma BeforeEndAscends(d: Disk, first: nat, chunks: seq<seq<Bytes>>)
    requires WellFormed(first, chunks)
    ensures Ascending(BeforeEnd(d, first, chunks))
  {
    SegNamesAscend(first, chunks);
    AscendingSlice(SegNames(first, chunks), 0, |chunks| - 1);
    assert SegNames(first, chunks)[0..|chunks| - 1] == SegNames(first, chunks)[..|chunks| - 1];
  }

  lemma ListingOfBack(d: Disk, names: seq<FileName>, first: nat, chunks: seq<seq<Bytes>>, s: nat) returns (p: nat)
    requires BackForm(d, first, chunks) && IsListing(d, names) && s == StartOf(first, chunks, |chunks| - 1)
    ensures p < |names| && names[p] == End(s)
    ensures forall i :: 0 <= i < p ==> names[i].Seg?
    ensures forall i :: p < i < |names| ==> names[i].Seg? && names[i].index > s
    ensures names[..p] == BeforeEnd(d, first, chunks)
  {
    p := BackListing(d, names, first, chunks, s);
    var want := BeforeEnd(d, first, chunks);
    BeforeEndAscends(d, first, chunks);
    AscendingSlice(names, 0, p);
    assert names[0..p] == names[..p];
    assert SegNames(first, chunks) == SegNames(first, chunks)[..|chunks| - 1] + [Seg(s)];
    forall n ensures n in names[..p] <==> n in want {
      if n in want {
        BeforeEndListed(d, names, first, chunks, s, p, n);
      }
      if n in names[..p] {
        assert n in names;
      }
    }
    AscendingUnique(names[..p], want);
  }

  // ----- cleanup keeps the directory recoverable, step by step -----

  /** Removing some names from a directory. */
  lemma {:induction false} RunRemoves(d: Disk, ops: seq<FsOp>)
    requires forall i :: 0 <= i < |ops| ==> ops[i].Remove?
    ensures forall n :: n in Run(d, ops) <==> n in d && Remove(n) !in ops
    ensures forall n :: n in Run(d, ops) ==> Run(d, ops)[n] == d[n]
    decreases |ops|
  {
    if ops != [] {
      var m := |ops| - 1;
      assert ops == ops[..m] + [ops[m]];
      RunRemoves(d, ops[..m]);
    }
  }

  /** Renaming START onto the final name completes a front truncation. */
  lemma FrontRename(d: Disk, first: nat, chunks: seq<seq<Bytes>>)
    requires FrontForm(d, first, chunks)
    requires forall n :: n in d && n.Seg? && n.index > 0 ==> n.index > first
    ensures Holds(Apply(d, Rename(Start(first), Seg(first))), first, chunks)
  {
    var d' := Apply(d, Rename(Start(first), Seg(first)));
    var segs := SegNames(first, chunks);
    assert segs[0] == Seg(first);
    forall k | 0 <= k < |chunks| ensures SegmentOk(d', first, chunks, k) {
      if k > 0 {
        StartsIncrease(first, chunks, 0, k);
        assert SegmentOk(d, first, chunks, k);
      }
    }
  }

  lemma BackRename(d: Disk, first: nat, chunks: seq<seq<Bytes>>, s: nat)
    requires BackForm(d, first, chunks) && s == StartOf(first, chunks, |chunks| - 1)
    requires forall n :: n in d && n.Seg? ==> n.index <= s
    ensures Holds(Apply(d, Rename(End(s), Seg(s))), first, chunks)
  {
    var d' := Apply(d, Rename(End(s), Seg(s)));
    var m := |chunks| - 1;
    var segs := SegNames(first, chunks);
    assert segs[m] == Seg(s);
    forall k | 0 <= k < |chunks| ensures SegmentOk(d', first, chunks, k) {
      if k < m {
        StartsIncrease(first, chunks, k, m);
        assert SegmentOk(d, first, chunks, k);
      }
    }
    forall n | n in d' && Relevant(n) ensures n in segs {
      if n != Seg(s) {
        assert n in d;
        assert n in segs[..m];
      }
    }
  }

  /** Losing leftovers keeps a front form. */
  lemma FrontRemoves(d: Disk, first: nat, chunks: seq<seq<Bytes>>, ops: seq<FsOp>)
    requires FrontForm(d, first, chunks)
    requires forall i :: 0 <= i < |ops| ==> ops[i].Remove? && ops[i].name.Seg? && ops[i].name.index <= first
    ensures FrontForm(Run(d, ops), first, chunks)
  {
    RunRemoves(d, ops);
    var c := Run(d, ops);
    forall k | 1 <= k < |chunks| ensures SegmentOk(c, first, chunks, k) {
      StartsIncrease(first, chunks, 0, k);
      assert SegmentOk(d, first, chunks, k);
    }
  }

  lemma BackRemoves(d: Disk, first: nat, chunks: seq<seq<Bytes>>, ops: seq<FsOp>)
    requires BackForm(d, first, chunks)
    requires forall i :: 0 <= i < |ops| ==>
               ops[i].Remove? && ops[i].name.Seg? && ops[i].name.index >= StartOf(first, chunks, |chunks| - 1)
    ensures BackForm(Run(d, ops), first, chunks)
  {
    RunRemoves(d, ops);
    var c := Run(d, ops);
    forall k | 0 <= k < |chunks| - 1 ensures SegmentOk(c, first, chunks, k) {
      StartsIncrease(first, chunks, k, |chunks| - 1);
      assert SegmentOk(d, first, chunks, k);
    }
  }

  // ----- main results -----

  lemma ScanTail(o: Disk, first: nat, chunks: seq<seq<Bytes>>)
    requires Holds(o, first, chunks)
    ensures var m := |chunks| - 1;
            var tail := Seg(StartOf(first, chunks, m));
            tail in o && Scan(o[tail], 0) == Some(Positions(chunks[m], 0))
            && tail.index + |chunks[m]| == first + |Flatten(chunks)|
  {
    var m := |chunks| - 1;
    assert SegmentOk(o, first, chunks, m);
    ScanFrames(chunks[m], 0);
    FlattenLength(chunks);
  }

  /** A plan that ends in the healthy directory of a log opens as that log. */
  lemma PlanOpens(d: Disk, plan: Plan, first: nat, chunks: seq<seq<Bytes>>)
    requires plan.Plan? && plan.segs == SegNames(first, chunks) && AllRelevant(plan.segs)
    requires Holds(Run(d, plan.ops), first, chunks)
    ensures Opens(Execute(d, plan), first, chunks)
  {
    ScanTail(Run(d, plan.ops), first, chunks);
  }

  lemma RecoverHolds(d: Disk, names: seq<FileName>, first: nat, chunks: seq<seq<Bytes>>)
    requires Holds(d, first, chunks) && IsListing(d, names)
    ensures AllRelevant(names) && LoadPlan(names) == Plan([], names)
    ensures Opens(Recover(d, names), first, chunks)
  {
    ListingOfHolds(d, names, first, chunks);
    PlanOfSegments(names);
    PlanOpens(d, LoadPlan(names), first, chunks);
  }

  lemma RecoverHoldsAs(d: Disk, names: seq<FileName>, first: nat, chunks: seq<seq<Bytes>>)
    requires Holds(d, first, chunks) && IsListing(d, names)
    ensures AllRelevant(names) && OpensAs(Recover(d, names), Log(first, Flatten(chunks)))
  {
    RecoverHolds(d, names, first, chunks);
  }

  /** Every segment the front truncation gave up is listed before START. */
  lemma FrontCleared(d: Disk, names: seq<FileName>, first: nat, chunks: seq<seq<Bytes>>, p: nat)
    requires IsListing(d, names) && WellFormed(first, chunks) && p < |names| && names[p] == Start(first)
    requires names[p + 1..] == SegNames(first, chunks)[1..]
    ensures forall n :: n in d && n.Seg? && 0 < n.index <= first ==> n in names[..p]
  {
    SegsAfterFirst(first, chunks);
    forall n | n in d && n.Seg? && 0 < n.index <= first ensures n in names[..p] {
      var i := Listed(d, names, n);
      assert forall x :: p < x < |names| ==> names[x] in names[p + 1..];
      assert names[..p][i] == n;
    }
  }

  lemma FrontPlan(d: Disk, names: seq<FileName>, first: nat, chunks: seq<seq<Bytes>>) returns (p: nat)
    requires FrontForm(d, first, chunks) && IsListing(d, names)
    ensures p < |names| && forall i :: 0 <= i < p ==> names[i].Seg? && names[i].index <= first
    ensures AllRelevant(names)
    ensures LoadPlan(names) == Plan(Removes(names[..p]) + [Rename(Start(first), Seg(first))], SegNames(first, chunks))
    ensures forall n :: n in d && n.Seg? && 0 < n.index <= first ==> n in names[..p]
  {
    hide LoadPlan, Removes, Ascending, SegmentOk;
    p := ListingOfFront(d, names, first, chunks);
    var segs := SegNames(first, chunks);
    PlanAtStart(names, p);
    assert segs == [Seg(first)] + segs[1..];
    FrontCleared(d, names, first, chunks, p);
  }

  /** Removing the leftovers of a front truncation in any order, then renaming START. */
  lemma FrontRun(d: Disk, first: nat, chunks: seq<seq<Bytes>>, removes: seq<FsOp>, ops: seq<FsOp>)
    requires FrontForm(d, first, chunks)
    requires forall i :: 0 <= i < |removes| ==>
               removes[i].Remove? && removes[i].name.Seg? && removes[i].name.index <= first
    requires forall n :: n in d && n.Seg? && 0 < n.index <= first ==> Remove(n) in removes
    requires ops == removes + [Rename(Start(first), Seg(first))]
    ensures Holds(Run(d, ops), first, chunks)
    ensures forall j :: 0 <= j <= |ops| ==> Recoverable(Run(d, ops[..j]), first, chunks)
  {
    assert ops[..|ops|] == ops;
    forall j | 0 <= j <= |removes| ensures FrontForm(Run(d, ops[..j]), first, chunks) {
      assert ops[..j] == removes[..j];
      FrontRemoves(d, first, chunks, removes[..j]);
    }
    assert ops[..|removes|] == removes;
    RunRemoves(d, removes);
    FrontRename(Run(d, removes), first, chunks);
  }

  lemma RecoverFront(d: Disk, names: seq<FileName>, first: nat, chunks: seq<seq<Bytes>>)
    requires FrontForm(d, first, chunks) && IsListing(d, names)
    ensures AllRelevant(names) && LoadPlan(names).Plan?
    ensures Opens(Recover(d, names), first, chunks)
    ensures forall j :: 0 <= j <= |LoadPlan(names).ops| ==> Recoverable(Run(d, LoadPlan(names).ops[..j]), first, chunks)
  {
    var p := FrontPlan(d, names, first, chunks);
    RemovesHas(names[..p]);
    FrontRun(d, first, chunks, Removes(names[..p]), LoadPlan(names).ops);
    PlanOpens(d, LoadPlan(names), first, chunks);
  }

  lemma BackPlan(d: Disk, names: seq<FileName>, first: nat, chunks: seq<seq<Bytes>>, s: nat)
    returns (p: nat, ops: seq<FsOp>)
    requires BackForm(d, first, chunks) && IsListing(d, names) && s == StartOf(first, chunks, |chunks| - 1)
    ensures p < |names| && forall i :: p < i < |names| ==> names[i].Seg? && names[i].index > s
    ensures AllRelevant(names)
    ensures ops == RemovesBack(names[p + 1..]) + [Rename(End(s), Seg(s))]
    ensures LoadPlan(names) == Plan(ops, SegNames(first, chunks))
    ensures forall i :: 0 <= i <= p ==> Rank(names[i]) <= Rank(End(s))
  {
    hide LoadPlan, RemovesBack, SegNames, SegmentOk;
    p := ListingOfBack(d, names, first, chunks, s);
    BackPlanOf(d, names, first, chunks, s, p);
    ops := RemovesBack(names[p + 1..]) + [Rename(End(s), Seg(s))];
  }

  lemma BackPlanOf(d: Disk, names: seq<FileName>, first: nat, chunks: seq<seq<Bytes>>, s: nat, p: nat)
    requires WellFormed(first, chunks) && s == StartOf(first, chunks, |chunks| - 1) && AllRelevant(names)
    requires p < |names| && names[p] == End(s) && forall i :: 0 <= i < |names| && i != p ==> names[i].Seg?
    requires names[..p] == BeforeEnd(d, first, chunks)
    ensures LoadPlan(names) == Plan(RemovesBack(names[p + 1..]) + [Rename(End(s), Seg(s))], SegNames(first, chunks))
  {
    BackKept(d, names, first, chunks, s, p);
    PlanAtEnd(names, p, SegNames(first, chunks)[..|chunks| - 1]);
    assert SegNames(first, chunks) == SegNames(first, chunks)[..|chunks| - 1] + [Seg(s)];
  }

  lemma BackKept(d: Disk, names: seq<FileName>, first: nat, chunks: seq<seq<Bytes>>, s: nat, p: nat)
    requires WellFormed(first, chunks) && s == StartOf(first, chunks, |chunks| - 1)
    requires p < |names| && names[p] == End(s) && forall i :: 0 <= i < p ==> names[i].Seg?
    requires names[..p] == BeforeEnd(d, first, chunks)
    ensures if p > 0 && names[p - 1].index == s then SegNames(first, chunks)[..|chunks| - 1] == names[..p - 1]
            else SegNames(first, chunks)[..|chunks| - 1] == names[..p]
  {
    var segs := SegNames(first, chunks);
    var m := |chunks| - 1;
    SegsBeforeLast(first, chunks);
    assert segs == segs[..m] + [Seg(s)];
    if Seg(s) in d {
      assert names[..p][p - 1] == names[p - 1] == Seg(s);
      assert names[..p - 1] == segs[..m];
    } else if p > 0 {
      assert names[..p][p - 1] == names[p - 1];
      assert names[p - 1] in segs[..m];
    }
  }

  /** The cleanup removes every segment beyond END. */
  lemma BackCleared(d: Disk, names: seq<FileName>, p: nat, s: nat)
    requires IsListing(d, names) && p < |names|
    requires forall i :: 0 <= i <= p ==> Rank(names[i]) <= Rank(End(s))
    ensures forall n :: n in d && n.Seg? && n.index > s ==> Remove(n) in RemovesBack(names[p + 1..])
  {
    var rest := names[p + 1..];
    RemovesHas(rest);
    forall n | n in d && n.Seg? && n.index > s ensures n in rest {
      var i := Listed(d, names, n);
      assert rest[i - p - 1] == n;
    }
  }

  /** Removing the leftovers of a back truncation in any order, then renaming END. */
  lemma BackRun(d: Disk, first: nat, chunks: seq<seq<Bytes>>, s: nat, removes: seq<FsOp>, ops: seq<FsOp>)
    requires BackForm(d, first, chunks) && s == StartOf(first, chunks, |chunks| - 1)
    requires forall i :: 0 <= i < |removes| ==>
               removes[i].Remove? && removes[i].name.Seg? && removes[i].name.index >= s
    requires forall n :: n in d && n.Seg? && n.index > s ==> Remove(n) in removes
    requires ops == removes + [Rename(End(s), Seg(s))]
    ensures Holds(Run(d, ops), first, chunks)
    ensures forall j :: 0 <= j <= |ops| ==> Recoverable(Run(d, ops[..j]), first, chunks)
  {
    assert ops[..|ops|] == ops;
    forall j | 0 <= j <= |removes| ensures BackForm(Run(d, ops[..j]), first, chunks) {
      assert ops[..j] == removes[..j];
      BackRemoves(d, first, chunks, removes[..j]);
    }
    assert ops[..|removes|] == removes;
    RunRemoves(d, removes);
    BackRename(Run(d, removes), first, chunks, s);
  }

  lemma RecoverBack(d: Disk, names: seq<FileName>, first: nat, chunks: seq<seq<Bytes>>)
    requires BackForm(d, first, chunks) && IsListing(d, names)
    ensures AllRelevant(names) && LoadPlan(names).Plan?
    ensures Opens(Recover(d, names), first, chunks)
    ensures forall j :: 0 <= j <= |LoadPlan(names).ops| ==> Recoverable(Run(d, LoadPlan(names).ops[..j]), first, chunks)
  {
    var ops := BackSteps(d, names, first, chunks);
    PlanOpens(d, LoadPlan(names), first, chunks);
  }

  /** The plan for a half-truncated back end, and what its steps lead through. */
  lemma BackSteps(d: Disk, names: seq<FileName>, first: nat, chunks: seq<seq<Bytes>>) returns (ops: seq<FsOp>)
    requires BackForm(d, first, chunks) && IsListing(d, names)
    ensures AllRelevant(names) && LoadPlan(names) == Plan(ops, SegNames(first, chunks))
    ensures Holds(Run(d, ops), first, chunks)
    ensures forall j :: 0 <= j <= |ops| ==> Recoverable(Run(d, ops[..j]), first, chunks)
  {
    hide IsListing, Holds, LoadPlan, RemovesBack, SegNames, Rank;
    var p;
    var s := StartOf(first, chunks, |chunks| - 1);
    p, ops := BackPlan(d, names, first, chunks, s);
    BackCleared(d, names, p, s);
    RemovesBackOnly(names, p, s);
    BackRun(d, first, chunks, s, RemovesBack(names[p + 1..]), ops);
  }

  lemma RemovesBackOnly(names: seq<FileName>, p: nat, s: nat)
    requires p < |names| && forall i :: p < i < |names| ==> names[i].Seg? && names[i].index > s
    ensures forall r :: r in RemovesBack(names[p + 1..]) ==> r.Remove? && r.name.Seg? && r.name.index >= s
  {
    RemovesHas(names[p + 1..]);
  }

  /** `load` rebuilds exactly the log a recoverable directory stands for, and every
      interruption of its own cleanup leaves a directory standing for the same log. */
  lemma RecoverWorks(d: Disk, names: seq<FileName>, first: nat, chunks: seq<seq<Bytes>>)
    requires Recoverable(d, first, chunks) && IsListing(d, names)
    ensures AllRelevant(names) && LoadPlan(names).Plan?
    ensures Opens(Recover(d, names), first, chunks)
    ensures forall j :: 0 <= j <= |LoadPlan(names).ops| ==> Recoverable(Run(d, LoadPlan(names).ops[..j]), first, chunks)
  {
    if Holds(d, first, chunks) {
      RecoverHolds(d, names, first, chunks);
    } else if FrontForm(d, first, chunks) {
      RecoverFront(d, names, first, chunks);
    } else {
      RecoverBack(d, names, first, chunks);
    }
  }

  /** A chain of directories, each left by cutting the cleanup of its predecessor short. */
  ghost predicate InterruptedLoads(ds: seq<Disk>)
  {
    |ds| >= 1 && forall i :: 0 <= i < |ds| - 1 ==> Interrupted(ds[i], ds[i + 1])
  }

  ghost predicate Interrupted(d: Disk, d': Disk)
  {
    exists names, j: nat ::
      && IsListing(d, names) && AllRelevant(names) && LoadPlan(names).Plan?
      && j <= |LoadPlan(names).ops| && d' == Run(d, LoadPlan(names).ops[..j])
  }

  /** However often opening the log is itself interrupted, the next complete opening
      rebuilds the same log. */
  lemma {:induction false} InterruptedLoadsAgree(ds: seq<Disk>, names: seq<FileName>, first: nat,
                                                 chunks: seq<seq<Bytes>>)
    requires InterruptedLoads(ds) && Recoverable(ds[0], first, chunks)
    requires IsListing(ds[|ds| - 1], names)
    ensures AllRelevant(names)
    ensures Opens(Recover(ds[|ds| - 1], names), first, chunks)
    decreases |ds|
  {
    if |ds| == 1 {
      RecoverWorks(ds[0], names, first, chunks);
    } else {
      assert Interrupted(ds[0], ds[0 + 1]);
      var ns, j: nat :|
        && IsListing(ds[0], ns) && AllRelevant(ns) && LoadPlan(ns).Plan?
        && j <= |LoadPlan(ns).ops| && ds[1] == Run(ds[0], LoadPlan(ns).ops[..j]);
      RecoverWorks(ds[0], ns, first, chunks);
      var rest := ds[1..];
      forall i | 0 <= i < |rest| - 1 ensures Interrupted(rest[i], rest[i + 1]) {
        assert Interrupted(ds[i + 1], ds[i + 1 + 1]);
      }
      InterruptedLoadsAgree(rest, names, first, chunks);
    }
  }

  /** An empty directory becomes the empty log that starts at index 1. */
  lemma RecoverEmpty(d: Disk, names: seq<FileName>)
    requires IsListing(d, names) && forall n :: n in d ==> !Relevant(n)
    ensures AllRelevant(names) && Opens(Recover(d, names), 1, [[]])
  {
    AscendingUnique(names, []);
    var o := Recover(d, names);
    assert Run(d, []) == d;
    assert [Create(Seg(1))][..0] == [];
    assert o.disk == d[Seg(1) := []];
    assert SegNames(1, [[]]) == [Seg(1)];
    assert forall n :: n in o.disk && Relevant(n) ==> n == Seg(1) && n in [Seg(1)];
    assert FrameAll([]) == [];
    assert SegmentOk(o.disk, 1, [[]], 0);
    FlattenOne([]);
  }
}
