/** A data-node partition: fixed-size slots in a preallocated file, allocated first-fit, with
    the in-memory block map mirrored in the index file. The slot count and the block size are
    parameters. */
module Partition {
  import opened Varint
  import opened IdxFile

  type Blocks = map<Id, IdxBlock>

  // ----- allocation -----

  ghost predicate Free(m: Blocks, n: nat)
  {
    forall id :: id in m ==> m[id].Slot() != n
  }

  /** Live blocks are well formed and hold distinct slots in range. */
  ghost predicate MapOk(count: nat, blockSize: nat, m: Blocks)
  {
    && (forall id :: id in m ==> m[id].id == id && !Zeros(id) && m[id].offset == m[id].Slot() * RECORD)
    && (forall id :: id in m ==> m[id].Slot() < count && m[id].size <= blockSize)
    && (forall a, b :: a in m && b in m && a != b ==> m[a].Slot() != m[b].Slot())
  }

  ghost function Slots(m: Blocks): set<nat>
  {
    set id | id in m :: m[id].Slot()
  }

  lemma {:induction false} SlotsBound(m: Blocks)
    ensures |Slots(m)| <= |m|
    decreases |m|
  {
    if m.Keys == {} {
      assert Slots(m) == {};
    } else {
      var id :| id in m;
      var rest := m - {id};
      assert rest.Keys == m.Keys - {id};
      SlotsBound(rest);
      assert Slots(m) == Slots(rest) + {m[id].Slot()};
    }
  }

  function Range(count: nat): (r: set<nat>)
    ensures |r| == count && forall n: nat :: n in r <==> n < count
  {
    if count == 0 then {} else Range(count - 1) + {count - 1}
  }

  /** Pigeonhole: a partition with fewer blocks than slots has a free slot. */
  lemma FreeSlotExists(count: nat, m: Blocks) returns (n: nat)
    requires |m| < count
    ensures n < count && Free(m, n)
  {
    SlotsBound(m);
    var free := Range(count) - Slots(m);
    assert |Range(count)| == |free| + |Range(count) * Slots(m)|;
    assert |Range(count) * Slots(m)| <= |Slots(m)| by {
      assert Slots(m) == (Range(count) * Slots(m)) + (Slots(m) - Range(count));
    }
    n :| n in free;
  }

  // ----- contents -----

  function Chunk(file: seq<byte>, at: nat, n: nat): seq<byte>
  {
    if at + n <= |file| then file[at..at + n] else []
  }

  /** The map from ids to bytes that a partition stands for. */
  ghost function Stored(file: seq<byte>, blockSize: nat, m: Blocks): map<Id, seq<byte>>
  {
    map id | id in m :: Chunk(file, m[id].Slot() * blockSize, m[id].size)
  }

  function Start(n: nat, blockSize: nat): nat { n * blockSize }

  lemma SlotInside(count: nat, blockSize: nat, n: nat)
    requires n < count
    ensures n * blockSize + blockSize <= count * blockSize
  {
    assert (n + 1) * blockSize <= count * blockSize;
  }

  lemma SlotsApart(blockSize: nat, a: nat, b: nat)
    requires a != b
    ensures a * blockSize + blockSize <= b * blockSize || b * blockSize + blockSize <= a * blockSize
  {
    if a < b {
      SlotInside(b, blockSize, a);
    } else {
      SlotInside(a, blockSize, b);
    }
  }

  lemma ChunkAfter(file: seq<byte>, at: nat, data: seq<byte>, from: nat, n: nat)
    requires at + |data| <= |file| && from + n <= |file|
    ensures Chunk(Splice(file, at, data), at, |data|) == data
    ensures from + n <= at || at + |data| <= from ==> Chunk(Splice(file, at, data), from, n) == Chunk(file, from, n)
  {
    var r := Splice(file, at, data);
    assert r[at..at + |data|] == data;
    if from + n <= at || at + |data| <= from {
      assert forall i :: from <= i < from + n ==> r[i] == file[i];
      assert r[from..from + n] == file[from..from + n];
    }
  }

  lemma OtherSlotKept(count: nat, blockSize: nat, file: seq<byte>, n: nat, data: seq<byte>, other: nat, size: nat)
    requires |file| == count * blockSize && n < count && other < count && n != other
    requires |data| <= blockSize && size <= blockSize
    ensures n * blockSize + |data| <= |file|
    ensures Chunk(Splice(file, n * blockSize, data), other * blockSize, size) == Chunk(file, other * blockSize, size)
  {
    SlotInside(count, blockSize, n);
    SlotInside(count, blockSize, other);
    SlotsApart(blockSize, n, other);
    ChunkAfter(file, n * blockSize, data, other * blockSize, size);
  }

  lemma StoredUpdate(file: seq<byte>, file': seq<byte>, blockSize: nat, m: Blocks, b: IdxBlock, data: seq<byte>)
    requires b.id !in m && Chunk(file', b.Slot() * blockSize, b.size) == data
    requires forall id :: id in m ==>
               Chunk(file', m[id].Slot() * blockSize, m[id].size) == Chunk(file, m[id].Slot() * blockSize, m[id].size)
    ensures Stored(file', blockSize, m[b.id := b]) == Stored(file, blockSize, m)[b.id := data]
  {
    var l, r := Stored(file', blockSize, m[b.id := b]), Stored(file, blockSize, m)[b.id := data];
    assert l.Keys == r.Keys;
    forall id | id in l ensures l[id] == r[id] {
      if id != b.id {
        assert id in m;
      }
    }
  }

  /** Writing into a free slot adds one block and touches no other. */
  lemma {:induction false} StoreInFreeSlot(count: nat, blockSize: nat, file: seq<byte>, m: Blocks, b: IdxBlock,
                                           data: seq<byte>)
    requires MapOk(count, blockSize, m) && |file| == count * blockSize
    requires b.Slot() < count && Free(m, b.Slot()) && b.id !in m && b.size == |data| <= blockSize
    ensures b.Slot() * blockSize + |data| <= |file|
    ensures Stored(Splice(file, b.Slot() * blockSize, data), blockSize, m[b.id := b])
         == Stored(file, blockSize, m)[b.id := data]
  {
    var n := b.Slot();
    SlotInside(count, blockSize, n);
    var file' := Splice(file, n * blockSize, data);
    ChunkAfter(file, n * blockSize, data, n * blockSize, |data|);
    forall id | id in m
      ensures Chunk(file', m[id].Slot() * blockSize, m[id].size) == Chunk(file, m[id].Slot() * blockSize, m[id].size)
    {
      OtherSlotKept(count, blockSize, file, n, data, m[id].Slot(), m[id].size);
    }
    StoredUpdate(file, file', blockSize, m, b, data);
  }

  lemma MapOkAdd(count: nat, blockSize: nat, m: Blocks, b: IdxBlock)
    requires MapOk(count, blockSize, m) && b.id !in m && Free(m, b.Slot()) && b.Slot() < count
    requires !Zeros(b.id) && b.size <= blockSize && b.offset == b.Slot() * RECORD
    ensures MapOk(count, blockSize, m[b.id := b])
  {
  }

  // ----- the index file -----

  /** Each slot's record is that of the live block there, or all zeros. */
  ghost predicate Indexed(count: nat, idx: seq<byte>, m: Blocks)
  {
    && |idx| == count * RECORD
    && (forall id :: id in m ==> m[id].Slot() < count)
    && (forall id :: id in m ==> Record(idx, m[id].Slot()) == Marshal(m[id]))
    && (forall n: nat :: n < count && Free(m, n) ==> Zeros(Record(idx, n)))
  }

  ghost function Below(m: Blocks, n: nat): Blocks
  {
    map id | id in m && m[id].Slot() < n :: m[id]
  }

  lemma BelowNext(m: Blocks, id: Id, n: nat)
    requires id in m && m[id].Slot() == n
    requires forall a :: a in m && a != id ==> m[a].Slot() != n
    ensures Below(m, n + 1) == Below(m, n)[id := m[id]]
  {
  }

  lemma BelowFree(m: Blocks, n: nat)
    requires Free(m, n)
    ensures Below(m, n + 1) == Below(m, n)
  {
  }

  lemma LoadedLive(idx: seq<byte>, n: nat, b: IdxBlock)
    requires (n + 1) * RECORD <= |idx| && Record(idx, n) == Marshal(b)
    requires b.size < TWO_64 && b.offset == n * RECORD && !Zeros(b.id)
    ensures Loaded(idx, n + 1) == Loaded(idx, n)[b.id := b]
  {
    MarshalRoundTrip(b);
  }

  lemma LoadedFree(idx: seq<byte>, n: nat)
    requires (n + 1) * RECORD <= |idx| && Zeros(Record(idx, n))
    ensures Loaded(idx, n + 1) == Loaded(idx, n)
  {
  }

  /** The first n records are those of the blocks in the first n slots. */
  ghost predicate Agrees(idx: seq<byte>, m: Blocks, n: nat)
  {
    n * RECORD <= |idx| && Loaded(idx, n) == Below(m, n)
  }

  lemma LoadedNext(count: nat, blockSize: nat, idx: seq<byte>, m: Blocks, n: nat)
    requires MapOk(count, blockSize, m) && blockSize < TWO_64 && Indexed(count, idx, m) && n < count
    requires Agrees(idx, m, n)
    ensures Agrees(idx, m, n + 1)
  {
    if Free(m, n) {
      LoadedFree(idx, n);
      BelowFree(m, n);
    } else {
      var id :| id in m && m[id].Slot() == n;
      LoadedLive(idx, n, m[id]);
      BelowNext(m, id, n);
    }
  }

  lemma {:induction false} LoadedBelow(count: nat, blockSize: nat, idx: seq<byte>, m: Blocks, n: nat)
    requires MapOk(count, blockSize, m) && blockSize < TWO_64 && Indexed(count, idx, m) && n <= count
    ensures Agrees(idx, m, n)
  {
    hide MapOk, Indexed, Agrees;
    if n == 0 {
      NoneBelow(idx, m);
    } else {
      LoadedBelow(count, blockSize, idx, m, n - 1);
      LoadedNext(count, blockSize, idx, m, n - 1);
    }
  }

  lemma NoneBelow(idx: seq<byte>, m: Blocks)
    ensures Agrees(idx, m, 0)
  {
  }

  /** Loading the index gives back exactly the block map. */
  lemma LoadRebuilds(count: nat, blockSize: nat, idx: seq<byte>, m: Blocks)
    requires MapOk(count, blockSize, m) && blockSize < TWO_64 && Indexed(count, idx, m)
    ensures |idx| / RECORD == count && Loaded(idx, count) == m
  {
    LoadedBelow(count, blockSize, idx, m, count);
    BelowAll(m, count);
  }

  lemma BelowAll(m: Blocks, n: nat)
    requires forall id :: id in m ==> m[id].Slot() < n
    ensures Below(m, n) == m
  {
  }

  /** Every new record has room in the index file. */
  lemma TrackedFit(count: nat, blockSize: nat, idx: seq<byte>, m: Blocks, m': Blocks, idxs: map<nat, IdxBlock>)
    requires Indexed(count, idx, m) && MapOk(count, blockSize, m') && Tracks(m, m', idxs)
    ensures forall n :: n in idxs ==> (n + 1) * RECORD <= |idx|
  {
  }

  /** The index write that follows a batch of block writes. */
  lemma {:induction false} IndexedAfterWrite(count: nat, blockSize: nat, idx: seq<byte>, idx': seq<byte>, m: Blocks,
                                             m': Blocks, idxs: map<nat, IdxBlock>)
    requires Indexed(count, idx, m) && MapOk(count, blockSize, m') && |idx'| == |idx|
    requires Tracks(m, m', idxs)
    requires forall n: nat :: (n + 1) * RECORD <= |idx| ==>
               Record(idx', n) == if n in idxs then Marshal(idxs[n]) else Record(idx, n)
    ensures Indexed(count, idx', m')
  {
    forall id | id in m' ensures Record(idx', m'[id].Slot()) == Marshal(m'[id]) {
      if id in m {
        assert m'[id].Slot() !in idxs;
      }
    }
    forall n: nat | n < count && Free(m', n) ensures Zeros(Record(idx', n)) {
      assert n !in idxs;
      assert Free(m, n) by {
        forall id | id in m ensures m[id].Slot() != n {
          assert m'[id] == m[id];
        }
      }
    }
  }

  // ----- removals -----

  /** The slot RemoveBlocks computes for the i-th id: that of the block, or slot 0 when the id
      is not live at that point. */
  function Target(m: Blocks, ids: seq<Id>, i: nat): nat
    requires i < |ids|
  {
    if ids[i] in m && ids[i] !in ids[..i] then m[ids[i]].Slot() else 0
  }

  function Targets(m: Blocks, ids: seq<Id>): (r: seq<nat>)
    ensures |r| == |ids|
  {
    seq(|ids|, i requires 0 <= i < |ids| => Target(m, ids, i))
  }

  function Ids(ids: seq<Id>): set<Id>
  {
    set id | id in ids
  }

  lemma IdsNext(ids: seq<Id>, i: nat)
    requires i < |ids|
    ensures Ids(ids[..i + 1]) == Ids(ids[..i]) + {ids[i]}
  {
    assert ids[..i + 1] == ids[..i] + [ids[i]];
  }

  function Without(m: Blocks, ids: seq<Id>): Blocks
  {
    map id | id in m && id !in ids :: m[id]
  }

  /** All ids live, none twice. */
  ghost predicate LiveDistinct<T>(m: map<Id, T>, ids: seq<Id>)
  {
    forall i :: 0 <= i < |ids| ==> ids[i] in m && ids[i] !in ids[..i]
  }

  /** When a removal leaves the index right: every id is live, or slot 0 is not occupied by a
      block that stays. */
  ghost predicate Harmless(m: Blocks, ids: seq<Id>)
  {
    LiveDistinct(m, ids) || Free(Without(m, ids), 0)
  }

  ghost predicate Erased(idx: seq<byte>, idx': seq<byte>, targets: seq<nat>)
  {
    && |idx'| == |idx|
    && (forall n: nat :: (n + 1) * RECORD <= |idx| && n !in targets ==> Record(idx', n) == Record(idx, n))
    && (forall n: nat :: (n + 1) * RECORD <= |idx| && n in targets ==> Zeros(Record(idx', n)))
  }

  /** The slot of a removed block is among the targets. */
  lemma RemovedTargeted(m: Blocks, ids: seq<Id>, id: Id)
    requires id in m && id in ids
    ensures m[id].Slot() in Targets(m, ids)
  {
    var i := FirstIndex(ids, id);
    assert Targets(m, ids)[i] == m[id].Slot();
  }

  lemma {:induction false} FirstIndex(ids: seq<Id>, id: Id) returns (i: nat)
    requires id in ids
    ensures i < |ids| && ids[i] == id && id !in ids[..i]
  {
    if ids[0] == id {
      i := 0;
    } else {
      i := FirstIndex(ids[1..], id);
      assert ids[..i + 1] == [ids[0]] + ids[1..][..i];
      i := i + 1;
    }
  }

  /** The slot of a survivor is a target only when it is slot 0 and some id was not live. */
  lemma SurvivorTargeted(count: nat, blockSize: nat, m: Blocks, ids: seq<Id>, id: Id)
    requires MapOk(count, blockSize, m) && id in m && id !in ids
    ensures m[id].Slot() in Targets(m, ids) <==> m[id].Slot() == 0 && !LiveDistinct(m, ids)
  {
    if m[id].Slot() in Targets(m, ids) {
      var i :| 0 <= i < |ids| && Targets(m, ids)[i] == m[id].Slot();
      assert Target(m, ids, i) == m[id].Slot();
      assert ids[i] != id;
    }
    if !LiveDistinct(m, ids) {
      var i :| 0 <= i < |ids| && !(ids[i] in m && ids[i] !in ids[..i]);
      assert Targets(m, ids)[i] == 0;
    }
  }

  lemma FreedIsZero(count: nat, m: Blocks, ids: seq<Id>, idx: seq<byte>, idx': seq<byte>, n: nat)
    requires Indexed(count, idx, m) && Erased(idx, idx', Targets(m, ids)) && n < count && Free(Without(m, ids), n)
    ensures Zeros(Record(idx', n))
  {
    if !Free(m, n) {
      var id :| id in m && m[id].Slot() == n;
      assert id in ids || id in Without(m, ids);
      RemovedTargeted(m, ids, id);
    }
  }

  /** Exactly when a removal keeps the index equal to the block map. */
  lemma RemovalKeepsIndex(count: nat, blockSize: nat, m: Blocks, ids: seq<Id>, idx: seq<byte>, idx': seq<byte>)
    requires MapOk(count, blockSize, m) && Indexed(count, idx, m) && Erased(idx, idx', Targets(m, ids))
    ensures Indexed(count, idx', Without(m, ids)) <==> Harmless(m, ids)
  {
    var m' := Without(m, ids);
    forall n: nat | n < count && Free(m', n) ensures Zeros(Record(idx', n)) {
      FreedIsZero(count, m, ids, idx, idx', n);
    }
    forall id | id in m'
      ensures Record(idx', m'[id].Slot()) == Marshal(m'[id]) <==> m'[id].Slot() !in Targets(m, ids)
    {
      assert !Zeros(Marshal(m[id])) by { NonZeroRecord(m[id]); }
    }
    forall id | id in m'
      ensures m'[id].Slot() in Targets(m, ids) <==> m'[id].Slot() == 0 && !LiveDistinct(m, ids)
    {
      SurvivorTargeted(count, blockSize, m, ids, id);
    }
  }

  lemma TargetsInRange(count: nat, blockSize: nat, m: Blocks, ids: seq<Id>)
    requires MapOk(count, blockSize, m) && count > 0
    ensures forall i :: 0 <= i < |ids| ==> Targets(m, ids)[i] < count
  {
    forall i | 0 <= i < |ids| ensures Targets(m, ids)[i] < count {
      assert Targets(m, ids)[i] == Target(m, ids, i);
    }
  }

  /** A removal that is not harmless: an unknown id, while another block holds slot 0. The
      record of that block is gone from the index. */
  lemma {:induction false} UnknownIdHitsSlotZero(count: nat, blockSize: nat, live: IdxBlock, unknown: Id,
                                                 idx: seq<byte>, idx': seq<byte>)
    requires live.Slot() == 0 && live.id != unknown
    requires MapOk(count, blockSize, map[live.id := live]) && Indexed(count, idx, map[live.id := live])
    requires Erased(idx, idx', Targets(map[live.id := live], [unknown]))
    ensures !Indexed(count, idx', Without(map[live.id := live], [unknown]))
  {
    var m := map[live.id := live];
    assert [unknown][0] !in m;
    assert live.id in Without(m, [unknown]);
    RemovalKeepsIndex(count, blockSize, m, [unknown], idx, idx');
  }

  lemma NonZeroRecord(b: IdxBlock)
    requires !Zeros(b.id)
    ensures !Zeros(Marshal(b))
  {
    var i :| 0 <= i < |b.id| && b.id[i] != 0;
    assert Marshal(b)[i] != 0;
  }

  lemma WithoutOk(count: nat, blockSize: nat, m: Blocks, ids: seq<Id>)
    requires MapOk(count, blockSize, m)
    ensures MapOk(count, blockSize, Without(m, ids))
  {
    var m' := Without(m, ids);
    assert forall id :: id in m' ==> id in m && m'[id] == m[id];
  }

  lemma WithoutStored(file: seq<byte>, blockSize: nat, m: Blocks, ids: seq<Id>)
    ensures Stored(file, blockSize, Without(m, ids)) == Stored(file, blockSize, m) - Ids(ids)
  {
    var l, r := Stored(file, blockSize, Without(m, ids)), Stored(file, blockSize, m) - Ids(ids);
    assert l.Keys == r.Keys;
    assert forall id :: id in l ==> id in m && Without(m, ids)[id] == m[id];
  }

  // ----- the partition -----

  /** A batch of new blocks: unused non-zero ids, payloads of at most a block, and no more of
      them than free slots. */
  ghost predicate Fits<T>(count: nat, blockSize: nat, m: map<Id, T>, batch: map<Id, seq<byte>>)
  {
    && (forall id :: id in batch ==> id !in m && !Zeros(id) && |batch[id]| <= blockSize)
    && |m| + |batch| <= count
  }

  function Got(contents: map<Id, seq<byte>>, id: Id): seq<byte>
  {
    if id in contents then contents[id] else []
  }

  /** `idxs` holds, by slot, exactly the blocks of m' that m lacks. */
  ghost predicate Tracks(m: Blocks, m': Blocks, idxs: map<nat, IdxBlock>)
  {
    && (forall id :: id in m ==> id in m' && m'[id] == m[id])
    && (forall id :: id in m' && id !in m ==> m'[id].Slot() in idxs && idxs[m'[id].Slot()] == m'[id])
    && (forall n :: n in idxs ==>
          idxs[n].id in m' && idxs[n].id !in m && m'[idxs[n].id] == idxs[n] && idxs[n].Slot() == n)
  }

  lemma TracksNone(m: Blocks)
    ensures Tracks(m, m, map[])
  {
  }

  lemma NothingLeft(contents: map<Id, seq<byte>>, rest: map<Id, seq<byte>>)
    requires rest.Keys == {}
    ensures contents + rest == contents
  {
  }

  lemma TracksAdd(m: Blocks, m': Blocks, idxs: map<nat, IdxBlock>, b: IdxBlock)
    requires Tracks(m, m', idxs) && b.id !in m' && Free(m', b.Slot())
    ensures Tracks(m, m'[b.id := b], idxs[b.Slot() := b])
  {
  }

  lemma SmallerWithout<T>(m: map<Id, T>, id: Id)
    requires id in m
    ensures |m - {id}| == |m| - 1
  {
    assert (m - {id}).Keys == m.Keys - {id};
  }

  lemma RoomForNext(count: nat, blockSize: nat, m: Blocks, rest: map<Id, seq<byte>>, id: Id)
    requires id in rest && Fits(count, blockSize, m, rest)
    ensures id !in m && !Zeros(id) && |rest[id]| <= blockSize && |m| < count
  {
    SmallerWithout(rest, id);
  }

  lemma FitsNext(count: nat, blockSize: nat, m: Blocks, rest: map<Id, seq<byte>>, b: IdxBlock)
    requires b.id in rest && Fits(count, blockSize, m, rest)
    ensures Fits(count, blockSize, m[b.id := b], rest - {b.id})
  {
    SmallerWithout(rest, b.id);
    assert m[b.id := b].Keys == m.Keys + {b.id};
  }

  lemma GoalKept(contents: map<Id, seq<byte>>, rest: map<Id, seq<byte>>, id: Id)
    requires id in rest
    ensures contents[id := rest[id]] + (rest - {id}) == contents + rest
  {
  }

  ghost predicate PartOf(a: map<Id, seq<byte>>, b: map<Id, seq<byte>>)
  {
    forall id :: id in a ==> id in b && a[id] == b[id]
  }

  function Collected(queue: seq<(Id, seq<byte>)>): map<Id, seq<byte>>
  {
    if queue == [] then map[]
    else Collected(queue[..|queue| - 1])[queue[|queue| - 1].0 := queue[|queue| - 1].1]
  }

  /** Of several payloads for an id the last one counts; every id queued is there. */
  lemma {:induction false} CollectedLast(queue: seq<(Id, seq<byte>)>, i: nat)
    requires i < |queue| && forall j :: i < j < |queue| ==> queue[j].0 != queue[i].0
    ensures queue[i].0 in Collected(queue) && Collected(queue)[queue[i].0] == queue[i].1
  {
    var n := |queue| - 1;
    if i < n {
      assert queue[n].0 != queue[i].0;
      CollectedLast(queue[..n], i);
    }
  }

  lemma {:induction false} CollectedFrom(queue: seq<(Id, seq<byte>)>, id: Id) returns (i: nat)
    requires id in Collected(queue)
    ensures i < |queue| && queue[i] == (id, Collected(queue)[id])
  {
    var n := |queue| - 1;
    if id == queue[n].0 {
      i := n;
    } else {
      i := CollectedFrom(queue[..n], id);
    }
  }

  /** Distinct slots in range: never more blocks than slots. */
  lemma {:induction false} MapFits(count: nat, blockSize: nat, m: Blocks)
    requires MapOk(count, blockSize, m)
    ensures |m| <= count
    decreases count
  {
    if count == 0 {
      assert m.Keys == {};
    } else if Free(m, count - 1) {
      MapFits(count - 1, blockSize, m);
    } else {
      var id :| id in m && m[id].Slot() == count - 1;
      MapFits(count - 1, blockSize, m - {id});
      SmallerWithout(m, id);
    }
  }

  lemma EmptyMap(m: map<Id, seq<byte>>)
    requires |m| == 0
    ensures m == map[] && forall base: map<Id, seq<byte>> :: base + m == base
  {
  }

  lemma NonEmpty(m: map<Id, seq<byte>>)
    requires |m| > 0
    ensures m.Keys != {}
  {
  }

  lemma TakeOne(some: map<Id, seq<byte>>, rest: map<Id, seq<byte>>, blocks: map<Id, seq<byte>>, id: Id)
    requires id in rest && some.Keys !! rest.Keys && PartOf(some, blocks) && PartOf(rest, blocks)
    ensures |some[id := rest[id]]| == |some| + 1 && |rest - {id}| == |rest| - 1
    ensures some[id := rest[id]].Keys !! (rest - {id}).Keys
    ensures PartOf(some[id := rest[id]], blocks) && PartOf(rest - {id}, blocks)
  {
    SmallerWithout(rest, id);
    assert some[id := rest[id]].Keys == some.Keys + {id};
  }

  class Partition {
    const count: nat
    const blockSize: nat
    const idxFile: IdxFile
    var file: seq<byte>
    var blocksMap: Blocks
    var full: bool

    ghost predicate Healthy()
      reads this
    {
      && 0 < blockSize < TWO_64 && |file| == count * blockSize
      && MapOk(count, blockSize, blocksMap)
      && (full ==> |blocksMap| >= count)
    }

    ghost predicate Valid()
      reads this, idxFile
    {
      Healthy() && Indexed(count, idxFile.file, blocksMap)
    }

    /** The map this object refines. */
    ghost function Contents(): map<Id, seq<byte>>
      reads this
    {
      Stored(file, blockSize, blocksMap)
    }

    /** A partition over existing files: newPartition, then the load of the index. */
    constructor (count: nat, blockSize: nat, file: seq<byte>, idxFile: IdxFile)
      requires 0 < blockSize < TWO_64 && |file| == count * blockSize
      ensures this.count == count && this.blockSize == blockSize && this.idxFile == idxFile && this.file == file
      ensures blocksMap == Loaded(idxFile.file, |idxFile.file| / RECORD) && !full
      ensures forall m :: MapOk(count, blockSize, m) && Indexed(count, idxFile.file, m) ==>
                Valid() && blocksMap == m && Contents() == Stored(file, blockSize, m)
    {
      this.count, this.blockSize, this.idxFile, this.file := count, blockSize, idxFile, file;
      full := false;
      new;
      blocksMap := idxFile.Load();
      forall m | MapOk(count, blockSize, m) && Indexed(count, idxFile.file, m)
        ensures blocksMap == m
      {
        LoadRebuilds(count, blockSize, idxFile.file, m);
      }
    }

    method IsBlockAllocated(n: nat) returns (r: bool)
      ensures r <==> !Free(blocksMap, n)
    {
      var rest := blocksMap.Keys;
      while rest != {}
        invariant rest <= blocksMap.Keys
        invariant forall id :: id in blocksMap && id !in rest ==> blocksMap[id].Slot() != n
      {
        var id :| id in rest;
        if blocksMap[id].Slot() == n {
          return true;
        }
        rest := rest - {id};
      }
      r := false;
    }

    /** The first free slot, or slot 0 when there is none. */
    method FirstFree() returns (blockN: nat)
      ensures forall n :: 0 <= n < blockN ==> !Free(blocksMap, n)
      ensures if blockN < count && Free(blocksMap, blockN) then true
              else blockN == 0 && forall n :: 0 <= n < count ==> !Free(blocksMap, n)
    {
      blockN := 0;
      var n := 0;
      while n < count
        invariant n <= count && blockN == 0
        invariant forall k :: 0 <= k < n ==> !Free(blocksMap, k)
      {
        var taken := IsBlockAllocated(n);
        if !taken {
          return n;
        }
        n := n + 1;
      }
    }

    /** One block of a batch: into the first free slot. */
    method WriteBlock(id: Id, data: seq<byte>) returns (block: IdxBlock)
      requires Healthy() && id !in blocksMap && !Zeros(id) && |data| <= blockSize && |blocksMap| < count
      modifies this`file, this`blocksMap, this`full
      ensures Healthy()
      ensures block.id == id && block.Slot() < count && Free(old(blocksMap), block.Slot())
      ensures forall n :: 0 <= n < block.Slot() ==> !Free(old(blocksMap), n)
      ensures blocksMap == old(blocksMap)[id := block]
      ensures Contents() == old(Contents())[id := data]
    {
      var blockN := FirstFree();
      ghost var free := FreeSlotExists(count, blocksMap);
      block := IdxBlock(id, |data|, blockN * RECORD);
      assert block.Slot() == blockN;
      MapOkAdd(count, blockSize, blocksMap, block);
      StoreInFreeSlot(count, blockSize, file, blocksMap, block, data);
      file := Splice(file, Start(blockN, blockSize), data);
      blocksMap := blocksMap[id := block];
      if |blocksMap| >= count {
        full := true;
      }
    }

    ghost predicate Progress(goal: map<Id, seq<byte>>, m: Blocks, rest: map<Id, seq<byte>>, idxs: map<nat, IdxBlock>)
      reads this
    {
      Healthy() && Fits(count, blockSize, blocksMap, rest) && Contents() + rest == goal && Tracks(m, blocksMap, idxs)
    }

    /** One turn of the loop of WriteBlocks. */
    method WriteNext(rest: map<Id, seq<byte>>, id: Id, idxs: map<nat, IdxBlock>, ghost goal: map<Id, seq<byte>>,
                     ghost m: Blocks)
      returns (idxs': map<nat, IdxBlock>)
      requires id in rest && Progress(goal, m, rest, idxs)
      modifies this`file, this`blocksMap, this`full
      ensures Progress(goal, m, rest - {id}, idxs')
    {
      ghost var contents, before := Contents(), blocksMap;
      RoomForNext(count, blockSize, before, rest, id);
      var block := WriteBlock(id, rest[id]);
      FitsNext(count, blockSize, before, rest, block);
      GoalKept(contents, rest, id);
      TracksAdd(m, before, idxs, block);
      idxs' := idxs[block.Slot() := block];
    }

    /** The loop of WriteBlocks: the batch, in any order. */
    method WriteBatch(batch: map<Id, seq<byte>>) returns (idxs: map<nat, IdxBlock>)
      requires Healthy() && Fits(count, blockSize, blocksMap, batch)
      modifies this`file, this`blocksMap, this`full
      ensures Healthy()
      ensures Contents() == old(Contents()) + batch
      ensures Tracks(old(blocksMap), blocksMap, idxs)
    {
      ghost var goal, m := Contents() + batch, blocksMap;
      idxs := map[];
      TracksNone(m);
      var rest := batch;
      while rest.Keys != {}
        invariant Progress(goal, m, rest, idxs)
        decreases |rest|
      {
        var id :| id in rest.Keys;
        idxs := WriteNext(rest, id, idxs, goal, m);
        SmallerWithout(rest, id);
        rest := rest - {id};
      }
      NothingLeft(Contents(), rest);
    }

    /** WriteBlocks: the blocks, then their index records. */
    method WriteBlocks(batch: map<Id, seq<byte>>)
      requires Valid() && Fits(count, blockSize, blocksMap, batch)
      modifies this`file, this`blocksMap, this`full, idxFile
      ensures Valid()
      ensures Contents() == old(Contents()) + batch
    {
      hide MapOk, Indexed, Stored, Tracks, Marshal;
      var idxs := WriteBatch(batch);
      ghost var idx := idxFile.file;
      TrackedFit(count, blockSize, idx, old(blocksMap), blocksMap, idxs);
      idxFile.Write(idxs);
      IndexedAfterWrite(count, blockSize, idx, idxFile.file, old(blocksMap), blocksMap, idxs);
    }

    /** The loop of RemoveBlocks: the slots to erase, the ids taken out of the map. */
    method Forget(ids: seq<Id>) returns (toDelete: seq<nat>)
      modifies this`blocksMap
      ensures toDelete == Targets(old(blocksMap), ids)
      ensures blocksMap == Without(old(blocksMap), ids)
    {
      toDelete := [];
      var i := 0;
      while i < |ids|
        invariant 0 <= i <= |ids| && |toDelete| == i
        invariant forall k :: 0 <= k < i ==> toDelete[k] == Target(old(blocksMap), ids, k)
        invariant blocksMap == Without(old(blocksMap), ids[..i])
      {
        toDelete := toDelete + [if ids[i] in blocksMap then blocksMap[ids[i]].Slot() else 0];
        blocksMap := blocksMap - {ids[i]};
        assert ids[..i + 1] == ids[..i] + [ids[i]];
        i := i + 1;
      }
      assert ids[..i] == ids;
    }

    method ForgetBlocks(ids: seq<Id>) returns (toDelete: seq<nat>)
      requires Healthy()
      modifies this`blocksMap, this`full
      ensures Healthy()
      ensures Contents() == old(Contents()) - Ids(ids)
      ensures toDelete == Targets(old(blocksMap), ids)
      ensures blocksMap == Without(old(blocksMap), ids)
    {
      WithoutOk(count, blockSize, blocksMap, ids);
      WithoutStored(file, blockSize, blocksMap, ids);
      toDelete := Forget(ids);
      if |blocksMap| < count {
        full := false;
      }
    }

    /** RemoveBlocks, for any list of ids: the listed blocks go and no other does; the index
        stays right exactly when the removal is harmless. */
    method RemoveBlocks(ids: seq<Id>)
      requires Valid() && count > 0
      modifies this`blocksMap, this`full, idxFile
      ensures Healthy()
      ensures Contents() == old(Contents()) - Ids(ids)
      ensures Valid() <==> Harmless(old(blocksMap), ids)
    {
      ghost var m, idx := blocksMap, idxFile.file;
      TargetsInRange(count, blockSize, m, ids);
      var toDelete := ForgetBlocks(ids);
      idxFile.Erase(toDelete);
      RemovalKeepsIndex(count, blockSize, m, ids, idx, idxFile.file);
    }

    /** One block: its stored bytes, nothing for an id that is not live. */
    method ReadBlock(id: Id) returns (data: seq<byte>)
      requires Healthy()
      ensures data == Got(Contents(), id)
      ensures Contents().Keys == blocksMap.Keys && data == if id in blocksMap then Contents()[id] else []
    {
      var header := if id in blocksMap then blocksMap[id] else IdxBlock(id, 0, 0);
      data := ReadContents(header.Slot(), header.size);
    }

    /** ReadBlocks. */
    method ReadBlocks(ids: seq<Id>) returns (result: map<Id, seq<byte>>)
      requires Healthy()
      ensures result.Keys == Ids(ids)
      ensures forall id :: id in result ==> result[id] == Got(Contents(), id)
    {
      hide Contents, Got, MapOk;
      result := map[];
      var i := 0;
      while i < |ids|
        invariant 0 <= i <= |ids| && result.Keys == Ids(ids[..i])
        invariant forall id :: id in result ==> result[id] == Got(Contents(), id)
      {
        var data := ReadBlock(ids[i]);
        IdsNext(ids, i);
        result := result[ids[i] := data];
        i := i + 1;
      }
      assert ids[..i] == ids;
    }

    method ReadContents(blockN: nat, size: nat) returns (data: seq<byte>)
      requires Healthy() && (size == 0 || (blockN < count && size <= blockSize))
      ensures data == if size == 0 then [] else Chunk(file, Start(blockN, blockSize), size)
    {
      if size == 0 {
        return [];
      }
      SlotInside(count, blockSize, blockN);
      var at := Start(blockN, blockSize);
      data := file[at..at + size];
    }

    method IsAvailable(blocks: nat) returns (r: bool)
      requires Healthy()
      ensures r <==> |blocksMap| + blocks <= count && !full
      ensures r || blocks == 0 || |blocksMap| + blocks > count
    {
      r := !full && count - |blocksMap| >= blocks;
    }

    /** What the drain loop collects: one payload per id, the last one queued. */
    method Drain(queue: seq<(Id, seq<byte>)>) returns (blocks: map<Id, seq<byte>>)
      ensures blocks == Collected(queue)
      ensures forall i :: 0 <= i < |queue| && (forall j :: i < j < |queue| ==> queue[j].0 != queue[i].0) ==>
                queue[i].0 in blocks && blocks[queue[i].0] == queue[i].1
    {
      blocks := map[];
      var i := 0;
      while i < |queue|
        invariant 0 <= i <= |queue| && blocks == Collected(queue[..i])
      {
        assert queue[..i + 1][..i] == queue[..i];
        blocks := blocks[queue[i].0 := queue[i].1];
        i := i + 1;
      }
      assert queue[..i] == queue;
      forall i | 0 <= i < |queue| && (forall j :: i < j < |queue| ==> queue[j].0 != queue[i].0)
        ensures queue[i].0 in blocks && blocks[queue[i].0] == queue[i].1
      {
        CollectedLast(queue, i);
      }
    }

    /** The first `n` blocks of a map, in any order. */
    method TakeSome(blocks: map<Id, seq<byte>>, n: nat) returns (some: map<Id, seq<byte>>)
      requires n <= |blocks|
      ensures |some| == n && PartOf(some, blocks)
    {
      some := map[];
      var rest := blocks;
      while |some| < n
        invariant |some| <= n && |some| + |rest| == |blocks| && some.Keys !! rest.Keys
        invariant PartOf(some, blocks) && PartOf(rest, blocks)
      {
        NonEmpty(rest);
        var id :| id in rest.Keys;
        TakeOne(some, rest, blocks, id);
        some, rest := some[id := rest[id]], rest - {id};
      }
    }

    /** The flush of the sink: the whole batch when it fits, else as many blocks as there are
        free slots; the rest is dropped. No batch of new ids ever overruns the slots. */
    method Flush(queue: seq<(Id, seq<byte>)>) returns (written: map<Id, seq<byte>>)
      requires Valid()
      requires forall i :: 0 <= i < |queue| ==>
                 queue[i].0 !in blocksMap && !Zeros(queue[i].0) && |queue[i].1| <= blockSize
      modifies this`file, this`blocksMap, this`full, idxFile
      ensures Valid() && Contents() == old(Contents()) + written
      ensures PartOf(written, Collected(queue))
      ensures |written| == if |old(blocksMap)| + |Collected(queue)| <= count then |Collected(queue)|
                           else count - |old(blocksMap)|
    {
      hide MapOk, Indexed, Stored, Collected;
      MapFits(count, blockSize, blocksMap);
      written := Drain(queue);
      forall id | id in written ensures id !in blocksMap && !Zeros(id) && |written[id]| <= blockSize {
        var i := CollectedFrom(queue, id);
      }
      if |written| == 0 {
        EmptyMap(written);
        return;
      }
      var available := IsAvailable(|written|);
      if !available {
        written := TakeSome(written, count - |blocksMap|);
      }
      assert Fits(count, blockSize, blocksMap, written);
      WriteBlocks(written);
    }
  }
}
