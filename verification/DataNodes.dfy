/** Data nodes with their partitions, and a file's way through them: blocks are queued for
    partitions, flushed, registered, and read back by the registry. */
module DataNodes {
  import opened Varint
  import opened IdxFile
  import opened Sorting
  import opened Storage
  import opened BlockReads
  import P = Partition

  // ----- ids -----

  /** An id as the registry hands them out: 36 characters, none of them zero. */
  predicate Uuid(s: string)
  {
    |s| == ID_SIZE && forall k :: 0 <= k < |s| ==> 0 < s[k] as int < 256
  }

  /** The bytes of an id. */
  function Key(s: string): (id: Id)
    requires Uuid(s)
    ensures !Zeros(id)
  {
    var id: seq<byte> := seq(|s|, k requires 0 <= k < |s| => s[k] as int);
    assert id[0] != 0;
    id
  }

  lemma KeyInjective(a: string, b: string)
    requires Uuid(a) && Uuid(b) && Key(a) == Key(b)
    ensures a == b
  {
    forall k | 0 <= k < |a| ensures a[k] == b[k] {
      assert Key(a)[k] == Key(b)[k];
    }
  }

  // ----- queues -----

  type Queue = seq<(Id, seq<byte>)>

  /** What a round-robin over the open partitions queues for partition p. */
  function Queued(blocks: seq<Block>, open: seq<string>, p: string): Queue
    requires open != [] && forall i :: 0 <= i < |blocks| ==> Uuid(blocks[i].id)
  {
    if blocks == [] then []
    else
      var n := |blocks| - 1;
      var rest := Queued(blocks[..n], open, p);
      if open[n % |open|] == p then rest + [(Key(blocks[n].id), blocks[n].data)] else rest
  }

  /** Each queued block is one of the blocks, ... */
  lemma {:induction false} QueuedFrom(blocks: seq<Block>, open: seq<string>, p: string, k: nat) returns (i: nat)
    requires open != [] && forall i :: 0 <= i < |blocks| ==> Uuid(blocks[i].id)
    requires k < |Queued(blocks, open, p)|
    ensures i < |blocks| && open[i % |open|] == p
    ensures Queued(blocks, open, p)[k] == (Key(blocks[i].id), blocks[i].data)
  {
    var n := |blocks| - 1;
    if k < |Queued(blocks[..n], open, p)| {
      i := QueuedFrom(blocks[..n], open, p, k);
    } else {
      i := n;
    }
  }

  /** ... and each block is queued for its partition. */
  lemma {:induction false} QueuedHas(blocks: seq<Block>, open: seq<string>, i: nat) returns (k: nat)
    requires open != [] && forall i :: 0 <= i < |blocks| ==> Uuid(blocks[i].id)
    requires i < |blocks|
    ensures var q := Queued(blocks, open, open[i % |open|]);
            k < |q| && q[k] == (Key(blocks[i].id), blocks[i].data)
  {
    var n := |blocks| - 1;
    if i < n {
      k := QueuedHas(blocks[..n], open, i);
    } else {
      k := |Queued(blocks[..n], open, open[i % |open|])|;
    }
  }

  /** The sinks with what a list of blocks adds to them. */
  ghost function SinksAfter(sinks: map<string, Queue>, blocks: seq<Block>, open: seq<string>): map<string, Queue>
    requires open != [] && forall i :: 0 <= i < |blocks| ==> Uuid(blocks[i].id)
  {
    map p | p in sinks :: sinks[p] + Queued(blocks, open, p)
  }

  lemma SinksAre(sinks: map<string, Queue>, blocks: seq<Block>, open: seq<string>)
    requires open != [] && forall i :: 0 <= i < |blocks| ==> Uuid(blocks[i].id)
    ensures SinksAfter(sinks, blocks, open).Keys == sinks.Keys
    ensures forall p :: p in sinks ==> SinksAfter(sinks, blocks, open)[p] == sinks[p] + Queued(blocks, open, p)
  {
  }

  lemma SinksNone(sinks: map<string, Queue>, blocks: seq<Block>, open: seq<string>)
    requires open != []
    ensures SinksAfter(sinks, blocks[..0], open) == sinks
  {
    assert forall p :: p in sinks ==> sinks[p] + [] == sinks[p];
  }

  lemma SinksNext(sinks: map<string, Queue>, blocks: seq<Block>, open: seq<string>, i: nat)
    requires open != [] && i < |blocks| && forall i :: 0 <= i < |blocks| ==> Uuid(blocks[i].id)
    requires open[i % |open|] in sinks
    ensures open[i % |open|] in SinksAfter(sinks, blocks[..i], open)
    ensures var p, now := open[i % |open|], SinksAfter(sinks, blocks[..i], open);
            SinksAfter(sinks, blocks[..i + 1], open) == now[p := now[p] + [(Key(blocks[i].id), blocks[i].data)]]
  {
    hide Key, Uuid, Queued;
    var next := SinksAfter(sinks, blocks[..i + 1], open);
    forall q | q in sinks
      ensures next[q] == sinks[q] + Queued(blocks[..i], open, q)
                         + if open[i % |open|] == q then [(Key(blocks[i].id), blocks[i].data)] else []
    {
      QueuedNext(blocks, open, q, i);
    }
    var p, now := open[i % |open|], SinksAfter(sinks, blocks[..i], open);
    forall q | q in sinks && q != p ensures next[q] == now[q] {
      assert now[q] + [] == now[q];
    }
    assert next.Keys == now.Keys;
  }

  lemma QueuedNext(blocks: seq<Block>, open: seq<string>, p: string, i: nat)
    requires open != [] && i < |blocks| && forall i :: 0 <= i < |blocks| ==> Uuid(blocks[i].id)
    ensures Queued(blocks[..i + 1], open, p) ==
            Queued(blocks[..i], open, p)
            + if open[i % |open|] == p then [(Key(blocks[i].id), blocks[i].data)] else []
  {
    hide Key, Uuid;
    assert blocks[..i + 1][..i] == blocks[..i];
  }

  ghost predicate DistinctIds(queue: Queue)
  {
    forall i, j :: 0 <= i < j < |queue| ==> queue[i].0 != queue[j].0
  }

  lemma {:induction false} QueuedDistinct(blocks: seq<Block>, open: seq<string>, p: string)
    requires open != [] && forall i :: 0 <= i < |blocks| ==> Uuid(blocks[i].id)
    requires forall i, j :: 0 <= i < j < |blocks| ==> blocks[i].id != blocks[j].id
    ensures DistinctIds(Queued(blocks, open, p))
  {
    if blocks != [] {
      var n := |blocks| - 1;
      QueuedDistinct(blocks[..n], open, p);
      var rest := Queued(blocks[..n], open, p);
      forall k | 0 <= k < |rest| ensures rest[k].0 != Key(blocks[n].id) {
        var i := QueuedFrom(blocks[..n], open, p, k);
        if Key(blocks[i].id) == Key(blocks[n].id) {
          KeyInjective(blocks[i].id, blocks[n].id);
        }
      }
    }
  }

  lemma NotCollected(queue: Queue, n: nat)
    requires DistinctIds(queue) && n < |queue|
    ensures queue[n].0 !in P.Collected(queue[..n])
  {
    hide P.Collected;
    if queue[n].0 in P.Collected(queue[..n]) {
      var i := P.CollectedFrom(queue[..n], queue[n].0);
    }
  }

  /** A queue of distinct ids is collected whole. */
  lemma {:induction false} CollectedWhole(queue: Queue)
    requires DistinctIds(queue)
    ensures |P.Collected(queue)| == |queue|
    ensures forall k :: 0 <= k < |queue| ==>
              queue[k].0 in P.Collected(queue) && P.Collected(queue)[queue[k].0] == queue[k].1
  {
    hide P.Collected;
    CollectedSize(queue);
    forall k | 0 <= k < |queue|
      ensures queue[k].0 in P.Collected(queue) && P.Collected(queue)[queue[k].0] == queue[k].1
    {
      P.CollectedLast(queue, k);
    }
  }

  lemma {:induction false} CollectedSize(queue: Queue)
    requires DistinctIds(queue)
    ensures |P.Collected(queue)| == |queue|
  {
    if queue != [] {
      var n := |queue| - 1;
      var before := P.Collected(queue[..n]);
      CollectedSize(queue[..n]);
      NotCollected(queue, n);
      assert P.Collected(queue) == before[queue[n].0 := queue[n].1];
      assert P.Collected(queue).Keys == before.Keys + {queue[n].0};
    }
  }

  lemma AllOf(part: map<Id, seq<byte>>, whole: map<Id, seq<byte>>)
    requires P.PartOf(part, whole) && |part| == |whole|
    ensures part == whole
  {
    assert part.Keys <= whole.Keys;
    SameSize(part.Keys, whole.Keys);
  }

  lemma {:induction false} SameSize<T>(a: set<T>, b: set<T>)
    requires a <= b && |a| == |b|
    ensures a == b
  {
    if b - a != {} {
      var x :| x in b - a;
      assert a <= b - {x};
      Smaller(a, b - {x});
    }
  }

  lemma {:induction false} Smaller<T>(a: set<T>, b: set<T>)
    requires a <= b
    ensures |a| <= |b|
  {
    assert b == a + (b - a);
  }

  // ----- a node -----

  /** The partition takes the whole queue: new ids, payloads that fit a block, a free slot for
      each. */
  ghost predicate Accepts(part: P.Partition, queue: Queue)
    reads part
  {
    Takes(part.count, part.blockSize, part.blocksMap, queue)
  }

  ghost predicate Takes(count: nat, blockSize: nat, m: P.Blocks, queue: Queue)
  {
    && DistinctIds(queue) && |m| + |queue| <= count
    && forall i :: 0 <= i < |queue| ==> queue[i].0 !in m && !Zeros(queue[i].0) && |queue[i].1| <= blockSize
  }

  /** The flush of one sink that has room for all it holds. */
  method FlushWhole(part: P.Partition, queue: Queue)
    requires part.Valid() && Accepts(part, queue)
    modifies part`file, part`blocksMap, part`full, part.idxFile
    ensures part.Valid() && part.Contents() == old(part.Contents()) + P.Collected(queue)
    ensures forall k :: 0 <= k < |queue| ==>
              queue[k].0 in part.Contents() && part.Contents()[queue[k].0] == queue[k].1
  {
    CollectedWhole(queue);
    var written := part.Flush(queue);
    AllOf(written, P.Collected(queue));
  }

  ghost predicate Emptied(sinks: map<string, Queue>, names: set<string>)
  {
    forall p :: p in names ==> p in sinks && sinks[p] == []
  }

  /** The contents of all partitions when some have been flushed. */
  ghost function Flushed(stored: map<string, map<Id, seq<byte>>>, queues: map<string, Queue>, done: set<string>)
    : map<string, map<Id, seq<byte>>>
  {
    map p | p in stored :: if p in done && p in queues then stored[p] + P.Collected(queues[p]) else stored[p]
  }

  lemma FlushedNone(stored: map<string, map<Id, seq<byte>>>, queues: map<string, Queue>)
    ensures Flushed(stored, queues, {}) == stored && Emptied(queues, {})
  {
  }

  lemma FlushedNext(stored: map<string, map<Id, seq<byte>>>, queues: map<string, Queue>, sinks: map<string, Queue>,
                    done: set<string>, p: string)
    requires p in stored && p in queues && p !in done && Emptied(sinks, done)
    ensures Emptied(sinks[p := []], done + {p}) && p in Flushed(stored, queues, done)
    ensures var now := Flushed(stored, queues, done);
            Flushed(stored, queues, done + {p}) == now[p := now[p] + P.Collected(queues[p])]
  {
  }

  class DataNode {
    const parts: map<string, P.Partition>
    var sinks: map<string, Queue>            // blocks put for a partition and not yet flushed

    ghost function Objects(): set<object>
    {
      (set p | p in parts :: parts[p] as object) + (set p | p in parts :: parts[p].idxFile as object)
    }

    ghost predicate Separate()
    {
      forall p, q :: p in parts && q in parts && p != q ==>
        parts[p] != parts[q] && parts[p].idxFile != parts[q].idxFile
    }

    ghost predicate Healthy()
      reads Objects()
    {
      forall p :: p in parts ==> parts[p].Valid()
    }

    ghost predicate Valid()
      reads this, Objects()
    {
      Separate() && Healthy() && sinks.Keys == parts.Keys
    }

    ghost function Stored(): (r: map<string, map<Id, seq<byte>>>)
      reads Objects()
      ensures r.Keys == parts.Keys
    {
      map p | p in parts :: parts[p].Contents()
    }

    /** The bytes of a block in a partition. */
    ghost predicate Has(p: string, id: Id, data: seq<byte>)
      reads Objects()
    {
      p in parts && id in parts[p].Contents() && parts[p].Contents()[id] == data
    }

    /** Manager.WriteBlocks: block after block to the sinks of the open partitions in turn. */
    method WriteBlocks(blocks: seq<Block>, open: seq<string>) returns (placed: seq<string>)
      requires Valid() && open != [] && forall i :: 0 <= i < |open| ==> open[i] in parts
      requires forall i :: 0 <= i < |blocks| ==> Uuid(blocks[i].id)
      modifies this`sinks
      ensures Valid() && |placed| == |blocks|
      ensures forall i :: 0 <= i < |blocks| ==> placed[i] == open[i % |open|]
      ensures forall p :: p in sinks ==> sinks[p] == old(sinks)[p] + Queued(blocks, open, p)
    {
      hide P.Partition.Valid, Uuid, Key, Queued, SinksAfter;
      placed := [];
      var i := 0;
      SinksNone(sinks, blocks, open);
      while i < |blocks|
        invariant 0 <= i <= |blocks| && |placed| == i && sinks == SinksAfter(old(sinks), blocks[..i], open)
        invariant forall k :: 0 <= k < i ==> placed[k] == open[k % |open|]
      {
        var p := open[i % |open|];
        SinksNext(old(sinks), blocks, open, i);
        sinks := sinks[p := sinks[p] + [(Key(blocks[i].id), blocks[i].data)]];
        placed := placed + [p];
        i := i + 1;
      }
      assert blocks[..i] == blocks;
      SinksAre(old(sinks), blocks, open);
    }

    /** One sink flushed. */
    method FlushOne(p: string)
      requires Valid() && p in parts && Accepts(parts[p], sinks[p])
      modifies this`sinks, Objects()
      ensures Valid() && sinks == old(sinks)[p := []]
      ensures Stored() == old(Stored())[p := old(Stored())[p] + P.Collected(old(sinks)[p])]
      ensures forall q :: q in parts && q != p ==> parts[q].blocksMap == old(parts[q].blocksMap)
    {
      hide Accepts, Valid, P.Partition.Contents, P.Collected;
      FlushAt(p);
    }

    method FlushAt(p: string)
      requires Valid() && p in parts && Accepts(parts[p], sinks[p])
      modifies this`sinks, parts[p], parts[p].idxFile
      ensures Valid() && sinks == old(sinks)[p := []]
      ensures parts[p].Contents() == old(parts[p].Contents()) + P.Collected(old(sinks)[p])
      ensures forall q :: q in parts && q != p ==> parts[q].Contents() == old(parts[q].Contents())
      ensures forall q :: q in parts && q != p ==> parts[q].blocksMap == old(parts[q].blocksMap)
    {
      hide Accepts, P.Partition.Valid, P.Partition.Contents, P.Collected;
      FlushWhole(parts[p], sinks[p]);
      sinks := sinks[p := []];
    }

    /** Every partition in a set has room for its sink. */
    ghost predicate Roomy(names: set<string>)
      requires names <= parts.Keys && sinks.Keys == parts.Keys
      reads this`sinks, Objects()
    {
      forall p :: p in names ==> Accepts(parts[p], sinks[p])
    }

    /** All sinks flushed, in any order: nothing is lost when every partition has room. */
    method FlushAll()
      requires Valid() && Roomy(parts.Keys)
      modifies this`sinks, Objects()
      ensures Valid() && Emptied(sinks, parts.Keys) && Stored() == Flushed(old(Stored()), old(sinks), parts.Keys)
    {
      hide P.Partition.Valid, P.Partition.Contents, P.Collected, Stored, Flushed, Emptied, Takes;
      var rest := parts.Keys;
      ghost var queues, before := sinks, Stored();
      FlushedNone(before, queues);
      assert parts.Keys - rest == {};
      while rest != {}
        invariant rest <= parts.Keys && Valid() && Roomy(rest)
        invariant forall p :: p in rest ==> sinks[p] == queues[p]
        invariant Emptied(sinks, parts.Keys - rest) && Stored() == Flushed(before, queues, parts.Keys - rest)
      {
        var p :| p in rest;
        FlushedNext(before, queues, sinks, parts.Keys - rest, p);
        FlushOne(p);
        assert parts.Keys - (rest - {p}) == parts.Keys - rest + {p};
        rest := rest - {p};
      }
      assert parts.Keys - {} == parts.Keys;
    }

    /** HandleGetBlock on a partition the node has. */
    method ReadBlock(r: Request) returns (b: Block)
      requires Valid() && r.partitionID in parts && Uuid(r.blockID)
      ensures b == Answer(r)
    {
      hide Key, P.Got, P.Partition.Contents;
      var id := Key(r.blockID);
      var bs := parts[r.partitionID].ReadBlocks([id]);
      assert id in P.Ids([id]);
      b := Block(r.blockID, 0, bs[id]);
    }

    ghost function Answer(r: Request): Block
      requires r.partitionID in parts && Uuid(r.blockID)
      reads Objects()
    {
      Block(r.blockID, 0, P.Got(parts[r.partitionID].Contents(), Key(r.blockID)))
    }

    /** GetBlocks: the blocks asked for, an error when a partition is unknown. */
    method GetBlocks(list: seq<Request>) returns (r: Option<seq<Block>>)
      requires Valid() && forall i :: 0 <= i < |list| ==> Uuid(list[i].blockID)
      ensures r.Some? <==> forall i :: 0 <= i < |list| ==> list[i].partitionID in parts
      ensures r.Some? ==> |r.value| == |list|
      ensures r.Some? ==> forall i :: 0 <= i < |list| ==> r.value[i] == Answer(list[i])
    {
      hide P.Partition.Valid, P.Partition.Contents, P.Got, Uuid, Key;
      var sent := [];
      var i := 0;
      while i < |list|
        invariant 0 <= i <= |list| && |sent| == i
        invariant forall k :: 0 <= k < i ==> list[k].partitionID in parts && sent[k] == Answer(list[k])
      {
        if list[i].partitionID !in parts {
          return None;
        }
        var b := ReadBlock(list[i]);
        sent := sent + [b];
        i := i + 1;
      }
      r := Some(sent);
    }
  }

  // ----- storing -----

  /** Whatever a partition held it still holds. */
  ghost predicate Grown(before: map<string, map<Id, seq<byte>>>, now: map<string, map<Id, seq<byte>>>)
  {
    before.Keys == now.Keys && forall p :: p in before ==> P.PartOf(before[p], now[p])
  }

  /** The blocks are in the partitions they were placed in. */
  ghost predicate Placed(stored: map<string, map<Id, seq<byte>>>, blocks: seq<Block>, placed: seq<string>)
  {
    && |placed| == |blocks|
    && forall i :: 0 <= i < |blocks| ==>
         && Uuid(blocks[i].id) && placed[i] in stored
         && Key(blocks[i].id) in stored[placed[i]] && stored[placed[i]][Key(blocks[i].id)] == blocks[i].data
  }

  ghost predicate Uploadable(blocks: seq<Block>)
  {
    && (forall i :: 0 <= i < |blocks| ==> Uuid(blocks[i].id))
    && (forall i, j :: 0 <= i < j < |blocks| ==> blocks[i].id != blocks[j].id)
  }

  /** Every partition has room for what the round-robin gives it. */
  ghost predicate Fits(node: DataNode, blocks: seq<Block>, open: seq<string>)
    requires open != [] && Uploadable(blocks)
    reads node.Objects()
  {
    forall p :: p in node.parts ==> Accepts(node.parts[p], Queued(blocks, open, p))
  }

  lemma FlushedPlaces(stored: map<string, map<Id, seq<byte>>>, queues: map<string, Queue>, blocks: seq<Block>,
                      open: seq<string>, placed: seq<string>)
    requires open != [] && Uploadable(blocks) && queues.Keys == stored.Keys
    requires forall p :: p in queues ==> queues[p] == Queued(blocks, open, p)
    requires |placed| == |blocks|
    requires forall i :: 0 <= i < |blocks| ==> placed[i] == open[i % |open|] && placed[i] in stored
    ensures Placed(Flushed(stored, queues, stored.Keys), blocks, placed)
  {
    hide Key, Uuid, Queued, P.Collected;
    forall i | 0 <= i < |blocks|
      ensures var q := P.Collected(queues[placed[i]]);
              Key(blocks[i].id) in q && q[Key(blocks[i].id)] == blocks[i].data
    {
      QueuedDistinct(blocks, open, placed[i]);
      CollectedWhole(Queued(blocks, open, placed[i]));
      var k := QueuedHas(blocks, open, i);
    }
  }

  lemma FlushedGrows(stored: map<string, map<Id, seq<byte>>>, queues: map<string, Queue>)
    requires queues.Keys == stored.Keys
    requires forall p, k :: p in queues && 0 <= k < |queues[p]| ==> queues[p][k].0 !in stored[p]
    ensures Grown(stored, Flushed(stored, queues, stored.Keys))
  {
    forall p, id | p in stored && id in stored[p] ensures id !in P.Collected(queues[p]) {
      if id in P.Collected(queues[p]) {
        var k := P.CollectedFrom(queues[p], id);
      }
    }
  }

  /** Blocks put on a node and flushed: all of them are there, and all that was there before. */
  method Store(node: DataNode, blocks: seq<Block>, open: seq<string>) returns (placed: seq<string>)
    requires node.Valid() && Emptied(node.sinks, node.parts.Keys) && Uploadable(blocks)
    requires open != [] && (forall i :: 0 <= i < |open| ==> open[i] in node.parts) && Fits(node, blocks, open)
    modifies node`sinks, node.Objects()
    ensures node.Valid() && Emptied(node.sinks, node.parts.Keys)
    ensures |placed| == |blocks| && Placed(node.Stored(), blocks, placed) && Grown(old(node.Stored()), node.Stored())
  {
    hide DataNode.Valid, DataNode.Stored, Flushed, Placed, Grown, Fits, Uploadable, Queued, Takes;
    placed := Enqueue(node, blocks, open);
    Outcome(node, blocks, open, placed);
    node.FlushAll();
  }

  /** Empty sinks filled with the blocks. */
  method Enqueue(node: DataNode, blocks: seq<Block>, open: seq<string>) returns (placed: seq<string>)
    requires node.Valid() && Emptied(node.sinks, node.parts.Keys) && Uploadable(blocks)
    requires open != [] && (forall i :: 0 <= i < |open| ==> open[i] in node.parts) && Fits(node, blocks, open)
    modifies node`sinks
    ensures Primed(node, blocks, open, placed) && node.Stored() == old(node.Stored())
  {
    hide DataNode.Healthy, Queued, Uuid, Key, Takes;
    placed := node.WriteBlocks(blocks, open);
    QueuesFrom(old(node.sinks), node.sinks, blocks, open);
  }

  ghost predicate Primed(node: DataNode, blocks: seq<Block>, open: seq<string>, placed: seq<string>)
    reads node, node.Objects()
  {
    && node.Valid() && node.Roomy(node.parts.Keys) && open != [] && Uploadable(blocks) && |placed| == |blocks|
    && (forall i :: 0 <= i < |blocks| ==> placed[i] == open[i % |open|] && placed[i] in node.parts)
    && (forall p :: p in node.sinks ==> node.sinks[p] == Queued(blocks, open, p))
  }

  lemma Outcome(node: DataNode, blocks: seq<Block>, open: seq<string>, placed: seq<string>)
    requires Primed(node, blocks, open, placed)
    ensures node.Valid() && node.Roomy(node.parts.Keys)
    ensures Placed(Flushed(node.Stored(), node.sinks, node.parts.Keys), blocks, placed)
    ensures Grown(node.Stored(), Flushed(node.Stored(), node.sinks, node.parts.Keys))
  {
    hide DataNode.Healthy, Flushed, Queued, Uuid, Key, P.Collected;
    Fresh(node);
    FlushedPlaces(node.Stored(), node.sinks, blocks, open, placed);
    FlushedGrows(node.Stored(), node.sinks);
  }

  /** Empty sinks hold just what was queued. */
  lemma QueuesFrom(before: map<string, Queue>, now: map<string, Queue>, blocks: seq<Block>, open: seq<string>)
    requires open != [] && Uploadable(blocks) && Emptied(before, now.Keys)
    requires forall p :: p in now ==> now[p] == before[p] + Queued(blocks, open, p)
    ensures forall p :: p in now ==> now[p] == Queued(blocks, open, p)
  {
  }

  lemma Fresh(node: DataNode)
    requires node.Valid() && forall p :: p in node.parts ==> Accepts(node.parts[p], node.sinks[p])
    ensures forall p, k :: p in node.sinks && 0 <= k < |node.sinks[p]| ==> node.sinks[p][k].0 !in node.Stored()[p]
  {
  }

  // ----- reading -----

  type Nodes = map<string, DataNode>

  ghost function AllObjects(nodes: Nodes): set<object>
  {
    (set n | n in nodes :: nodes[n] as object) + (set n, o | n in nodes && o in nodes[n].Objects() :: o)
  }

  ghost predicate Running(nodes: Nodes)
    reads AllObjects(nodes)
  {
    forall n :: n in nodes ==> nodes[n].Valid()
  }

  /** The block is where its first placement says, with these bytes. */
  ghost predicate HeldAt(nodes: Nodes, b: BlockInfo, data: seq<byte>)
    reads AllObjects(nodes)
  {
    && Uuid(b.id) && b.placements != [] && b.placements[0].nodeID in nodes
    && nodes[b.placements[0].nodeID].Has(b.placements[0].partitionID, Key(b.id), data)
  }

  ghost predicate Held(nodes: Nodes, blocks: seq<BlockInfo>, data: Contents)
    reads AllObjects(nodes)
  {
    forall i :: 0 <= i < |blocks| ==> HeldAt(nodes, blocks[i], data(blocks[i].id))
  }

  lemma {:induction false} SelectFrom(items: Requests, n: string, k: nat) returns (j: nat)
    requires k < |Select(items, n)|
    ensures j < |items| && items[j] == (n, Select(items, n)[k])
  {
    var m := |items| - 1;
    if k < |Select(items[..m], n)| {
      j := SelectFrom(items[..m], n, k);
    } else {
      j := m;
    }
  }

  /** What a node is asked for it has. */
  lemma Answers(nodes: Nodes, blocks: seq<BlockInfo>, data: Contents, n: string, k: nat)
    requires Held(nodes, blocks, data) && forall i :: 0 <= i < |blocks| ==> blocks[i].placements != []
    requires k < |Select(Reads(blocks), n)|
    ensures var r := Select(Reads(blocks), n)[k];
            && n in nodes && Uuid(r.blockID) && r.partitionID in nodes[n].parts
            && nodes[n].Answer(r) == Block(r.blockID, 0, data(r.blockID))
  {
    hide Select, Key, P.Partition.Contents;
    var j := SelectFrom(Reads(blocks), n, k);
    assert HeldAt(nodes, blocks[j], data(blocks[j].id));
  }

  /** The reply of one node. */
  method Ask(nodes: Nodes, n: string, list: seq<Request>, ghost blocks: seq<BlockInfo>, ghost data: Contents)
    returns (reply: seq<Block>)
    requires Running(nodes) && Held(nodes, blocks, data) && forall i :: 0 <= i < |blocks| ==> blocks[i].placements != []
    requires n in nodes && list == Select(Reads(blocks), n)
    ensures Running(nodes) && Held(nodes, blocks, data) && reply == Fetched(list, data)
  {
    hide Select, Key, P.Partition.Contents, P.Partition.Valid;
    forall k | 0 <= k < |list|
      ensures Uuid(list[k].blockID) && list[k].partitionID in nodes[n].parts
      ensures nodes[n].Answer(list[k]) == Block(list[k].blockID, 0, data(list[k].blockID))
    {
      Answers(nodes, blocks, data, n, k);
    }
    var r := nodes[n].GetBlocks(list);
    reply := r.value;
  }

  /** GetFileHandler over real nodes, in any order: the file with its bytes. */
  method ReadFile(nodes: Nodes, blocks: seq<BlockInfo>, order: seq<string>, ghost data: Contents)
    returns (r: seq<Block>)
    requires Running(nodes) && Held(nodes, blocks, data) && DistinctBlocks(blocks)
    requires forall i :: 0 <= i < |blocks| ==> blocks[i].placements != []
    requires Distinct(order) && Elements(order) == BlockReads.Nodes(Reads(blocks))
    ensures r == File(blocks, data)
  {
    hide Select, DistinctBlocks, Distinct, File, Fetched, P.Partition.Contents, P.Partition.Valid, Key, Uuid;
    var bMap := GroupReads(blocks);
    var replies := AskAll(nodes, bMap, order, blocks, data);
    ghost var fetch := (n: string, q: Request) => Block(q.blockID, 0, data(q.blockID));
    r := GetFile(blocks, order, replies, data, fetch);
  }

  /** The replies of all nodes. */
  method AskAll(nodes: Nodes, bMap: map<string, seq<Request>>, order: seq<string>, ghost blocks: seq<BlockInfo>,
                ghost data: Contents) returns (replies: map<string, seq<Block>>)
    requires Running(nodes) && Held(nodes, blocks, data)
    requires forall i :: 0 <= i < |blocks| ==> blocks[i].placements != []
    requires bMap == Grouped(Reads(blocks)) && Elements(order) == BlockReads.Nodes(Reads(blocks))
    ensures Complete(Reads(blocks), replies, data)
  {
    hide Running, Held, Select, Fetched;
    replies := map[];
    var i := 0;
    while i < |order|
      invariant 0 <= i <= |order| && replies.Keys == Elements(order[..i])
      invariant Running(nodes) && Held(nodes, blocks, data)
      invariant forall n :: n in replies ==> replies[n] == Fetched(Select(Reads(blocks), n), data)
    {
      assert order[i] in Elements(order);
      Known(nodes, blocks, data, order[i]);
      var reply := Ask(nodes, order[i], bMap[order[i]], blocks, data);
      assert order[..i + 1] == order[..i] + [order[i]];
      replies := replies[order[i] := reply];
      i := i + 1;
    }
    assert order[..i] == order;
  }

  lemma Known(nodes: Nodes, blocks: seq<BlockInfo>, data: Contents, n: string)
    requires Held(nodes, blocks, data) && forall i :: 0 <= i < |blocks| ==> blocks[i].placements != []
    requires n in BlockReads.Nodes(Reads(blocks))
    ensures n in nodes
  {
    var i: nat :| i < |blocks| && Reads(blocks)[i].0 == n;
    assert HeldAt(nodes, blocks[i], data(blocks[i].id));
  }

  // ----- a file there and back -----

  /** What TransportAndRegisterBlocks registers for blocks placed on one node. */
  function Registered(blocks: seq<Block>, fileID: string, n: string, placed: seq<string>): seq<BlockInfo>
    requires |placed| == |blocks|
  {
    seq(|blocks|, i requires 0 <= i < |blocks| =>
      BlockInfo(blocks[i].id, blocks[i].index, fileID, [Placement(n, placed[i])]))
  }

  /** No two nodes share anything. */
  ghost predicate Apart(nodes: Nodes)
  {
    forall n: string, m: string :: n in nodes && m in nodes && n != m ==>
      nodes[n] != nodes[m] && nodes[n].Objects() !! nodes[m].Objects()
  }

  /** The upload of some blocks to a node: they are held there, and so is all that was held
      anywhere before. */
  method Upload(nodes: Nodes, n: string, node: DataNode, fileID: string, blocks: seq<Block>, open: seq<string>,
                ghost data: Contents, ghost others: seq<BlockInfo>)
    returns (infos: seq<BlockInfo>, ghost placed: seq<string>)
    requires Running(nodes) && Apart(nodes) && n in nodes && nodes[n] == node && Uploadable(blocks)
    requires Emptied(node.sinks, node.parts.Keys)
    requires open != [] && (forall i :: 0 <= i < |open| ==> open[i] in node.parts) && Fits(node, blocks, open)
    requires forall i :: 0 <= i < |blocks| ==> data(blocks[i].id) == blocks[i].data
    requires Held(nodes, others, data)
    modifies node`sinks, node.Objects()
    ensures Running(nodes) && Emptied(node.sinks, node.parts.Keys)
    ensures |placed| == |blocks| && infos == Registered(blocks, fileID, n, placed)
    ensures Held(nodes, infos, data) && Held(nodes, others, data)
  {
    hide DataNode.Valid, Emptied, Fits, Key, Uuid, Queued, DataNode.Has, DataNode.Stored, Placed, Grown;
    ghost var before := node.Stored();
    forall i | 0 <= i < |others| && others[i].placements[0].nodeID == n
      ensures InPart(before, others[i].placements[0].partitionID, Key(others[i].id), data(others[i].id))
    {
      HasStored(node, others[i].placements[0].partitionID, Key(others[i].id), data(others[i].id));
    }
    var chosen := Store(node, blocks, open);
    placed := chosen;
    infos := Registered(blocks, fileID, n, chosen);
    JustPlaced(nodes, n, node, fileID, blocks, chosen, data);
    forall i | 0 <= i < |others| ensures HeldAt(nodes, others[i], data(others[i].id)) {
      assert old(HeldAt(nodes, others[i], data(others[i].id)));
      if others[i].placements[0].nodeID == n {
        StillHas(node, before, others[i].placements[0].partitionID, Key(others[i].id), data(others[i].id));
      }
    }
  }

  ghost predicate InPart(stored: map<string, map<Id, seq<byte>>>, p: string, id: Id, data: seq<byte>)
  {
    p in stored && id in stored[p] && stored[p][id] == data
  }

  lemma HasStored(node: DataNode, p: string, id: Id, data: seq<byte>)
    ensures node.Has(p, id, data) <==> InPart(node.Stored(), p, id, data)
  {
  }

  lemma StillHas(node: DataNode, before: map<string, map<Id, seq<byte>>>, p: string, id: Id, data: seq<byte>)
    requires Grown(before, node.Stored()) && InPart(before, p, id, data)
    ensures node.Has(p, id, data)
  {
    hide DataNode.Stored;
    HasStored(node, p, id, data);
  }

  lemma JustPlaced(nodes: Nodes, n: string, node: DataNode, fileID: string, blocks: seq<Block>, placed: seq<string>,
                   data: Contents)
    requires n in nodes && nodes[n] == node && Placed(node.Stored(), blocks, placed)
    requires forall i :: 0 <= i < |blocks| ==> data(blocks[i].id) == blocks[i].data
    ensures Held(nodes, Registered(blocks, fileID, n, placed), data)
  {
    hide Key, Uuid, DataNode.Stored, DataNode.Has;
    forall i | 0 <= i < |blocks| ensures node.Has(placed[i], Key(blocks[i].id), blocks[i].data) {
      HasStored(node, placed[i], Key(blocks[i].id), blocks[i].data);
    }
  }

  /** What was uploaded under an id. */
  function Payload(blocks: seq<Block>, id: string): seq<byte>
  {
    if blocks == [] then []
    else if blocks[|blocks| - 1].id == id then blocks[|blocks| - 1].data
    else Payload(blocks[..|blocks| - 1], id)
  }

  lemma {:induction false} PayloadAt(blocks: seq<Block>, i: nat)
    requires i < |blocks| && forall i, j :: 0 <= i < j < |blocks| ==> blocks[i].id != blocks[j].id
    ensures Payload(blocks, blocks[i].id) == blocks[i].data
  {
    if i < |blocks| - 1 {
      PayloadAt(blocks[..|blocks| - 1], i);
    }
  }

  /** Rows with distinct ids. */
  ghost predicate Insertable(put: seq<BlockInfo>)
  {
    && (forall i :: 0 <= i < |put| ==> put[i].id != "" && put[i].fileID != "")
    && (forall i, j :: 0 <= i < j < |put| ==> put[i].id != put[j].id)
  }

  /** A row whose id is not among those put stays, ... */
  lemma {:induction false} PutKeeps(rows: map<string, BlockInfo>, put: seq<BlockInfo>, id: string)
    requires Insertable(put) && id in rows && forall i :: 0 <= i < |put| ==> put[i].id != id
    ensures BlocksPut(rows, put).Some? && id in BlocksPut(rows, put).value && BlocksPut(rows, put).value[id] == rows[id]
    decreases |put|
  {
    if put != [] {
      PutKeeps(rows[put[0].id := put[0]], put[1..], id);
    }
  }

  /** ... those put are there, ... */
  lemma {:induction false} PutAdds(rows: map<string, BlockInfo>, put: seq<BlockInfo>, i: nat)
    requires Insertable(put) && i < |put|
    ensures BlocksPut(rows, put).Some?
    ensures put[i].id in BlocksPut(rows, put).value && BlocksPut(rows, put).value[put[i].id] == put[i]
    decreases |put|
  {
    var one := rows[put[0].id := put[0]];
    if i == 0 {
      PutKeeps(one, put[1..], put[0].id);
    } else {
      PutAdds(one, put[1..], i - 1);
    }
  }

  /** ... and there are no others. */
  lemma {:induction false} PutOnly(rows: map<string, BlockInfo>, put: seq<BlockInfo>, id: string)
    requires Insertable(put)
    ensures BlocksPut(rows, put).Some?
    ensures id in BlocksPut(rows, put).value ==>
              BlocksPut(rows, put).value[id] in put || (id in rows && BlocksPut(rows, put).value[id] == rows[id])
    decreases |put|
  {
    if put != [] {
      PutOnly(rows[put[0].id := put[0]], put[1..], id);
      assert forall x :: x in put[1..] ==> x in put;
    }
  }

  /** A file without blocks gets exactly these, and they are listed in order. */
  lemma ListedAsPut(rows: map<string, BlockInfo>, put: seq<BlockInfo>, fileID: string, list: seq<BlockInfo>)
    requires Keyed(rows) && BlocksOf(rows, fileID) == map[] && DistinctBlocks(put) && Insertable(put)
    requires forall i :: 0 <= i < |put| ==> put[i].fileID == fileID
    requires BlocksPut(rows, put).Some? && Listing(list, BlocksOf(BlocksPut(rows, put).value, fileID))
    ensures list == put
  {
    hide BlocksPut;
    var now := BlocksPut(rows, put).value;
    assert forall id :: id in rows ==> (id in BlocksOf(rows, fileID) <==> rows[id].fileID == fileID);
    forall x ensures x in list <==> x in put {
      if x in list {
        var i :| 0 <= i < |list| && list[i] == x;
        assert now[list[i].id] == x;
        PutOnly(rows, put, x.id);
      }
      if x in put {
        var i :| 0 <= i < |put| && put[i] == x;
        PutAdds(rows, put, i);
        assert x.id in BlocksOf(now, fileID) && BlocksOf(now, fileID)[x.id] == x;
      }
    }
    SameOrder(list, put);
  }

  lemma {:induction false} NoRepeat<T>(a: seq<T>, x: T)
    requires forall i, j :: 0 <= i < j < |a| ==> a[i] != a[j]
    ensures multiset(a)[x] == if x in a then 1 else 0
  {
    if a != [] {
      var n := |a| - 1;
      NoRepeat(a[..n], x);
      assert a == a[..n] + [a[n]];
      assert x in a <==> x in a[..n] || x == a[n];
    }
  }

  lemma SameOrder(list: seq<BlockInfo>, put: seq<BlockInfo>)
    requires DistinctBlocks(put) && Ordered(list, (b: BlockInfo) => b.index)
    requires forall i, j :: 0 <= i < j < |list| ==> list[i].id != list[j].id
    requires forall x :: x in list <==> x in put
    ensures list == put
  {
    var key := (b: BlockInfo) => b.index;
    forall x ensures multiset(list)[x] == multiset(put)[x] {
      NoRepeat(list, x);
      NoRepeat(put, x);
    }
    assert multiset(list) == multiset(put);
    forall i, j | 0 <= i < j < |list| ensures key(list[i]) < key(list[j]) {
      assert list[i] in list && list[j] in list;
      var a :| 0 <= a < |put| && put[a] == list[i];
      var b :| 0 <= b < |put| && put[b] == list[j];
      assert a != b;
    }
    assert forall i, j :: 0 <= i < j < |put| ==> key(put[i]) < key(put[j]);
    StrictUnique(list, put, key);
  }

  /** A file put and read: blocks uploaded to a node, flushed, registered, listed, fetched and
      put in order are the blocks that were uploaded. */
  method PutAndGet(storage: Storage, nodes: Nodes, n: string, node: DataNode, fileID: string, blocks: seq<Block>,
                   open: seq<string>) returns (r: seq<Block>)
    requires Running(nodes) && Apart(nodes) && n in nodes && nodes[n] == node && Uploadable(blocks)
    requires Emptied(node.sinks, node.parts.Keys)
    requires open != [] && (forall i :: 0 <= i < |open| ==> open[i] in node.parts) && Fits(node, blocks, open)
    requires forall i, j :: 0 <= i < j < |blocks| ==> blocks[i].index < blocks[j].index
    requires Keyed(storage.tables.blocks) && BlocksOf(storage.tables.blocks, fileID) == map[] && fileID != ""
    modifies storage, node`sinks, node.Objects()
    ensures r == blocks
  {
    hide DataNode.Valid, Emptied, Fits, Key, Uuid, Queued, Payload, DataNode.Has, BlocksOf, Registered, File,
         Insertable,
         DistinctBlocks;
    ghost var data := (id: string) => Payload(blocks, id);
    forall i | 0 <= i < |blocks| ensures data(blocks[i].id) == blocks[i].data {
      PayloadAt(blocks, i);
    }
    var infos, placed := Upload(nodes, n, node, fileID, blocks, open, data, []);
    RegisteredRows(blocks, fileID, n, placed, data);
    var list := Register(storage, fileID, infos);
    var order := if |blocks| == 0 then [] else [n];
    OneNode(infos, n, order);
    r := ReadFile(nodes, list, order, data);
  }

  /** RegisterBlocks and the listing of a file that had no blocks. */
  method Register(storage: Storage, fileID: string, infos: seq<BlockInfo>) returns (list: seq<BlockInfo>)
    requires Keyed(storage.tables.blocks) && BlocksOf(storage.tables.blocks, fileID) == map[] && DistinctBlocks(infos)
    requires Insertable(infos) && forall i :: 0 <= i < |infos| ==> infos[i].fileID == fileID
    modifies storage
    ensures list == infos
  {
    hide BlocksPut, Listing, BlocksOf, DistinctBlocks, Insertable;
    ghost var rows := storage.tables.blocks;
    PutOnly(rows, infos, "");
    PutKeyed(rows, infos);
    var ok := storage.PutBlocks(infos);
    list := storage.GetBlocks(fileID);
    ListedAsPut(rows, infos, fileID, list);
  }

  /** The rows of an upload, and what reading them should give. */
  lemma RegisteredRows(blocks: seq<Block>, fileID: string, n: string, placed: seq<string>, data: Contents)
    requires Uploadable(blocks) && |placed| == |blocks| && fileID != ""
    requires forall i, j :: 0 <= i < j < |blocks| ==> blocks[i].index < blocks[j].index
    requires forall i :: 0 <= i < |blocks| ==> data(blocks[i].id) == blocks[i].data
    ensures var infos := Registered(blocks, fileID, n, placed);
            && |infos| == |blocks| && Insertable(infos) && DistinctBlocks(infos) && File(infos, data) == blocks
            && (forall i :: 0 <= i < |infos| ==> infos[i].fileID == fileID)
            && (forall i :: 0 <= i < |infos| ==> infos[i].placements != [] && infos[i].placements[0].nodeID == n)
  {
    hide Key;
  }

  lemma OneNode(infos: seq<BlockInfo>, n: string, order: seq<string>)
    requires forall i :: 0 <= i < |infos| ==> infos[i].placements != [] && infos[i].placements[0].nodeID == n
    requires order == if |infos| == 0 then [] else [n]
    ensures Elements(order) == BlockReads.Nodes(Reads(infos)) && Distinct(order)
  {
    if |infos| > 0 {
      assert Reads(infos)[0] in Reads(infos) && Reads(infos)[0].0 == n;
    }
  }
}
