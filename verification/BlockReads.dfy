/** Reading and removing the blocks of a file: requests grouped by node, replies arriving in
    any order, blocks put back in sequence. */
module BlockReads {
  import opened Varint
  import opened Sorting
  import opened Storage

  datatype Request = Request(blockID: string, partitionID: string)
  datatype Block = Block(id: string, index: nat, data: seq<byte>)

  /** Requests in the order they are made, each with the node it goes to. */
  type Requests = seq<(string, Request)>

  // ----- grouping by node -----

  function Nodes(items: Requests): set<string>
  {
    set it | it in items :: it.0
  }

  /** The requests for one node, in order. */
  function Select(items: Requests, n: string): seq<Request>
  {
    if items == [] then []
    else
      var rest, last := Select(items[..|items| - 1], n), items[|items| - 1];
      if last.0 == n then rest + [last.1] else rest
  }

  function Grouped(items: Requests): map<string, seq<Request>>
  {
    map n | n in Nodes(items) :: Select(items, n)
  }

  /** Append a request to its node's list, which may be new. */
  method AddTo(bMap: map<string, seq<Request>>, n: string, r: Request, ghost items: Requests)
    returns (bMap': map<string, seq<Request>>)
    requires bMap == Grouped(items)
    ensures bMap' == Grouped(items + [(n, r)])
  {
    bMap' := bMap;
    if n !in bMap' {
      bMap' := bMap'[n := []];
      SelectNone(items, n);
    }
    bMap' := bMap'[n := bMap'[n] + [r]];
    GroupedNext(items, n, r);
  }

  lemma {:induction false} SelectNone(items: Requests, n: string)
    requires n !in Nodes(items)
    ensures Select(items, n) == []
  {
    if items != [] {
      var k := |items| - 1;
      assert items[k] in items;
      assert forall it :: it in items[..k] ==> it in items;
      SelectNone(items[..k], n);
    }
  }

  lemma GroupedNext(items: Requests, n: string, r: Request)
    ensures Grouped(items + [(n, r)]) == Grouped(items)[n := Select(items, n) + [r]]
  {
    var grown := items + [(n, r)];
    assert grown[..|items|] == items;
    assert Nodes(grown) == Nodes(items) + {n} by {
      assert forall it :: it in grown <==> it in items || it == (n, r);
    }
  }

  /** The requests of GetFileHandler: each block from its first placement. */
  function Reads(blocks: seq<BlockInfo>): Requests
    requires forall i :: 0 <= i < |blocks| ==> blocks[i].placements != []
  {
    seq(|blocks|, i requires 0 <= i < |blocks| =>
      (blocks[i].placements[0].nodeID, Request(blocks[i].id, blocks[i].placements[0].partitionID)))
  }

  method GroupReads(blocks: seq<BlockInfo>) returns (bMap: map<string, seq<Request>>)
    requires forall i :: 0 <= i < |blocks| ==> blocks[i].placements != []
    ensures bMap == Grouped(Reads(blocks))
  {
    bMap := map[];
    var i := 0;
    while i < |blocks|
      invariant 0 <= i <= |blocks| && bMap == Grouped(Reads(blocks[..i]))
    {
      var p := blocks[i].placements[0];
      bMap := AddTo(bMap, p.nodeID, Request(blocks[i].id, p.partitionID), Reads(blocks[..i]));
      assert Reads(blocks[..i + 1]) == Reads(blocks[..i]) + [(p.nodeID, Request(blocks[i].id, p.partitionID))];
      i := i + 1;
    }
    assert blocks[..i] == blocks;
  }

  /** The requests of RemoveFileBlocks for one block: every placement. */
  function Removals(b: BlockInfo, k: nat): Requests
    requires k <= |b.placements|
  {
    seq(k, i requires 0 <= i < k => (b.placements[i].nodeID, Request(b.id, b.placements[i].partitionID)))
  }

  /** ... and for all blocks. */
  function AllRemovals(blocks: seq<BlockInfo>): Requests
  {
    if blocks == [] then []
    else
      var last := blocks[|blocks| - 1];
      AllRemovals(blocks[..|blocks| - 1]) + Removals(last, |last.placements|)
  }

  method GroupRemovals(blocks: seq<BlockInfo>) returns (bMap: map<string, seq<Request>>)
    ensures bMap == Grouped(AllRemovals(blocks))
  {
    bMap := map[];
    var i := 0;
    while i < |blocks|
      invariant 0 <= i <= |blocks| && bMap == Grouped(AllRemovals(blocks[..i]))
    {
      ghost var before := AllRemovals(blocks[..i]);
      assert before + [] == before;
      var j := 0;
      while j < |blocks[i].placements|
        invariant 0 <= j <= |blocks[i].placements| && bMap == Grouped(before + Removals(blocks[i], j))
      {
        var p := blocks[i].placements[j];
        bMap := AddTo(bMap, p.nodeID, Request(blocks[i].id, p.partitionID), before + Removals(blocks[i], j));
        assert before + Removals(blocks[i], j + 1)
            == before + Removals(blocks[i], j) + [(p.nodeID, Request(blocks[i].id, p.partitionID))];
        j := j + 1;
      }
      assert blocks[..i + 1][..i] == blocks[..i];
      i := i + 1;
    }
    assert blocks[..i] == blocks;
  }

  // ----- any node order -----

  /** The images under g of the requests to nodes in s. */
  function Over<T>(items: Requests, s: set<string>, g: (string, Request) -> T): seq<T>
  {
    if items == [] then []
    else
      var rest, last := Over(items[..|items| - 1], s, g), items[|items| - 1];
      if last.0 in s then rest + [g(last.0, last.1)] else rest
  }

  lemma {:induction false} OverSplit<T>(items: Requests, n: string, s: set<string>, g: (string, Request) -> T)
    requires n !in s
    ensures multiset(Over(items, s + {n}, g)) == multiset(Over(items, s, g)) + multiset(Over(items, {n}, g))
  {
    if items != [] {
      OverSplit(items[..|items| - 1], n, s, g);
    }
  }

  /** The lists of the nodes one after the other. */
  function Concat<T>(order: seq<string>, lists: map<string, seq<T>>): seq<T>
    requires forall i :: 0 <= i < |order| ==> order[i] in lists
  {
    if order == [] then [] else Concat(order[..|order| - 1], lists) + lists[order[|order| - 1]]
  }

  function Elements(order: seq<string>): set<string>
  {
    set n | n in order
  }

  ghost predicate Distinct(order: seq<string>)
  {
    forall i, j :: 0 <= i < j < |order| ==> order[i] != order[j]
  }

  lemma {:induction false} OverNone<T>(items: Requests, g: (string, Request) -> T)
    ensures Over(items, {}, g) == []
  {
    if items != [] {
      OverNone(items[..|items| - 1], g);
    }
  }

  /** Whatever the order of the nodes and the order within each list, together the lists hold
      every request of these nodes once. */
  lemma {:induction false} ConcatItems<T>(items: Requests, order: seq<string>, lists: map<string, seq<T>>,
                                          g: (string, Request) -> T)
    requires Distinct(order)
    requires forall i :: 0 <= i < |order| ==>
               order[i] in lists && multiset(lists[order[i]]) == multiset(Over(items, {order[i]}, g))
    ensures multiset(Concat(order, lists)) == multiset(Over(items, Elements(order), g))
  {
    if order == [] {
      OverNone(items, g);
      assert Elements(order) == {};
    } else {
      var k := |order| - 1;
      ConcatItems(items, order[..k], lists, g);
      assert Elements(order) == Elements(order[..k]) + {order[k]} by {
        assert order == order[..k] + [order[k]];
      }
      OverSplit(items, order[k], Elements(order[..k]), g);
    }
  }

  function Image<T>(items: Requests, g: (string, Request) -> T): seq<T>
  {
    seq(|items|, i requires 0 <= i < |items| => g(items[i].0, items[i].1))
  }

  lemma {:induction false} OverAll<T>(items: Requests, s: set<string>, g: (string, Request) -> T)
    requires Nodes(items) <= s
    ensures Over(items, s, g) == Image(items, g)
  {
    if items != [] {
      var k := |items| - 1;
      assert items[k] in items && items[k].0 in Nodes(items);
      assert Nodes(items[..k]) <= s by {
        assert forall it :: it in items[..k] ==> it in items;
      }
      OverAll(items[..k], s, g);
    }
  }

  // ----- removal lists partition the placements -----

  function Pair(n: string, r: Request): (string, Request) { (n, r) }

  function Tagged(n: string, list: seq<Request>): Requests
  {
    seq(|list|, i requires 0 <= i < |list| => (n, list[i]))
  }

  lemma {:induction false} TaggedSelect(items: Requests, n: string)
    ensures Tagged(n, Select(items, n)) == Over(items, {n}, Pair)
  {
    if items != [] {
      TaggedSelect(items[..|items| - 1], n);
    }
  }

  ghost function TaggedLists(bMap: map<string, seq<Request>>): map<string, Requests>
  {
    map n | n in bMap :: Tagged(n, bMap[n])
  }

  /** The per-node lists hold every request once, whatever order the nodes are served in. */
  lemma {:induction false} GroupsPartition(items: Requests, order: seq<string>)
    requires Distinct(order) && Elements(order) == Nodes(items)
    ensures forall i :: 0 <= i < |order| ==> order[i] in Grouped(items)
    ensures multiset(Concat(order, TaggedLists(Grouped(items)))) == multiset(items)
  {
    var lists := TaggedLists(Grouped(items));
    forall i | 0 <= i < |order| ensures order[i] in lists && lists[order[i]] == Over(items, {order[i]}, Pair) {
      assert order[i] in Elements(order);
      TaggedSelect(items, order[i]);
    }
    ConcatItems(items, order, lists, Pair);
    OverAll(items, Elements(order), Pair);
    PairImage(items);
  }

  lemma PairImage(items: Requests)
    ensures Image(items, Pair) == items
  {
    assert forall i :: 0 <= i < |items| ==> Image(items, Pair)[i] == Pair(items[i].0, items[i].1) == items[i];
  }

  // ----- fetching -----

  type Contents = string -> seq<byte>

  /** What a node answers: the block without its index. */
  function Fetched(list: seq<Request>, data: Contents): seq<Block>
  {
    seq(|list|, i requires 0 <= i < |list| => Block(list[i].blockID, 0, data(list[i].blockID)))
  }

  ghost predicate Fetches(fetch: (string, Request) -> Block, data: Contents)
  {
    forall n, r :: fetch(n, r) == Block(r.blockID, 0, data(r.blockID))
  }

  lemma {:induction false} FetchedSelect(items: Requests, n: string, data: Contents, fetch: (string, Request) -> Block)
    requires Fetches(fetch, data)
    ensures Fetched(Select(items, n), data) == Over(items, {n}, fetch)
  {
    if items != [] {
      FetchedSelect(items[..|items| - 1], n, data, fetch);
    }
  }

  /** Every node's reply is complete: what it was asked for, in any order. */
  ghost predicate Complete(items: Requests, replies: map<string, seq<Block>>, data: Contents)
  {
    && replies.Keys == Nodes(items)
    && forall n :: n in replies ==> multiset(replies[n]) == multiset(Fetched(Select(items, n), data))
  }

  lemma {:induction false} ArrivedItems(items: Requests, order: seq<string>, replies: map<string, seq<Block>>,
                                        data: Contents, fetch: (string, Request) -> Block)
    requires Distinct(order) && Elements(order) == Nodes(items)
    requires Complete(items, replies, data) && Fetches(fetch, data)
    ensures forall i :: 0 <= i < |order| ==> order[i] in replies
    ensures multiset(Concat(order, replies)) == multiset(Image(items, fetch))
  {
    forall i | 0 <= i < |order|
      ensures order[i] in replies && multiset(replies[order[i]]) == multiset(Over(items, {order[i]}, fetch))
    {
      assert order[i] in Elements(order);
      FetchedSelect(items, order[i], data, fetch);
    }
    ConcatItems(items, order, replies, fetch);
    OverAll(items, Elements(order), fetch);
  }

  // ----- putting blocks in sequence -----

  /** Ids to indexes; a later block of an id wins. */
  function Indexes(blocks: seq<BlockInfo>): map<string, nat>
  {
    if blocks == [] then map[]
    else Indexes(blocks[..|blocks| - 1])[blocks[|blocks| - 1].id := blocks[|blocks| - 1].index]
  }

  function Fill(m: map<string, nat>, b: Block): Block
  {
    b.(index := if b.id in m then m[b.id] else 0)
  }

  function Filled(m: map<string, nat>, list: seq<Block>): seq<Block>
  {
    seq(|list|, i requires 0 <= i < |list| => Fill(m, list[i]))
  }

  function Index(b: Block): int { b.index }

  method FillAndSortBlocks(blocks: seq<BlockInfo>, dBlocks: seq<Block>) returns (r: seq<Block>)
    ensures SortOf(r, Filled(Indexes(blocks), dBlocks), Index)
  {
    var bMap: map<string, nat> := map[];
    var i := 0;
    while i < |blocks|
      invariant 0 <= i <= |blocks| && bMap == Indexes(blocks[..i])
    {
      assert blocks[..i + 1][..i] == blocks[..i];
      bMap := bMap[blocks[i].id := blocks[i].index];
      i := i + 1;
    }
    assert blocks[..i] == blocks;
    var filled := dBlocks;
    i := 0;
    while i < |filled|
      invariant 0 <= i <= |filled| == |dBlocks|
      invariant forall k :: 0 <= k < |filled| ==> filled[k] == if k < i then Fill(bMap, dBlocks[k]) else dBlocks[k]
    {
      filled := filled[i := Fill(bMap, filled[i])];
      i := i + 1;
    }
    assert filled == Filled(bMap, dBlocks);
    r := SortBy(filled, Index);
  }

  /** Filling in indexes does not depend on the order of arrival. */
  lemma {:induction false} FilledSame(m: map<string, nat>, a: seq<Block>, b: seq<Block>)
    requires multiset(a) == multiset(b)
    ensures multiset(Filled(m, a)) == multiset(Filled(m, b))
    decreases |a|
  {
    SameLength(a, b);
    if a != [] {
      var j := Position(a, b);
      FilledSame(m, a[1..], b[..j] + b[j + 1..]);
      FilledMovedOut(m, b, j);
      FilledFirst(m, a);
    }
  }

  /** Where b holds the first block of a, and that the rest is the same. */
  lemma Position(a: seq<Block>, b: seq<Block>) returns (j: nat)
    requires a != [] && multiset(a) == multiset(b)
    ensures j < |b| && b[j] == a[0] && multiset(a[1..]) == multiset(b[..j] + b[j + 1..])
  {
    assert a[0] in multiset(b);
    j :| 0 <= j < |b| && b[j] == a[0];
    MovedOut(b, j);
    TailItems(a);
  }

  lemma FilledFirst(m: map<string, nat>, a: seq<Block>)
    requires a != []
    ensures multiset(Filled(m, a)) == multiset(Filled(m, a[1..])) + multiset{Fill(m, a[0])}
  {
    assert Filled(m, a) == [Fill(m, a[0])] + Filled(m, a[1..]);
  }

  lemma MovedOut(b: seq<Block>, j: nat)
    requires j < |b|
    ensures multiset(b[..j] + b[j + 1..]) == multiset(b) - multiset{b[j]}
  {
    assert b == b[..j] + [b[j]] + b[j + 1..];
  }

  lemma FilledMovedOut(m: map<string, nat>, b: seq<Block>, j: nat)
    requires j < |b|
    ensures multiset(Filled(m, b)) == multiset(Filled(m, b[..j] + b[j + 1..])) + multiset{Fill(m, b[j])}
  {
    assert Filled(m, b) == Filled(m, b[..j]) + [Fill(m, b[j])] + Filled(m, b[j + 1..]);
    assert Filled(m, b[..j] + b[j + 1..]) == Filled(m, b[..j]) + Filled(m, b[j + 1..]);
  }

  /** The one right answer: every registered block once, in order, with its bytes. */
  function File(blocks: seq<BlockInfo>, data: Contents): seq<Block>
  {
    seq(|blocks|, i requires 0 <= i < |blocks| => Block(blocks[i].id, blocks[i].index, data(blocks[i].id)))
  }

  ghost predicate DistinctBlocks(blocks: seq<BlockInfo>)
  {
    forall i, j :: 0 <= i < j < |blocks| ==> blocks[i].id != blocks[j].id && blocks[i].index < blocks[j].index
  }

  lemma {:induction false} IndexOf(blocks: seq<BlockInfo>, i: nat)
    requires DistinctBlocks(blocks) && i < |blocks|
    ensures blocks[i].id in Indexes(blocks) && Indexes(blocks)[blocks[i].id] == blocks[i].index
  {
    if i < |blocks| - 1 {
      IndexOf(blocks[..|blocks| - 1], i);
    }
  }

  lemma FilledFile(blocks: seq<BlockInfo>, data: Contents, fetch: (string, Request) -> Block)
    requires DistinctBlocks(blocks) && Fetches(fetch, data)
    requires forall i :: 0 <= i < |blocks| ==> blocks[i].placements != []
    ensures Filled(Indexes(blocks), Image(Reads(blocks), fetch)) == File(blocks, data)
  {
    forall i | 0 <= i < |blocks|
      ensures Filled(Indexes(blocks), Image(Reads(blocks), fetch))[i] == File(blocks, data)[i]
    {
      IndexOf(blocks, i);
    }
  }

  lemma FileStrict(blocks: seq<BlockInfo>, data: Contents)
    requires DistinctBlocks(blocks)
    ensures Strict(File(blocks, data), Index)
  {
  }

  lemma StrictInjective(r: seq<Block>)
    requires Strict(r, Index)
    ensures InjectiveOn(multiset(r), Index)
  {
    forall x | x in multiset(r) ensures multiset(r)[x] == 1 {
      StrictOnce(r, x);
    }
    forall x, y | x in multiset(r) && y in multiset(r) && Index(x) == Index(y) ensures x == y {
      var i :| 0 <= i < |r| && r[i] == x;
      var j :| 0 <= j < |r| && r[j] == y;
      assert !(i < j) && !(j < i);
    }
  }

  lemma {:induction false} StrictOnce(r: seq<Block>, x: Block)
    requires Strict(r, Index)
    ensures multiset(r)[x] <= 1
  {
    if r != [] {
      StrictOnce(r[1..], x);
      assert r == [r[0]] + r[1..];
      if r[0] == x {
        assert x !in r[1..];
        assert x !in multiset(r[1..]);
      }
    }
  }

  /** Replies appended as they arrive. */
  method Collect(order: seq<string>, replies: map<string, seq<Block>>) returns (result: seq<Block>)
    requires forall i :: 0 <= i < |order| ==> order[i] in replies
    ensures result == Concat(order, replies)
  {
    result := [];
    var i := 0;
    while i < |order|
      invariant 0 <= i <= |order| && result == Concat(order[..i], replies)
    {
      assert order[..i + 1][..i] == order[..i];
      result := result + replies[order[i]];
      i := i + 1;
    }
    assert order[..i] == order;
  }

  /** GetFileHandler: for every order of the nodes and of the blocks within a reply, the file
      comes out the same: each registered block once, in ascending order of index. */
  method GetFile(blocks: seq<BlockInfo>, order: seq<string>, replies: map<string, seq<Block>>,
                 ghost data: Contents, ghost fetch: (string, Request) -> Block) returns (r: seq<Block>)
    requires DistinctBlocks(blocks) && forall i :: 0 <= i < |blocks| ==> blocks[i].placements != []
    requires Distinct(order) && Elements(order) == Nodes(Reads(blocks)) && Complete(Reads(blocks), replies, data)
    requires Fetches(fetch, data)
    ensures r == File(blocks, data)
  {
    var bMap := GroupReads(blocks);
    assert bMap.Keys == replies.Keys;
    ArrivedItems(Reads(blocks), order, replies, data, fetch);
    var result := Collect(order, replies);
    r := FillAndSortBlocks(blocks, result);
    Reassembled(blocks, data, fetch, result, r);
  }

  lemma {:induction false} Reassembled(blocks: seq<BlockInfo>, data: Contents, fetch: (string, Request) -> Block,
                                       arrived: seq<Block>, r: seq<Block>)
    requires DistinctBlocks(blocks) && forall i :: 0 <= i < |blocks| ==> blocks[i].placements != []
    requires Fetches(fetch, data) && multiset(arrived) == multiset(Image(Reads(blocks), fetch))
    requires SortOf(r, Filled(Indexes(blocks), arrived), Index)
    ensures r == File(blocks, data)
  {
    FilledSame(Indexes(blocks), arrived, Image(Reads(blocks), fetch));
    FilledFile(blocks, data, fetch);
    FileStrict(blocks, data);
    StrictInjective(File(blocks, data));
    SortUnique(File(blocks, data), r, File(blocks, data), Filled(Indexes(blocks), arrived), Index);
  }
}
