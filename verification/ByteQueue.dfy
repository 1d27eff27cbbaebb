/** The unbounded queue of byte slices: a ring buffer that doubles when full and halves when
    at most half full. */
module ByteQueue {
  import opened Varint

  type Item = seq<byte>

  const INITIAL_CAPACITY: nat := 2

  function Sum(items: seq<Item>): nat
  {
    if items == [] then 0 else |items[0]| + Sum(items[1..])
  }

  lemma {:induction false} SumAppend(items: seq<Item>, x: Item)
    ensures Sum(items + [x]) == Sum(items) + |x|
  {
    if items == [] {
      assert [x][1..] == [];
    } else {
      SumAppend(items[1..], x);
      assert (items + [x])[1..] == items[1..] + [x];
    }
  }

  /** The items of a ring, oldest first. */
  function Ring(nodes: seq<Item>, head: nat, cnt: nat): (r: seq<Item>)
    requires cnt <= |nodes| && (head < |nodes| || |nodes| == 0 == head)
    ensures |r| == cnt
  {
    if head + cnt <= |nodes| then nodes[head..head + cnt] else nodes[head..] + nodes[..head + cnt - |nodes|]
  }

  /** The capacities that doubling and halving can reach. */
  predicate IsCapacity(n: nat)
  {
    n == INITIAL_CAPACITY || (n > INITIAL_CAPACITY && n % 2 == 0 && IsCapacity(n / 2))
  }

  /** Position i places after `head`. */
  function Wrap(head: nat, i: nat, n: nat): nat
  {
    if head + i < n then head + i else head + i - n
  }

  lemma WrapMod(k: nat, n: nat)
    requires k < n
    ensures (k + 1) % n == Wrap(k, 1, n)
  {
  }

  lemma CountMod(cnt: nat, n: nat)
    requires 0 < cnt <= n
    ensures cnt % n == Wrap(0, cnt, n)
  {
  }

  lemma RingFromZero(nodes: seq<Item>, cnt: nat)
    requires cnt <= |nodes| && |nodes| > 0
    ensures Ring(nodes, 0, cnt) == nodes[..cnt]
  {
  }

  lemma RingPush(nodes: seq<Item>, head: nat, cnt: nat, x: Item)
    requires cnt < |nodes| && head < |nodes|
    ensures Wrap(head, cnt, |nodes|) < |nodes|
    ensures Ring(nodes[Wrap(head, cnt, |nodes|) := x], head, cnt + 1) == Ring(nodes, head, cnt) + [x]
  {
  }

  lemma RingPop(nodes: seq<Item>, head: nat, cnt: nat)
    requires 0 < cnt <= |nodes| && head < |nodes|
    ensures Ring(nodes, head, cnt)[0] == nodes[head]
    ensures Ring(nodes, Wrap(head, 1, |nodes|), cnt - 1) == Ring(nodes, head, cnt)[1..]
  {
  }

  /** copy of a whole slice into a buffer with room for it. */
  method CopyInto(target: array<Item>, at: nat, source: seq<Item>)
    requires at + |source| <= target.Length
    modifies target
    ensures target[at..at + |source|] == source
    ensures forall i :: 0 <= i < at ==> target[i] == old(target[i])
  {
    var i := 0;
    while i < |source|
      invariant 0 <= i <= |source|
      invariant forall k :: 0 <= k < i ==> target[at + k] == source[k]
      invariant forall k :: 0 <= k < at ==> target[k] == old(target[k])
    {
      target[at + i] := source[i];
      i := i + 1;
    }
  }

  class ByteQueue {
    var nodes: array<Item>
    var head: nat
    var tail: nat
    var cnt: nat
    var size: int
    var closed: bool

    /** Capacity is initial, or more than half used: what keeps resize in range. */
    ghost predicate Dense()
      reads this
    {
      IsCapacity(nodes.Length) && (nodes.Length == INITIAL_CAPACITY || cnt > nodes.Length / 2)
    }

    ghost predicate Shape()
      reads this
    {
      && nodes.Length >= INITIAL_CAPACITY && cnt <= nodes.Length && head < nodes.Length
      && tail == Wrap(head, cnt, nodes.Length)
    }

    ghost predicate Valid()
      reads this, nodes
    {
      if closed then cnt == 0 && size == 0 && nodes.Length == 0
      else Shape() && Dense() && size == Sum(Items())
    }

    ghost function Items(): seq<Item>
      requires !closed ==> Shape()
      reads this, nodes
    {
      if closed then [] else Ring(nodes[..], head, cnt)
    }

    constructor ()
      ensures Valid() && fresh(nodes) && !closed && Items() == [] && nodes.Length == 2
    {
      nodes := new Item[INITIAL_CAPACITY](i => []);
      head, tail, cnt, size, closed := 0, 0, 0, 0, false;
    }

    /** Every slice and copy is in range and no item is dropped, given an item to keep and
        room for all. */
    method Resize(n: nat)
      requires !closed && Shape() && 0 < cnt <= n && n >= INITIAL_CAPACITY
      modifies this`nodes, this`head, this`tail
      ensures Shape() && fresh(nodes) && nodes.Length == n
      ensures Items() == old(Items())
    {
      var target := new Item[n](i => []);
      if head < tail {
        CopyInto(target, 0, nodes[head..tail]);
        assert target[..cnt] == nodes[..][head..head + cnt];
      } else {
        CopyWrapped(target);
      }
      RingFromZero(target[..], cnt);
      CountMod(cnt, n);
      assert target[..][..cnt] == target[..cnt];
      tail := cnt % n;
      head := 0;
      nodes := target;
    }

    /** The two copies of a ring that wraps around. */
    method CopyWrapped(target: array<Item>)
      requires !closed && Shape() && 0 < cnt <= target.Length && tail <= head && target != nodes
      modifies target
      ensures target[..cnt] == Items()
    {
      var first := nodes.Length - head;
      CopyInto(target, 0, nodes[head..]);
      assert target[..first] == nodes[head..];
      CopyInto(target, first, nodes[..tail]);
      assert target[..first] == nodes[head..];
      assert target[..cnt] == target[..first] + target[first..cnt];
      assert nodes[..][head..] == nodes[head..] && nodes[..][..tail] == nodes[..tail];
    }

    method Add(x: Item) returns (ok: bool)
      requires Valid()
      modifies this, nodes
      ensures Valid() && (nodes == old(nodes) || fresh(nodes))
      ensures ok == !old(closed) && closed == old(closed)
      ensures Items() == if ok then old(Items()) + [x] else old(Items())
    {
      if closed {
        return false;
      }
      SumAppend(Items(), x);
      if cnt == nodes.Length {
        Resize(cnt * 2);
      }
      Append(x);
      ok := true;
    }

    method Append(x: Item)
      requires !closed && Shape() && cnt < nodes.Length
      modifies nodes, this`tail, this`size, this`cnt
      ensures Shape() && Items() == old(Items()) + [x] && cnt == old(cnt) + 1 && size == old(size) + |x|
    {
      RingPush(nodes[..], head, cnt, x);
      WrapMod(tail, nodes.Length);
      nodes[tail] := x;
      assert nodes[..] == old(nodes[..])[tail := x];
      tail := (tail + 1) % nodes.Length;
      size := size + |x|;
      cnt := cnt + 1;
    }

    method Remove() returns (x: Item, ok: bool)
      requires Valid()
      modifies this
      ensures Valid() && (nodes == old(nodes) || fresh(nodes)) && closed == old(closed)
      ensures ok <==> old(Items()) != []
      ensures ok ==> x == old(Items())[0] && Items() == old(Items())[1..]
      ensures !ok ==> x == [] && Items() == old(Items())
    {
      if cnt == 0 {
        return [], false;
      }
      x := Advance();
      size := size - |x|;
      var n := nodes.Length / 2;
      if n >= INITIAL_CAPACITY && cnt <= n {
        Resize(n);
      }
      ok := true;
    }

    method Advance() returns (x: Item)
      requires !closed && Shape() && cnt > 0
      modifies this`head, this`cnt
      ensures Shape() && x == old(Items())[0] && Items() == old(Items())[1..]
      ensures cnt == old(cnt) - 1
    {
      RingPop(nodes[..], head, cnt);
      WrapMod(head, nodes.Length);
      x := nodes[head];
      head := (head + 1) % nodes.Length;
      cnt := cnt - 1;
    }

    method Close()
      requires Valid()
      modifies this
      ensures Valid() && fresh(nodes) && closed && Items() == []
    {
      closed, cnt, size := true, 0, 0;
      nodes := new Item[0];
    }

    /** Close, handing out what is left, oldest first. */
    method CloseRemaining() returns (rem: seq<Item>)
      requires Valid()
      modifies this
      ensures Valid() && (nodes == old(nodes) || fresh(nodes)) && closed && Items() == []
      ensures rem == old(Items())
    {
      hide Ring, Sum;
      if closed {
        return [];
      }
      rem := [];
      ghost var all := Items();
      while cnt > 0
        invariant !closed && Shape() && |rem| + cnt == |all|
        invariant rem == all[..|rem|] && Items() == all[|rem|..]
      {
        var x := Advance();
        assert x == all[|rem|] && all[..|rem| + 1] == all[..|rem|] + [all[|rem|]];
        rem := rem + [x];
      }
      closed, cnt, size := true, 0, 0;
      nodes := new Item[0];
    }

    method Size() returns (n: int)
      requires Valid()
      ensures n == size == Sum(Items())
    {
      n := size;
    }
  }

  // ----- whole runs -----

  datatype Op = Push(x: Item) | Pop | Shut | Drain
  datatype Answer = Added(ok: bool) | Popped(x: Item, ok: bool) | Rest(items: seq<Item>)
  datatype State = State(items: seq<Item>, closed: bool)

  /** The plain first-in first-out sequence. */
  function Step(s: State, op: Op): (State, Answer)
  {
    match op
    case Push(x) => if s.closed then (s, Added(false)) else (State(s.items + [x], false), Added(true))
    case Pop =>
      if s.items == [] then (s, Popped([], false)) else (State(s.items[1..], s.closed), Popped(s.items[0], true))
    case Shut => (State([], true), Added(true))
    case Drain => (State([], true), Rest(s.items))
  }

  function Final(s: State, ops: seq<Op>): State
    decreases |ops|
  {
    if ops == [] then s else Final(Step(s, ops[0]).0, ops[1..])
  }

  function Answers(s: State, ops: seq<Op>): seq<Answer>
    decreases |ops|
  {
    if ops == [] then [] else [Step(s, ops[0]).1] + Answers(Step(s, ops[0]).0, ops[1..])
  }

  /** Where a run stands: after some operations the state is `now`, `rest` is to come. */
  ghost predicate Reached(s: State, ops: seq<Op>, answers: seq<Answer>, now: State, rest: seq<Op>)
  {
    Final(now, rest) == Final(s, ops) && answers + Answers(now, rest) == Answers(s, ops)
  }

  lemma ReachedNext(s: State, ops: seq<Op>, answers: seq<Answer>, now: State, rest: seq<Op>)
    requires rest != [] && Reached(s, ops, answers, now, rest)
    ensures Reached(s, ops, answers + [Step(now, rest[0]).1], Step(now, rest[0]).0, rest[1..])
  {
    var a, later := Step(now, rest[0]).1, Answers(Step(now, rest[0]).0, rest[1..]);
    assert answers + [a] + later == answers + ([a] + later);
  }

  lemma ReachedEnds(s: State, ops: seq<Op>, answers: seq<Answer>, now: State)
    ensures Reached(s, ops, [], s, ops)
    ensures Reached(s, ops, answers, now, []) ==> now == Final(s, ops) && answers == Answers(s, ops)
  {
    assert [] + Answers(s, ops) == Answers(s, ops);
    assert answers + [] == answers;
  }

  /** The queue stands for s. */
  ghost predicate Now(q: ByteQueue, s: State)
    reads q, q.nodes
  {
    q.Valid() && q.Items() == s.items && q.closed == s.closed
  }

  method DoOp(q: ByteQueue, op: Op, ghost s: State) returns (a: Answer)
    requires Now(q, s)
    modifies q, q.nodes
    ensures Now(q, Step(s, op).0) && a == Step(s, op).1
    ensures q.nodes == old(q.nodes) || fresh(q.nodes)
  {
    match op {
      case Push(x) =>
        var ok := q.Add(x);
        a := Added(ok);
      case Pop =>
        var x, ok := q.Remove();
        a := Popped(x, ok);
      case Shut =>
        q.Close();
        a := Added(true);
      case Drain =>
        var rest := q.CloseRemaining();
        a := Rest(rest);
    }
  }

  /** Refinement over every run. */
  method RunAll(q: ByteQueue, ops: seq<Op>, ghost s: State) returns (answers: seq<Answer>)
    requires Now(q, s)
    modifies q, q.nodes
    ensures Now(q, Final(s, ops)) && q.size == Sum(Final(s, ops).items)
    ensures answers == Answers(s, ops)
  {
    answers := [];
    ghost var now := s;
    var rest := ops;
    ReachedEnds(s, ops, [], s);
    while rest != []
      invariant Now(q, now) && (q.nodes == old(q.nodes) || fresh(q.nodes))
      invariant Reached(s, ops, answers, now, rest)
      decreases |rest|
    {
      ReachedNext(s, ops, answers, now, rest);
      var a := DoOp(q, rest[0], now);
      now := Step(now, rest[0]).0;
      answers := answers + [a];
      rest := rest[1..];
    }
    ReachedEnds(s, ops, answers, now);
    var n := q.Size();
  }
}
