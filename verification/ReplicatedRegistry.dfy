/** Registry operations and replication together: what the tables of the leader and of its
    followers are in every run of the cluster. */
module ReplicatedRegistry {
  import opened Storage
  import opened Replay
  import opened ControlServer
  import LogDirectory
  import WalRuns
  import V = Varint
  import opened Registry
  import Cluster
  import ClusterRuns
  import R = Replication

  datatype Event =
    | Act(op: Op)
    /** A dispatch to a peer, with the fates of its messages. */
    | Deliver(peer: nat, fate: R.Fate, fates: int -> R.Fate)

  function After(t: Tables, ev: Event): Tables
  {
    match ev
    case Act(op) => Next(t, op)
    case Deliver(_, _, _) => t
  }

  ghost predicate May(encode: Encoder, peers: nat, t: Tables, ev: Event)
  {
    match ev
    case Act(op) => Enabled(t, op) && Small(encode, t, op)
    case Deliver(p, _, _) => p < peers
  }

  function Final(t: Tables, events: seq<Event>): Tables
    decreases |events|
  {
    if events == [] then t else Final(After(t, events[0]), events[1..])
  }

  ghost predicate MayRun(encode: Encoder, peers: nat, t: Tables, events: seq<Event>)
    decreases |events|
  {
    events == [] || (May(encode, peers, t, events[0]) && MayRun(encode, peers, After(t, events[0]), events[1..]))
  }

  /** A follower has a prefix of the leader's log, its tables are the replay of that prefix,
      and with all of the log they are the leader's. */
  ghost predicate Copied(r: Registry, f: Cluster.Member)
    reads r.storage, r.cluster.leader, f, f.storage
  {
    && f.written <= r.cluster.leader.written
    && f.storage.tables == TablesOf(r.cluster.leader.decode, f.written)
    && (|f.written| == |r.cluster.leader.written| ==> f.storage.tables == r.storage.tables)
  }

  lemma FollowersCopy(r: Registry, t: Tables)
    requires Now(r, t)
    ensures forall f :: f in r.cluster.followers ==> Copied(r, f)
  {
    hide Tree, ApplyAll, Changes, Faithful, ClusterRuns.Group.Valid;
    forall f | f in r.cluster.followers ensures Copied(r, f) {
      var i :| 0 <= i < |r.cluster.followers| && r.cluster.followers[i] == f;
      r.cluster.FollowerAt(i);
      if |f.written| == |r.cluster.leader.written| {
        assert f.written == r.cluster.leader.written;
      }
    }
  }

  /** A dispatch changes no table of the leader. */
  method DoDeliver(r: Registry, p: nat, fate: R.Fate, fates: int -> R.Fate, ghost t: Tables)
    requires Now(r, t) && p < |r.cluster.followers|
    modifies r.cluster.Objects()
    ensures Now(r, t) && r.Written() == old(r.Written())
    ensures r.cluster.leader.written == old(r.cluster.leader.written)
    ensures r.cluster.View() == R.Step(old(r.cluster.View()), R.Send(p, fate, fates))
  {
    hide Tree, ApplyAll, Changes, Faithful, ClusterRuns.Group.Valid, ClusterRuns.Group.View, R.Step;
    var outcome := r.cluster.Send(p, fate, fates);
  }

  /** Every run of operations and dispatches, whatever messages are lost: the leader's
      namespace is what the operations make of it, and every follower has a copy of what it
      has received. */
  method RunAll(r: Registry, events: seq<Event>, ghost start: Tables)
    requires Now(r, start) && MayRun(r.encode, |r.cluster.followers|, start, events) && r.Room(2 * |events|)
    modifies r`log, r.storage, r.cluster`pipeline, r.cluster.Objects()
    ensures Now(r, Final(start, events)) && Tree(r.storage.tables) && r.storage.tables == Final(start, events)
    ensures forall f :: f in r.cluster.followers ==> Copied(r, f)
  {
    ghost var t := start;
    var rest := events;
    while rest != []
      invariant Now(r, t) && Final(t, rest) == Final(start, events)
      invariant MayRun(r.encode, |r.cluster.followers|, t, rest) && r.Room(2 * |rest|)
      decreases |rest|
    {
      match rest[0] {
        case Act(op) =>
          DoOp(r, op, t);
        case Deliver(p, fate, fates) =>
          DoDeliver(r, p, fate, fates, t);
      }
      t, rest := After(t, rest[0]), rest[1..];
    }
    FollowersCopy(r, t);
  }

  /** One more dispatch without losses gives a follower the leader's tables, unless it lacks
      just the last entry and its buffer is empty. */
  method CatchUp(r: Registry, p: nat, ghost t: Tables)
    requires Now(r, t) && p < |r.cluster.followers|
    modifies r.cluster.Objects()
    ensures Now(r, t)
    ensures var f := r.cluster.followers[p];
            && (f.written == r.cluster.leader.written <==>
                  !old(R.Stuck(r.cluster.View(), r.cluster.View().peers[p])))
            && (f.written == r.cluster.leader.written ==> f.storage.tables == r.storage.tables == t)
  {
    hide Tree, Registry.Leading, ClusterRuns.Group.View, R.Step, R.Stuck, TablesOf;
    var fates := (i: int) => R.Delivered;
    ghost var s, f := r.cluster.View(), r.cluster.followers[p];
    Reaching(r, p, fates, t);
    DoDeliver(r, p, R.Delivered, fates, t);
    FollowersCopy(r, t);
    Viewed(r.cluster, p);
    assert Copied(r, f);
  }

  lemma Viewed(g: ClusterRuns.Group, p: nat)
    requires p < |g.followers|
    ensures g.View().peers[p].follower.wal == g.followers[p].written && g.View().leader.wal == g.leader.written
  {
  }

  lemma Reaching(r: Registry, p: nat, fates: int -> R.Fate, t: Tables)
    requires Now(r, t) && p < |r.cluster.followers| && forall i :: fates(i) == R.Delivered
    ensures var s := r.cluster.View();
            && s.leader.wal == r.cluster.leader.written
            && (R.Step(s, R.Send(p, R.Delivered, fates)).peers[p].follower.wal == s.leader.wal <==>
                  !R.Stuck(s, s.peers[p]))
  {
    hide Tree, ApplyAll, Changes, Faithful, Cluster.Member.Valid, R.Dispatch;
    var s := r.cluster.View();
    assert R.PeerOk(s, s.peers[p]);
    R.DispatchCatchesUp(s, s.peers[p], fates);
  }

  // ----- the start -----

  /** A member with an empty log and empty tables. */
  ghost predicate Blank(m: Cluster.Member, decode: Decoder)
    reads m, m.wal, m.storage
  {
    && m.Valid() && m.InStep() && m.decode == decode && m.storage.tables == EMPTY
    && m.View() == Server([], [], 0, 0, 0, 0)
  }

  method NewMember(segmentSize: int, cacheSize: int, decode: Decoder) returns (m: Cluster.Member)
    ensures fresh(m) && fresh(m.wal) && fresh(m.storage) && Blank(m, decode)
  {
    LogDirectory.FlattenOne([]);
    var w, ok, names := WalRuns.OpenLog(map[], segmentSize, cacheSize, 1, [[]]);
    var s := new Storage();
    m := new Cluster.Member(w, s, decode, [], []);
  }

  /** Members that share nothing. */
  ghost predicate Strangers(members: seq<Cluster.Member>)
  {
    forall i, j :: 0 <= i < |members| && 0 <= j < |members| && i != j ==>
      && members[i] != members[j] && members[i].wal != members[j].wal && members[i].storage != members[j].storage
  }

  method NewPeers(n: nat, segmentSize: int, cacheSize: int, decode: Decoder)
    returns (members: seq<Cluster.Member>, buffers: seq<Cluster.EntriesBuffer>)
    ensures |members| == |buffers| == n && Strangers(members) && ClusterRuns.Distinct(buffers)
    ensures forall m :: m in members ==> fresh(m) && fresh(m.wal) && fresh(m.storage) && Blank(m, decode)
    ensures forall b :: b in buffers ==> fresh(b) && b.entries == []
  {
    hide Blank;
    members, buffers := [], [];
    while |members| < n
      invariant |members| == |buffers| <= n && Strangers(members) && ClusterRuns.Distinct(buffers)
      invariant forall m :: m in members ==> fresh(m) && fresh(m.wal) && fresh(m.storage) && Blank(m, decode)
      invariant forall b :: b in buffers ==> fresh(b) && b.entries == []
    {
      var m := NewMember(segmentSize, cacheSize, decode);
      var b := new Cluster.EntriesBuffer();
      assert forall k :: 0 <= k < |members| ==> members[k] in members;
      assert forall k :: 0 <= k < |buffers| ==> buffers[k] in buffers;
      members, buffers := members + [m], buffers + [b];
    }
  }

  lemma BlankGroup(g: ClusterRuns.Group, decode: Decoder)
    requires |g.followers| == |g.buffers| && Strangers(g.followers) && ClusterRuns.Distinct(g.buffers) && g.pipeline
    requires g.leader !in g.FollowerObjects() && g.leader.wal !in g.FollowerObjects()
    requires g.leader.storage !in g.FollowerObjects()
    requires Blank(g.leader, decode) && forall m :: m in g.followers ==> Blank(m, decode)
    requires forall b :: b in g.buffers ==> b.entries == []
    ensures g.Valid() && g.leader.written == [] && g.leader.currentTerm == 0
  {
    hide Cluster.Member.Valid, Cluster.Member.InStep;
    forall p | 0 <= p < |g.followers| ensures R.PeerOk(g.View(), g.View().peers[p]) {
      assert g.followers[p] in g.followers && g.buffers[p] in g.buffers;
    }
  }

  /** A cluster of a registry and n peers, all of them empty. */
  method Start(n: nat, segmentSize: int, cacheSize: int, encode: Encoder, decode: Decoder) returns (r: Registry)
    requires Faithful(encode, decode)
    ensures fresh(r) && fresh(r.storage) && fresh(r.cluster) && fresh(r.cluster.Objects())
    ensures |r.cluster.followers| == n && r.encode == encode && Now(r, EMPTY) && r.Written() == 0
  {
    hide Blank, Strangers, Faithful, Tree, ApplyAll, Changes, ClusterRuns.Distinct, ClusterRuns.Group.Valid;
    var members, buffers := NewPeers(n, segmentSize, cacheSize, decode);
    var leader := NewMember(segmentSize, cacheSize, decode);
    var g := new ClusterRuns.Group(leader, members, buffers);
    BlankGroup(g, decode);
    BlankTables(leader, decode);
    r := new Registry(leader.storage, g, encode);
  }

  /** Every run of the cluster from its start. */
  method RunFromStart(n: nat, segmentSize: int, cacheSize: int, encode: Encoder, decode: Decoder, events: seq<Event>)
    returns (r: Registry)
    requires Faithful(encode, decode) && MayRun(encode, n, EMPTY, events) && 2 * |events| < V.TWO_64
    ensures Tree(r.storage.tables) && r.storage.tables == Final(EMPTY, events) && |r.cluster.followers| == n
    ensures forall f :: f in r.cluster.followers ==> Copied(r, f)
  {
    hide Tree, Faithful, ClusterRuns.Group.Valid, MayRun, Final, Copied, Registry.Leading;
    r := Start(n, segmentSize, cacheSize, encode, decode);
    RunAll(r, events, EMPTY);
  }

  lemma BlankTables(m: Cluster.Member, decode: Decoder)
    requires Blank(m, decode)
    ensures m.storage.tables == EMPTY && m.decode == decode && m.lastLogIndex == 0
  {
  }
}
