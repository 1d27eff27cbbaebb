/** A leader, its followers and the buffers between them as objects: what the state functions
    of Replication say of every run is true of these logs, buffers and tables. */
module ClusterRuns {
  import opened Varint
  import opened EntryCodec
  import opened ControlServer
  import opened Replay
  import opened Cluster
  import R = Replication

  ghost predicate Distinct<T>(items: seq<T>)
  {
    forall i, j :: 0 <= i < j < |items| ==> items[i] != items[j]
  }

  class Group {
    const leader: Member
    const followers: seq<Member>
    const buffers: seq<EntriesBuffer>        // one per follower
    var pipeline: bool                       // the write pipeline still runs

    ghost function Buffers(): set<object>
    {
      set b | b in buffers :: b as object
    }

    ghost function FollowerObjects(): set<object>
    {
      (set f | f in followers :: f as object)
      + (set f | f in followers :: f.wal as object)
      + (set f | f in followers :: f.storage as object)
    }

    /** Everything the group may change: not the leader's tables. */
    ghost function Objects(): set<object>
    {
      {leader as object, leader.wal} + Buffers() + FollowerObjects()
    }

    /** No two members share anything, and all read entries the same way. */
    ghost predicate Separate()
    {
      && |buffers| == |followers| && Distinct(buffers)
      && leader !in FollowerObjects() && leader.wal !in FollowerObjects() && leader.storage !in FollowerObjects()
      && (forall f :: f in followers ==> f.decode == leader.decode)
      && (forall i, j :: 0 <= i < |followers| && 0 <= j < |followers| && i != j ==>
            && followers[i] != followers[j] && followers[i].wal != followers[j].wal
            && followers[i].storage != followers[j].storage)
    }

    ghost predicate FollowersOk()
      reads FollowerObjects()
    {
      forall f :: f in followers ==> f.Valid() && f.InStep()
    }

    ghost function PeerAt(i: nat): R.Peer
      requires i < |followers|
      reads Buffers(), FollowerObjects()
    {
      assert followers[i] in followers;
      assert i < |buffers| ==> buffers[i] in buffers;
      R.Peer(if i < |buffers| then buffers[i].entries else [], followers[i].View())
    }

    ghost function Peers(): (r: seq<R.Peer>)
      reads Buffers(), FollowerObjects()
      ensures |r| == |followers|
    {
      seq(|followers|, i requires 0 <= i < |followers| reads Buffers(), FollowerObjects() => PeerAt(i))
    }

    ghost function View(): (s: R.System)
      reads this`pipeline, Objects()
      ensures |s.peers| == |followers|
    {
      R.System(leader.View(), pipeline, Peers())
    }

    ghost predicate Valid()
      reads this`pipeline, Objects()
    {
      Separate() && leader.Valid() && FollowersOk() && R.Inv(View())
    }

    constructor (leader: Member, followers: seq<Member>, buffers: seq<EntriesBuffer>)
      ensures this.leader == leader && this.followers == followers && this.buffers == buffers && pipeline
    {
      this.leader, this.followers, this.buffers, pipeline := leader, followers, buffers, true;
    }

    /** WritePipeline when no buffer objects. */
    method Distribute(e: Entry) returns (ok: bool)
      requires Separate()
      requires forall b :: b in buffers ==> R.WriteBatch(b.entries, [e]) == R.BufferResult(b.entries + [e], false)
      modifies set b | b in buffers
      ensures ok && forall b :: b in buffers ==> b.entries == old(b.entries) + [e]
    {
      var n;
      ok, n := WritePipeline(buffers, e);
    }

    /** The new entry fits behind every buffer. */
    lemma EntryFits(e: Entry)
      requires Valid() && e.index == leader.lastLogIndex + 1 && e.term == leader.currentTerm
      ensures forall b :: b in buffers ==> R.WriteBatch(b.entries, [e]) == R.BufferResult(b.entries + [e], false)
    {
      var s := View();
      forall b | b in buffers ensures R.WriteBatch(b.entries, [e]) == R.BufferResult(b.entries + [e], false) {
        var i :| 0 <= i < |buffers| && buffers[i] == b;
        assert R.PeerOk(s, s.peers[i]);
        R.BatchAppends(s, b.entries, s.peers[i].follower.lastLogIndex, e);
      }
    }

    lemma BuffersApart()
      ensures Buffers() !! FollowerObjects() && leader !in Buffers() && leader.wal !in Buffers()
    {
    }

    /** What a write may rely on. */
    lemma Starting(ev: R.Event)
      requires Valid() && ev.Write?
      ensures leader.lastLogIndex == |leader.written|
      ensures R.Distribute(View().peers, R.NewEntry(View(), ev))
           == (R.Buffered(View().peers, R.NewEntry(View(), ev)), true)
      ensures forall b :: b in buffers ==>
                R.WriteBatch(b.entries, [R.NewEntry(View(), ev)]) ==
                R.BufferResult(b.entries + [R.NewEntry(View(), ev)], false)
    {
      R.DistributeWorks(View(), View().peers, R.NewEntry(View(), ev));
      EntryFits(R.NewEntry(View(), ev));
    }

    /** The leader's part of a write. */
    method WriteLog(typ: int, data: seq<byte>, timestamp: int) returns (e: Entry)
      requires Separate() && leader.Valid() && FollowersOk()
      requires R.Storable(Entry(leader.lastLogIndex + 1, leader.currentTerm, typ, data, timestamp, 0, []))
      modifies leader`written, leader`lastLogIndex, leader`lastLogTerm, leader.wal
      ensures leader.Valid() && FollowersOk() && Peers() == old(Peers())
      ensures forall b :: b in buffers ==> b.entries == old(b.entries)
      ensures e == Entry(old(leader.lastLogIndex) + 1, leader.currentTerm, typ, data, timestamp, 0, [])
      ensures leader.View() == WriteAll(old(leader.View()), [e])
    {
      hide Member.Valid, FollowersOk, Peers, Distinct, WriteAll, R.Storable;
      BuffersApart();
      e := leader.WriteEntry(typ, data, timestamp);
    }

    /** The pipeline's part. */
    method HandOver(e: Entry)
      requires Separate() && leader.Valid() && FollowersOk()
      requires forall b :: b in buffers ==> R.WriteBatch(b.entries, [e]) == R.BufferResult(b.entries + [e], false)
      modifies this`pipeline, Buffers()
      ensures leader.Valid() && FollowersOk() && leader.View() == old(leader.View())
      ensures pipeline && Peers() == R.Buffered(old(Peers()), e)
    {
      hide Member.Valid, FollowersOk, Distinct, R.WriteBatch;
      BuffersApart();
      ghost var before := Peers();
      pipeline := Distribute(e);
      forall i | 0 <= i < |followers| ensures PeerAt(i) == R.Buffered(before, e)[i] {
        assert old(PeerAt(i)) == before[i];
        assert buffers[i] in buffers;
      }
    }

    /** writeEntry: the leader's log, then every buffer. `accepted` is false when handing the
        entry to the pipeline times out. */
    method Write(typ: int, data: seq<byte>, timestamp: int, accepted: bool)
      requires Valid() && R.Enabled(View(), R.Write(typ, data, timestamp, accepted))
      modifies this`pipeline, Objects()
      ensures Valid() && View() == R.Step(old(View()), R.Write(typ, data, timestamp, accepted))
    {
      hide Member.Valid, FollowersOk, Separate, Peers, R.Inv, R.Distribute, R.Buffered, R.WriteBatch, R.Storable,
           WriteAll;
      ghost var ev := R.Write(typ, data, timestamp, accepted);
      R.StepKeeps(View(), ev);
      Starting(ev);
      var e := WriteLog(typ, data, timestamp);
      if pipeline && accepted {
        HandOver(e);
      }
    }

    /** dispatchEntries for one peer, with the recovery it may start. */
    method Send(p: nat, fate: R.Fate, fates: int -> R.Fate) returns (outcome: R.Outcome)
      requires Valid() && p < |followers|
      modifies Objects()
      ensures Valid() && View() == R.Step(old(View()), R.Send(p, fate, fates))
      ensures leader.View() == old(leader.View())
      ensures outcome == R.Dispatch(old(leader.View()), old(PeerAt(p)), fate, fates).1
    {
      hide Member.LogOk, Member.InStep, R.Inv, R.Dispatch, R.PeerOk, R.LeaderOk, R.Follows;
      ghost var s := View();
      R.StepKeeps(s, R.Send(p, fate, fates));
      Sending(p);
      outcome := Dispatch(leader, buffers[p], followers[p], fate, fates, s.leader);
      forall q | 0 <= q < |followers| && q != p ensures PeerAt(q) == s.peers[q] {
        assert old(PeerAt(q)) == s.peers[q];
      }
      forall f | f in followers ensures f.Valid() && f.InStep() {
        var q :| 0 <= q < |followers| && followers[q] == f;
      }
      Sent(p, s, fate, fates);
    }

    lemma Sending(p: nat)
      requires Valid() && p < |followers|
      ensures p < |buffers| && Linked(leader, followers[p], leader.View())
      ensures PeerAt(p) == PeerView(buffers[p], followers[p])
      ensures R.PeerOk(R.System(leader.View(), true, []), PeerAt(p))
      ensures {buffers[p] as object, followers[p], followers[p].wal, followers[p].storage} <= Objects()
    {
      assert followers[p] in followers && buffers[p] in buffers;
      assert R.PeerOk(View(), View().peers[p]);
    }

    lemma Holding()
      requires Valid()
      ensures R.Replicated(View())
    {
      R.InvReplicated(View());
    }

    /** A follower's log is a prefix of the leader's, its tables the replay of it. */
    lemma FollowerAt(i: nat)
      requires Valid() && i < |followers|
      ensures followers[i].written <= leader.written && followers[i].decode == leader.decode
      ensures followers[i].storage.tables == TablesOf(leader.decode, followers[i].written)
    {
      hide Member.Valid, TablesOf, R.LeaderOk, R.BufferOk;
      assert followers[i] in followers;
      assert R.PeerOk(View(), View().peers[i]);
    }

    /** Nobody else is touched by a dispatch. */
    lemma Sent(p: nat, s: R.System, fate: R.Fate, fates: int -> R.Fate)
      requires Separate() && p < |followers| == |s.peers| && pipeline == s.pipeline && leader.View() == s.leader
      requires PeerAt(p) == R.Dispatch(s.leader, s.peers[p], fate, fates).0
      requires forall q :: 0 <= q < |followers| && q != p ==> PeerAt(q) == s.peers[q]
      ensures View() == R.Step(s, R.Send(p, fate, fates))
    {
    }
  }

  /** Every run of writes and dispatches, whatever is lost, does to the objects what
      Replication does to its states. */
  method RunAll(g: Group, events: seq<R.Event>)
    requires g.Valid() && R.EnabledRun(g.View(), events) && forall ev :: ev in events ==> !ev.Join?
    modifies g`pipeline, g.Objects()
    ensures g.Valid() && g.View() == R.After(old(g.View()), events) && R.Replicated(g.View())
    ensures forall f :: f in g.followers ==> f.storage.tables == TablesOf(f.decode, f.written)
  {
    hide Group.Valid, Group.View, R.Step, R.Replicated;
    var rest := events;
    while rest != []
      invariant g.Valid() && R.EnabledRun(g.View(), rest)
      invariant R.After(g.View(), rest) == R.After(old(g.View()), events)
      invariant forall ev :: ev in rest ==> !ev.Join?
      decreases |rest|
    {
      match rest[0] {
        case Write(typ, data, timestamp, accepted) =>
          g.Write(typ, data, timestamp, accepted);
        case Send(p, fate, fates) =>
          var outcome := g.Send(p, fate, fates);
      }
      rest := rest[1..];
    }
    Ends(g);
  }

  lemma Ends(g: Group)
    requires g.Valid()
    ensures R.Replicated(g.View())
    ensures forall f :: f in g.followers ==> f.storage.tables == TablesOf(f.decode, f.written)
  {
    hide Group.Valid, Group.View, R.Replicated, TablesOf;
    g.Holding();
    forall f | f in g.followers ensures f.storage.tables == TablesOf(f.decode, f.written) {
      var i :| 0 <= i < |g.followers| && g.followers[i] == f;
      g.FollowerAt(i);
    }
  }
}
