/** Log replication from one leader to its peers: leader writes, per-peer buffers, dispatch,
    the AppendEntries check and the recovery loop, under lost requests, lost replies and
    pipeline timeouts. A dispatch with the recovery it may start is one step. */
module Replication {
  import opened Varint
  import opened EntryCodec
  import opened ControlServer

  // ----- per-peer buffers -----

  datatype BufferResult = BufferResult(buffer: seq<Entry>, corrupt: bool)

  /** entriesBuffer.WriteBatch: stops at an index that does not grow, skips a lower term. */
  function WriteBatch(buffer: seq<Entry>, entries: seq<Entry>): BufferResult
    decreases |entries|
  {
    if entries == [] then BufferResult(buffer, false)
    else if |buffer| > 0 && buffer[|buffer| - 1].index >= entries[0].index then BufferResult(buffer, true)
    else if |buffer| > 0 && buffer[|buffer| - 1].term > entries[0].term then WriteBatch(buffer, entries[1..])
    else WriteBatch(buffer + [entries[0]], entries[1..])
  }

  /** The entries that were taken. */
  function Taken(entries: seq<Entry>, takes: seq<bool>): seq<Entry>
    requires |takes| <= |entries|
  {
    if takes == [] then []
    else
      var n := |takes| - 1;
      Taken(entries, takes[..n]) + if takes[n] then [entries[n]] else []
  }

  /** An entry above the last of the buffer is taken exactly when its term is not lower. */
  predicate Judged(buffer: seq<Entry>, e: Entry, take: bool)
  {
    if buffer == [] then take
    else buffer[|buffer| - 1].index < e.index && (take <==> buffer[|buffer| - 1].term <= e.term)
  }

  ghost predicate AllJudged(buffer: seq<Entry>, entries: seq<Entry>, takes: seq<bool>)
    requires |takes| <= |entries|
  {
    if takes == [] then true
    else
      var n := |takes| - 1;
      AllJudged(buffer, entries, takes[..n]) && Judged(buffer + Taken(entries, takes[..n]), entries[n], takes[n])
  }

  /** What a batch makes of a buffer: `takes` tells of each entry looked at whether it was taken;
      the batch is given up at the first one whose index is not above that of the last. */
  ghost predicate Buffering(buffer: seq<Entry>, entries: seq<Entry>, takes: seq<bool>, result: seq<Entry>,
                            corrupt: bool)
  {
    && |takes| <= |entries| && result == buffer + Taken(entries, takes) && AllJudged(buffer, entries, takes)
    && (corrupt <==> |takes| < |entries|)
    && (corrupt ==> result != [] && result[|result| - 1].index >= entries[|takes|].index)
  }

  /** Ascending indices, and terms that do not fall. */
  ghost predicate Sorted(entries: seq<Entry>)
  {
    forall i :: 0 < i < |entries| ==>
      entries[i - 1].index < entries[i].index && entries[i - 1].term <= entries[i].term
  }

  lemma {:induction false} BatchSnoc(buffer: seq<Entry>, entries: seq<Entry>, e: Entry)
    ensures WriteBatch(buffer, entries + [e]) ==
            if WriteBatch(buffer, entries).corrupt then WriteBatch(buffer, entries)
            else WriteBatch(WriteBatch(buffer, entries).buffer, [e])
    decreases |entries|
  {
    if entries == [] {
      assert [] + [e] == [e];
    } else {
      assert (entries + [e])[1..] == entries[1..] + [e] && (entries + [e])[0] == entries[0];
      BatchSnoc(buffer, entries[1..], e);
      BatchSnoc(buffer + [entries[0]], entries[1..], e);
    }
  }

  lemma {:induction false} TakenPrefix(buffer: seq<Entry>, a: seq<Entry>, b: seq<Entry>, takes: seq<bool>)
    requires |takes| <= |a| && a <= b
    ensures Taken(a, takes) == Taken(b, takes) && (AllJudged(buffer, a, takes) <==> AllJudged(buffer, b, takes))
  {
    hide Judged;
    if takes != [] {
      TakenPrefix(buffer, a, b, takes[..|takes| - 1]);
    }
  }

  lemma BufferingMore(buffer: seq<Entry>, before: seq<Entry>, takes: seq<bool>, result: seq<Entry>, corrupt: bool,
                      e: Entry)
    requires Buffering(buffer, before, takes, result, corrupt)
    ensures corrupt || (result != [] && result[|result| - 1].index >= e.index) ==>
              Buffering(buffer, before + [e], takes, result, true)
  {
    hide Taken, AllJudged;
    TakenPrefix(buffer, before, before + [e], takes);
  }

  lemma BufferingNext(buffer: seq<Entry>, before: seq<Entry>, takes: seq<bool>, result: seq<Entry>, e: Entry,
                      take: bool)
    requires Buffering(buffer, before, takes, result, false) && Judged(result, e, take)
    ensures Buffering(buffer, before + [e], takes + [take], if take then result + [e] else result, false)
  {
    hide Judged;
    var entries, more := before + [e], takes + [take];
    TakenPrefix(buffer, before, entries, takes);
    assert more[..|takes|] == takes;
    var last := if take then [e] else [];
    assert Taken(entries, more) == Taken(entries, takes) + last;
    assert buffer + (Taken(entries, takes) + last) == buffer + Taken(entries, takes) + last;
    assert result + last == if take then result + [e] else result;
  }

  lemma BatchNone(buffer: seq<Entry>)
    ensures WriteBatch(buffer, []) == BufferResult(buffer, false)
    ensures Buffering(buffer, [], [], buffer, false)
  {
    assert buffer + [] == buffer;
  }

  lemma BatchOne(buffer: seq<Entry>, e: Entry)
    ensures var r := WriteBatch(buffer, [e]);
            && (r.corrupt <==> buffer != [] && buffer[|buffer| - 1].index >= e.index)
            && (r.corrupt ==> r.buffer == buffer)
            && (!r.corrupt ==>
                  var take := buffer == [] || buffer[|buffer| - 1].term <= e.term;
                  Judged(buffer, e, take) && r.buffer == if take then buffer + [e] else buffer)
            && (Sorted(buffer) ==> Sorted(r.buffer))
  {
    hide Sorted;
    assert [e][1..] == [];
    if buffer == [] || (buffer[|buffer| - 1].index < e.index && buffer[|buffer| - 1].term <= e.term) {
      SortedNext(buffer, e);
    }
  }

  lemma SortedNext(buffer: seq<Entry>, e: Entry)
    requires buffer == [] || (buffer[|buffer| - 1].index < e.index && buffer[|buffer| - 1].term <= e.term)
    ensures Sorted(buffer) ==> Sorted(buffer + [e])
  {
  }

  /** What a batch makes of a buffer, and that a sorted buffer stays sorted. */
  lemma {:induction false} BatchBuffers(buffer: seq<Entry>, entries: seq<Entry>)
    ensures var r := WriteBatch(buffer, entries);
            && (exists takes :: Buffering(buffer, entries, takes, r.buffer, r.corrupt))
            && (Sorted(buffer) ==> Sorted(r.buffer))
    decreases |entries|
  {
    hide WriteBatch, Judged, Sorted, Buffering;
    if entries == [] {
      BatchNone(buffer);
    } else {
      var n := |entries| - 1;
      var before, e := entries[..n], entries[n];
      assert entries == before + [e];
      BatchBuffers(buffer, before);
      BatchSnoc(buffer, before, e);
      var r := WriteBatch(buffer, before);
      var takes :| Buffering(buffer, before, takes, r.buffer, r.corrupt);
      BufferingMore(buffer, before, takes, r.buffer, r.corrupt, e);
      BatchOne(r.buffer, e);
      if !r.corrupt && !WriteBatch(r.buffer, [e]).corrupt {
        var take := r.buffer == [] || r.buffer[|r.buffer| - 1].term <= e.term;
        BufferingNext(buffer, before, takes, r.buffer, e, take);
      }
    }
  }

  // ----- the system -----

  datatype Peer = Peer(buffer: seq<Entry>, follower: Server)

  /** `pipeline` says that the write pipeline still runs. */
  datatype System = System(leader: Server, pipeline: bool, peers: seq<Peer>)

  /** An entry the leader can write: in range, known fields only, small enough to store. */
  predicate Storable(e: Entry)
  {
    InRange(e) && e.version == 0 && e.unknown == [] && |e.data| + 64 < MAX_SLICE
  }

  /** The fate of a message: lost on the way, its reply lost, or neither. */
  datatype Fate = RequestLost | ReplyLost | Delivered

  /** How a recovery ends. */
  datatype Outcome = Complete | NetworkFailure | Refused | Unreadable

  /** How a turn of the recovery loop ends: the loop goes on, or recovery is over. */
  datatype Turn = Continue(follower: Server) | Stop(follower: Server, outcome: Outcome)

  /** One turn of startLogRecovering: the entry at `index` in a request of its own. */
  function RecoverOne(leader: Server, f: Server, index: int, fate: Fate): Turn
  {
    if index < 1 || index > |leader.wal| then Stop(f, Unreadable)
    else
      var (f', response) := AppendEntries(f, AppendRequest(leader.currentTerm, index - 1, [leader.wal[index - 1]]));
      match fate
      case RequestLost => Stop(f, NetworkFailure)
      case ReplyLost => Stop(f', NetworkFailure)
      case Delivered => if response.success then Continue(f') else Stop(f', Refused)
  }

  /** startLogRecovering from `index` on; `fates` gives the fate of the request for each
      index. */
  function Recover(leader: Server, f: Server, index: int, fates: int -> Fate): (Server, Outcome)
    decreases if index <= leader.lastLogIndex then leader.lastLogIndex - index + 1 else 0
  {
    if index > leader.lastLogIndex then (f, Complete)
    else match RecoverOne(leader, f, index, fates(index))
      case Continue(f') => Recover(leader, f', index + 1, fates)
      case Stop(f', outcome) => (f', outcome)
  }

  /** dispatchEntries to one peer: drain the buffer, send it, and on refusal call `recover`
      with the index after the last one the follower reports. */
  function DispatchVia(leader: Server, p: Peer, fate: Fate,
                       recover: (Server, int) -> (Server, Outcome)): (Peer, Outcome)
  {
    var reply := AppendEntries(p.follower, AppendRequest(leader.currentTerm, leader.lastLogIndex - 1, p.buffer));
    match fate
    case RequestLost => (Peer([], p.follower), NetworkFailure)
    case ReplyLost => (Peer([], reply.0), NetworkFailure)
    case Delivered =>
      if reply.1.success then (Peer([], reply.0), Complete)
      else
        var recovered := recover(reply.0, reply.1.lastCommittedIndex + 1);
        (Peer([], recovered.0), recovered.1)
  }

  function Dispatch(leader: Server, p: Peer, fate: Fate, fates: int -> Fate): (Peer, Outcome)
  {
    DispatchVia(leader, p, fate, (f, index) => Recover(leader, f, index, fates))
  }

  // ----- events -----

  datatype Event =
    /** writeEntry; `accepted` is false when handing it to the pipeline times out. */
    | Write(typ: int, data: seq<byte>, timestamp: int, accepted: bool)
    | Send(peer: nat, fate: Fate, fates: int -> Fate)
    /** A newly discovered registry. */
    | Join(follower: Server)

  /** The entry writeEntry builds. */
  function NewEntry(s: System, ev: Event): Entry
    requires ev.Write?
  {
    Entry(s.leader.lastLogIndex + 1, s.leader.currentTerm, ev.typ, ev.data, ev.timestamp, 0, [])
  }

  /** WritePipeline for one entry: peer after peer, stopping for good at the first error. */
  function Distribute(peers: seq<Peer>, e: Entry): (seq<Peer>, bool)
  {
    if peers == [] then ([], true)
    else
      var r := WriteBatch(peers[0].buffer, [e]);
      var first := peers[0].(buffer := r.buffer);
      if r.corrupt then ([first] + peers[1..], false)
      else
        var (rest, alive) := Distribute(peers[1..], e);
        ([first] + rest, alive)
  }

  /** What an event may assume: an entry that fits, an existing peer, a newcomer whose log is
      a prefix of the leader's. */
  ghost predicate Enabled(s: System, ev: Event)
  {
    match ev
    case Write(_, _, _, _) => Storable(NewEntry(s, ev))
    case Send(p, _, _) => p < |s.peers|
    case Join(f) => Follows(s.leader, f)
  }

  function Step(s: System, ev: Event): System
    requires ev.Send? ==> ev.peer < |s.peers|
  {
    match ev
    case Write(_, _, _, accepted) =>
      var e := NewEntry(s, ev);
      var leader := WriteAll(s.leader, [e]);
      if s.pipeline && accepted then
        var (peers, alive) := Distribute(s.peers, e);
        System(leader, alive, peers)
      else System(leader, s.pipeline, s.peers)
    case Send(p, fate, fates) =>
      s.(peers := s.peers[p := Dispatch(s.leader, s.peers[p], fate, fates).0])
    case Join(f) => s.(peers := s.peers + [Peer([], f)])
  }

  // ----- invariant -----

  /** Every write so far was at the index after the last. */
  ghost predicate InOrder(s: Server)
  {
    s.lastLogIndex == |s.wal| && forall k :: 0 <= k < |s.wal| ==> s.wal[k].index == k + 1
  }

  ghost predicate LeaderEntry(e: Entry, index: int, term: int)
  {
    Storable(e) && e.index == index && e.term <= term
  }

  ghost predicate LeaderOk(leader: Server)
  {
    && leader.lastLogIndex == |leader.wal| && leader.lastLogTerm == LastTerm(leader.wal)
    && (forall k :: 0 <= k < |leader.wal| ==> LeaderEntry(leader.wal[k], k + 1, leader.currentTerm))
  }

  /** The follower's log is a prefix of the leader's, written in order, all of it handled,
      and its term is not ahead. */
  ghost predicate Follows(leader: Server, f: Server)
  {
    && |f.wal| <= |leader.wal| && f.wal == leader.wal[..|f.wal|]
    && f.lastLogIndex == |f.wal| && f.lastLogTerm == LastTerm(f.wal) && f.handled == f.wal
    && f.currentTerm <= leader.currentTerm
  }

  /** Buffered entries are entries of the leader, ascending, all beyond the follower's log. */
  ghost predicate BufferOk(log: seq<Entry>, buffer: seq<Entry>, last: int)
  {
    && (forall i :: 0 <= i < |buffer| ==>
          last < buffer[i].index <= |log| && buffer[i].index >= 1 && buffer[i] == log[buffer[i].index - 1])
    && (forall i, j :: 0 <= i < j < |buffer| ==> buffer[i].index < buffer[j].index)
  }

  ghost predicate PeerOk(s: System, p: Peer)
  {
    Follows(s.leader, p.follower) && BufferOk(s.leader.wal, p.buffer, p.follower.lastLogIndex)
  }

  ghost predicate Inv(s: System)
  {
    && LeaderOk(s.leader)
    && s.pipeline
    && (forall p :: 0 <= p < |s.peers| ==> PeerOk(s, s.peers[p]))
  }

  // ----- one request -----

  /** One entry of the leader, sent to a follower that lacks exactly it, is accepted and
      extends the follower's log by it. */
  lemma SendNext(leader: Server, f: Server) returns (f': Server)
    requires LeaderOk(leader) && Follows(leader, f) && |f.wal| < |leader.wal|
    ensures var r := AppendEntries(f, AppendRequest(leader.currentTerm, |f.wal|, [leader.wal[|f.wal|]]));
            r.0 == f' && r.1.success && r.1.lastCommittedIndex == |f.wal| + 1
    ensures Follows(leader, f') && |f'.wal| == |f.wal| + 1
  {
    var n := |f.wal|;
    assert LeaderEntry(leader.wal[n], n + 1, leader.currentTerm);
    f' := AppendEntries(f, AppendRequest(leader.currentTerm, n, [leader.wal[n]])).0;
    assert leader.wal[..n + 1] == leader.wal[..n] + [leader.wal[n]];
  }

  /** One turn of the recovery loop is never refused. */
  lemma TurnWorks(leader: Server, f: Server, fate: Fate) returns (f': Server)
    requires LeaderOk(leader) && Follows(leader, f) && |f.wal| < |leader.wal|
    ensures Follows(leader, f') && |f'.wal| == |f.wal| + 1
    ensures RecoverOne(leader, f, |f.wal| + 1, fate)
         == match fate
            case RequestLost => Stop(f, NetworkFailure)
            case ReplyLost => Stop(f', NetworkFailure)
            case Delivered => Continue(f')
  {
    f' := SendNext(leader, f);
  }

  lemma RecoverStep(leader: Server, f: Server, fates: int -> Fate) returns (f': Server)
    requires LeaderOk(leader) && Follows(leader, f) && |f.wal| < |leader.wal|
    ensures Follows(leader, f') && |f'.wal| == |f.wal| + 1
    ensures Recover(leader, f, |f.wal| + 1, fates)
         == match fates(|f.wal| + 1)
            case RequestLost => (f, NetworkFailure)
            case ReplyLost => (f', NetworkFailure)
            case Delivered => Recover(leader, f', |f'.wal| + 1, fates)
  {
    f' := TurnWorks(leader, f, fates(|f.wal| + 1));
  }

  ghost predicate AllDelivered(fates: int -> Fate, lo: nat, hi: nat)
  {
    forall i :: lo < i <= hi ==> fates(i) == Delivered
  }

  /** How a recovery from the follower's own last index may end: never refused, never
      unreadable, always in a longer or equal prefix, and in the whole log exactly when no
      message was lost. */
  ghost predicate Recovered(leader: Server, f: Server, fates: int -> Fate, result: (Server, Outcome))
  {
    && Follows(leader, result.0) && |f.wal| <= |result.0.wal|
    && (if AllDelivered(fates, |f.wal|, |leader.wal|) then result.1 == Complete && result.0.wal == leader.wal
        else result.1 == NetworkFailure)
  }

  lemma RecoverEnd(leader: Server, f: Server, fates: int -> Fate)
    requires LeaderOk(leader) && Follows(leader, f) && |f.wal| == |leader.wal|
    ensures Recover(leader, f, |f.wal| + 1, fates) == (f, Complete) && f.wal == leader.wal
  {
  }

  lemma RecoveredStep(leader: Server, f: Server, f': Server, fates: int -> Fate, rest: (Server, Outcome))
    requires Follows(leader, f) && Follows(leader, f') && |f'.wal| == |f.wal| + 1
    requires Recovered(leader, f', fates, rest)
    ensures Recovered(leader, f, fates,
                      match fates(|f.wal| + 1)
                      case RequestLost => (f, NetworkFailure)
                      case ReplyLost => (f', NetworkFailure)
                      case Delivered => rest)
  {
    var n := |f.wal|;
    if fates(n + 1) == Delivered {
      assert AllDelivered(fates, n, |leader.wal|) <==> AllDelivered(fates, n + 1, |leader.wal|);
    }
  }

  /** Recovery works from any prefix-related pair of logs, whatever is lost on the way. */
  lemma {:induction false} RecoveryWorks(leader: Server, f: Server, fates: int -> Fate)
    requires LeaderOk(leader) && Follows(leader, f)
    ensures Recovered(leader, f, fates, Recover(leader, f, |f.wal| + 1, fates))
    decreases |leader.wal| - |f.wal|
  {
    if |f.wal| < |leader.wal| {
      var f' := RecoverStep(leader, f, fates);
      RecoveryWorks(leader, f', fates);
      RecoveredStep(leader, f, f', fates, Recover(leader, f', |f'.wal| + 1, fates));
    } else {
      RecoverEnd(leader, f, fates);
    }
  }

  // ----- dispatch -----

  lemma {:induction false} Spread(buffer: seq<Entry>, i: nat)
    requires i < |buffer| && forall a, b :: 0 <= a < b < |buffer| ==> buffer[a].index < buffer[b].index
    ensures buffer[i].index >= buffer[0].index + i
  {
    if i > 0 {
      Spread(buffer, i - 1);
    }
  }

  /** A dispatch is accepted only by a follower at most one entry behind, so it ships at most
      one entry, and that one belongs right behind the follower's log. */
  lemma AtMostOne(s: System, p: Peer)
    requires LeaderOk(s.leader) && PeerOk(s, p) && p.follower.lastLogIndex >= s.leader.lastLogIndex - 1
    ensures |p.buffer| <= 1
    ensures |p.buffer| == 1 ==> |p.follower.wal| < |s.leader.wal| && p.buffer[0] == s.leader.wal[|p.follower.wal|]
                                && p.buffer[0].index == p.follower.lastLogIndex + 1
  {
    if |p.buffer| > 0 {
      Spread(p.buffer, |p.buffer| - 1);
      assert p.buffer[0].index == |s.leader.wal| && p.buffer[|p.buffer| - 1].index == |s.leader.wal|;
    }
  }

  /** A follower that only adopted the leader's term. */
  function Adopted(leader: Server, f: Server, adopts: bool): Server
  {
    if adopts then f.(currentTerm := leader.currentTerm) else f
  }

  lemma AdoptedFollows(leader: Server, f: Server, adopts: bool)
    requires Follows(leader, f)
    ensures Follows(leader, Adopted(leader, f, adopts))
  {
  }

  /** The follower is two or more entries behind: refused, with its own last index. */
  lemma DispatchRefused(s: System, p: Peer) returns (f': Server, response: AppendResponse)
    requires LeaderOk(s.leader) && PeerOk(s, p)
    requires p.follower.lastLogIndex < s.leader.lastLogIndex - 1
    ensures AppendEntries(p.follower, AppendRequest(s.leader.currentTerm, s.leader.lastLogIndex - 1, p.buffer))
         == (f', response)
    ensures !response.success && response.lastCommittedIndex == |p.follower.wal|
    ensures Follows(s.leader, f') && f'.wal == p.follower.wal
  {
    var req := AppendRequest(s.leader.currentTerm, s.leader.lastLogIndex - 1, p.buffer);
    f' := Adopted(s.leader, p.follower, Adopts(p.follower, req));
    AdoptedFollows(s.leader, p.follower, Adopts(p.follower, req));
    response := AppendEntries(p.follower, req).1;
  }

  /** A request without entries that reaches no further than one past the follower's log. */
  lemma SendNothing(leader: Server, f: Server) returns (f': Server)
    requires Follows(leader, f) && f.lastLogIndex >= leader.lastLogIndex - 1
    ensures var r := AppendEntries(f, AppendRequest(leader.currentTerm, leader.lastLogIndex - 1, []));
            r.0 == f' && r.1.success && r.1.lastCommittedIndex == |f.wal|
    ensures Follows(leader, f') && f'.wal == f.wal
  {
    var req := AppendRequest(leader.currentTerm, leader.lastLogIndex - 1, []);
    f' := Adopted(leader, f, Adopts(f, req));
    AdoptedFollows(leader, f, Adopts(f, req));
    assert f.handled + [] == f.handled;
  }

  /** Otherwise accepted; the follower gains what the buffer held. */
  lemma DispatchAccepted(s: System, p: Peer) returns (f': Server, response: AppendResponse)
    requires LeaderOk(s.leader) && PeerOk(s, p)
    requires p.follower.lastLogIndex >= s.leader.lastLogIndex - 1
    ensures AppendEntries(p.follower, AppendRequest(s.leader.currentTerm, s.leader.lastLogIndex - 1, p.buffer))
         == (f', response)
    ensures response.success && response.lastCommittedIndex >= 0
    ensures Follows(s.leader, f') && |f'.wal| == |p.follower.wal| + |p.buffer|
  {
    hide AppendEntries, LeaderEntry;
    AtMostOne(s, p);
    if p.buffer == [] {
      f' := SendNothing(s.leader, p.follower);
    } else {
      f' := SendNext(s.leader, p.follower);
      assert p.buffer == [s.leader.wal[|p.follower.wal|]];
    }
    response := AppendEntries(p.follower, AppendRequest(s.leader.currentTerm, s.leader.lastLogIndex - 1, p.buffer)).1;
  }

  /** How a dispatch may end: the peer healthy with an empty buffer and no shorter log, and
      the only failures those of the network. */
  ghost predicate Dispatched(s: System, p: Peer, result: (Peer, Outcome))
  {
    && PeerOk(s, result.0) && result.0.buffer == [] && |p.follower.wal| <= |result.0.follower.wal|
    && (result.1 == Complete || result.1 == NetworkFailure)
  }

  lemma AcceptedDispatchWorks(s: System, p: Peer, fate: Fate, recover: (Server, int) -> (Server, Outcome))
    requires LeaderOk(s.leader) && PeerOk(s, p)
    requires p.follower.lastLogIndex >= s.leader.lastLogIndex - 1
    ensures Dispatched(s, p, DispatchVia(s.leader, p, fate, recover))
  {
    var f', response := DispatchAccepted(s, p);
  }

  lemma RefusedDispatchWorks(s: System, p: Peer, fate: Fate, fates: int -> Fate,
                             recover: (Server, int) -> (Server, Outcome), f': Server, response: AppendResponse)
    requires PeerOk(s, p) && Follows(s.leader, f') && |p.follower.wal| <= |f'.wal|
    requires AppendEntries(p.follower, AppendRequest(s.leader.currentTerm, s.leader.lastLogIndex - 1, p.buffer))
         == (f', response)
    requires !response.success && Recovered(s.leader, f', fates, recover(f', response.lastCommittedIndex + 1))
    ensures Dispatched(s, p, DispatchVia(s.leader, p, fate, recover))
  {
  }

  /** What a dispatch comes to, given the follower's reply. */
  lemma DispatchGiven(leader: Server, p: Peer, fate: Fate, fates: int -> Fate, f': Server, response: AppendResponse)
    requires AppendEntries(p.follower, AppendRequest(leader.currentTerm, leader.lastLogIndex - 1, p.buffer))
         == (f', response)
    ensures fate == RequestLost ==> Dispatch(leader, p, fate, fates) == (Peer([], p.follower), NetworkFailure)
    ensures fate == ReplyLost ==> Dispatch(leader, p, fate, fates) == (Peer([], f'), NetworkFailure)
    ensures fate == Delivered && response.success ==> Dispatch(leader, p, fate, fates) == (Peer([], f'), Complete)
    ensures fate == Delivered && !response.success ==>
              var r := Recover(leader, f', response.lastCommittedIndex + 1, fates);
              Dispatch(leader, p, fate, fates) == (Peer([], r.0), r.1)
  {
  }

  /** Whatever is lost. */
  lemma DispatchWorks(s: System, p: Peer, fate: Fate, fates: int -> Fate)
    requires LeaderOk(s.leader) && PeerOk(s, p)
    ensures Dispatched(s, p, Dispatch(s.leader, p, fate, fates))
  {
    var recover := (f, index) => Recover(s.leader, f, index, fates);
    if p.follower.lastLogIndex < s.leader.lastLogIndex - 1 {
      var f', response := DispatchRefused(s, p);
      RecoveryWorks(s.leader, f', fates);
      RefusedDispatchWorks(s, p, fate, fates, recover, f', response);
    } else {
      AcceptedDispatchWorks(s, p, fate, recover);
    }
  }

  /** The one state a loss-free dispatch does not repair: the follower lacks just the last
      entry and the buffer has nothing for it. */
  predicate Stuck(s: System, p: Peer)
  {
    |p.follower.wal| == |s.leader.wal| - 1 && p.buffer == []
  }

  ghost predicate CaughtUp(s: System, p: Peer, result: (Peer, Outcome))
  {
    result.1 == Complete && (result.0.follower.wal == s.leader.wal <==> !Stuck(s, p))
  }

  lemma AcceptedDispatchCatchesUp(s: System, p: Peer, recover: (Server, int) -> (Server, Outcome))
    requires LeaderOk(s.leader) && PeerOk(s, p)
    requires p.follower.lastLogIndex >= s.leader.lastLogIndex - 1
    ensures CaughtUp(s, p, DispatchVia(s.leader, p, Delivered, recover))
  {
    AtMostOne(s, p);
    var f', response := DispatchAccepted(s, p);
    assert s.leader.wal[..|s.leader.wal|] == s.leader.wal;
  }

  lemma RefusedDispatchCatchesUp(s: System, p: Peer, fates: int -> Fate,
                                 recover: (Server, int) -> (Server, Outcome), f': Server, response: AppendResponse)
    requires AppendEntries(p.follower, AppendRequest(s.leader.currentTerm, s.leader.lastLogIndex - 1, p.buffer))
         == (f', response)
    requires !response.success && Recovered(s.leader, f', fates, recover(f', response.lastCommittedIndex + 1))
    requires AllDelivered(fates, |f'.wal|, |s.leader.wal|) && |p.follower.wal| < |s.leader.wal| - 1
    ensures CaughtUp(s, p, DispatchVia(s.leader, p, Delivered, recover))
  {
  }

  /** A dispatch without losses brings the follower up to date - except a follower that is one
      entry behind when the buffer holds nothing for it: the check compares only indices, so
      such a dispatch succeeds and ships nothing. */
  lemma DispatchCatchesUp(s: System, p: Peer, fates: int -> Fate)
    requires LeaderOk(s.leader) && PeerOk(s, p)
    requires AllDelivered(fates, |p.follower.wal|, |s.leader.wal|)
    ensures CaughtUp(s, p, Dispatch(s.leader, p, Delivered, fates))
  {
    var recover := (f, index) => Recover(s.leader, f, index, fates);
    if p.follower.lastLogIndex < s.leader.lastLogIndex - 1 {
      var f', response := DispatchRefused(s, p);
      RecoveryWorks(s.leader, f', fates);
      RefusedDispatchCatchesUp(s, p, fates, recover, f', response);
    } else {
      AcceptedDispatchCatchesUp(s, p, recover);
    }
  }

  // ----- leader writes -----

  lemma LeaderWrites(s: System, e: Entry)
    requires LeaderOk(s.leader) && LeaderEntry(e, |s.leader.wal| + 1, s.leader.currentTerm)
    ensures LeaderOk(WriteAll(s.leader, [e]))
    ensures WriteAll(s.leader, [e]).wal == s.leader.wal + [e]
  {
  }

  lemma FollowsLonger(leader: Server, leader': Server, f: Server)
    requires Follows(leader, f) && leader'.currentTerm == leader.currentTerm
    requires |leader.wal| <= |leader'.wal| && leader'.wal[..|leader.wal|] == leader.wal
    ensures Follows(leader', f)
  {
    assert leader'.wal[..|f.wal|] == leader'.wal[..|leader.wal|][..|f.wal|];
  }

  lemma BatchOfOne(buffer: seq<Entry>, e: Entry)
    requires |buffer| > 0 ==> buffer[|buffer| - 1].index < e.index && buffer[|buffer| - 1].term <= e.term
    ensures WriteBatch(buffer, [e]) == BufferResult(buffer + [e], false)
  {
    assert [e][1..] == [];
    assert WriteBatch(buffer + [e], []) == BufferResult(buffer + [e], false);
  }

  lemma BufferGrows(log: seq<Entry>, buffer: seq<Entry>, last: int, e: Entry)
    requires BufferOk(log, buffer, last) && last <= |log| && e.index == |log| + 1
    ensures BufferOk(log + [e], buffer + [e], last) && BufferOk(log + [e], buffer, last)
  {
  }

  /** The pipeline never meets an index that does not grow: the new entry simply joins every
      buffer. */
  lemma {:induction false} BatchAppends(s: System, buffer: seq<Entry>, last: int, e: Entry)
    requires LeaderOk(s.leader) && BufferOk(s.leader.wal, buffer, last)
    requires e.index == |s.leader.wal| + 1 && e.term == s.leader.currentTerm
    ensures WriteBatch(buffer, [e]) == BufferResult(buffer + [e], false)
  {
    if |buffer| > 0 {
      var b := buffer[|buffer| - 1];
      assert b == s.leader.wal[b.index - 1];
      assert LeaderEntry(s.leader.wal[b.index - 1], b.index, s.leader.currentTerm);
    }
    BatchOfOne(buffer, e);
  }

  function Buffered(peers: seq<Peer>, e: Entry): (r: seq<Peer>)
    ensures |r| == |peers|
  {
    seq(|peers|, i requires 0 <= i < |peers| => peers[i].(buffer := peers[i].buffer + [e]))
  }

  lemma {:induction false} DistributeWorks(s: System, peers: seq<Peer>, e: Entry)
    requires LeaderOk(s.leader) && (forall p :: 0 <= p < |peers| ==> PeerOk(s, peers[p]))
    requires e.index == |s.leader.wal| + 1 && e.term == s.leader.currentTerm
    ensures Distribute(peers, e) == (Buffered(peers, e), true)
  {
    if peers != [] {
      BatchAppends(s, peers[0].buffer, peers[0].follower.lastLogIndex, e);
      DistributeWorks(s, peers[1..], e);
      assert Buffered(peers, e) == [peers[0].(buffer := peers[0].buffer + [e])] + Buffered(peers[1..], e);
    } else {
      assert Buffered(peers, e) == [];
    }
  }

  lemma PeerAfterWrite(s: System, s': System, p: Peer, e: Entry)
    requires LeaderOk(s.leader) && PeerOk(s, p) && LeaderEntry(e, |s.leader.wal| + 1, s.leader.currentTerm)
    requires e.term == s.leader.currentTerm
    requires s'.leader == WriteAll(s.leader, [e])
    ensures PeerOk(s', p) && PeerOk(s', p.(buffer := p.buffer + [e]))
  {
    LeaderWrites(s, e);
    FollowsLonger(s.leader, s'.leader, p.follower);
    BufferGrows(s.leader.wal, p.buffer, p.follower.lastLogIndex, e);
  }

  lemma WriteKeeps(s: System, ev: Event)
    requires Inv(s) && ev.Write? && Storable(NewEntry(s, ev))
    ensures Inv(Step(s, ev))
  {
    var e := NewEntry(s, ev);
    var s' := Step(s, ev);
    LeaderWrites(s, e);
    if ev.accepted {
      DistributeWorks(s, s.peers, e);
    }
    forall p | 0 <= p < |s'.peers| ensures PeerOk(s', s'.peers[p]) {
      PeerAfterWrite(s, s', s.peers[p], e);
    }
  }

  // ----- every run -----

  /** Each step keeps every follower a prefix and every buffer ahead of it. */
  lemma StepKeeps(s: System, ev: Event)
    requires Inv(s) && Enabled(s, ev)
    ensures Inv(Step(s, ev))
  {
    match ev {
      case Write(_, _, _, _) =>
        WriteKeeps(s, ev);
      case Send(p, fate, fates) =>
        DispatchWorks(s, s.peers[p], fate, fates);
        forall q | 0 <= q < |s.peers| ensures PeerOk(Step(s, ev), Step(s, ev).peers[q]) {
          assert PeerOk(s, s.peers[q]);
        }
      case Join(f) =>
        forall q | 0 <= q < |s.peers| ensures PeerOk(Step(s, ev), Step(s, ev).peers[q]) {
          assert PeerOk(s, s.peers[q]);
        }
    }
  }

  /** A write whose entry goes through the pipeline is in every buffer, and a dispatch without
      losses right behind it always brings the peer up to date. */
  lemma WriteThenDispatch(s: System, typ: int, data: seq<byte>, timestamp: int, p: nat, fates: int -> Fate)
    requires Inv(s) && s.pipeline && p < |s.peers| && Enabled(s, Write(typ, data, timestamp, true))
    requires forall i :: fates(i) == Delivered
    ensures var e := Entry(|s.leader.wal| + 1, s.leader.currentTerm, typ, data, timestamp, 0, []);
            var written := Step(s, Write(typ, data, timestamp, true));
            && written.pipeline && |written.peers| == |s.peers| && written.leader.wal == s.leader.wal + [e]
            && (forall q :: 0 <= q < |s.peers| ==>
                  written.peers[q] == s.peers[q].(buffer := s.peers[q].buffer + [e]))
            && Step(written, Send(p, Delivered, fates)).peers[p].follower.wal == written.leader.wal
  {
    hide Distribute, Dispatch, PeerOk;
    var ev := Write(typ, data, timestamp, true);
    var written := Step(s, ev);
    StepKeeps(s, ev);
    DistributeWorks(s, s.peers, NewEntry(s, ev));
    DispatchCatchesUp(written, written.peers[p], fates);
  }

  ghost predicate EnabledRun(s: System, events: seq<Event>)
    decreases |events|
  {
    events == [] || (Enabled(s, events[0]) && EnabledRun(Step(s, events[0]), events[1..]))
  }

  ghost function After(s: System, events: seq<Event>): System
    requires EnabledRun(s, events)
    decreases |events|
  {
    if events == [] then s else After(Step(s, events[0]), events[1..])
  }

  /** Every write of every server of the system was at the index after its last, and every
      follower's log is a prefix of the leader's. */
  ghost predicate Replicated(s: System)
  {
    && InOrder(s.leader)
    && (forall p :: 0 <= p < |s.peers| ==> InOrder(s.peers[p].follower))
    && (forall p :: 0 <= p < |s.peers| ==> s.peers[p].follower.wal <= s.leader.wal)
    && (forall p, i :: 0 <= p < |s.peers| && 0 <= i < |s.peers[p].buffer| ==>
          s.peers[p].buffer[i].index > s.peers[p].follower.lastLogIndex)
  }

  lemma InvReplicated(s: System)
    requires Inv(s)
    ensures Replicated(s)
  {
    forall p | 0 <= p < |s.peers| ensures InOrder(s.peers[p].follower) && s.peers[p].follower.wal <= s.leader.wal {
      assert PeerOk(s, s.peers[p]);
      var f := s.peers[p].follower;
      forall k | 0 <= k < |f.wal| ensures f.wal[k].index == k + 1 {
        assert f.wal[k] == s.leader.wal[k];
      }
    }
    forall p, i | 0 <= p < |s.peers| && 0 <= i < |s.peers[p].buffer|
      ensures s.peers[p].buffer[i].index > s.peers[p].follower.lastLogIndex
    {
      assert PeerOk(s, s.peers[p]);
    }
  }

  /** Safety over whole runs with a single leader. */
  lemma {:induction false} RunsReplicate(s: System, events: seq<Event>)
    requires Inv(s) && EnabledRun(s, events)
    ensures Inv(After(s, events)) && Replicated(After(s, events))
    decreases |events|
  {
    if events == [] {
      InvReplicated(s);
    } else {
      StepKeeps(s, events[0]);
      RunsReplicate(Step(s, events[0]), events[1..]);
    }
  }

  /** A member that has and has handled what the leader wrote. */
  function Copy(leader: Server): Server
  {
    leader.(handled := leader.wal)
  }

  /** The stuck state is reachable: in a system with one peer, in step with the leader, write
      an entry and lose the dispatch that carries it. */
  lemma LossLeavesStuck(leader: Server, ev: Event, fates: int -> Fate)
    requires LeaderOk(leader) && ev.Write? && ev.accepted
    requires Storable(NewEntry(System(leader, true, [Peer([], Copy(leader))]), ev))
    ensures var s := System(leader, true, [Peer([], Copy(leader))]);
            var s' := Step(Step(s, ev), Send(0, RequestLost, fates));
            Inv(s) && |s'.peers| == 1 && Stuck(s', s'.peers[0])
  {
    var s := System(leader, true, [Peer([], Copy(leader))]);
    var e := NewEntry(s, ev);
    assert leader.wal[..|leader.wal|] == leader.wal;
    DistributeWorks(s, s.peers, e);
    LeaderWrites(s, e);
    assert Buffered(s.peers, e)[0].buffer == [] + [e] == [e];
  }
}
