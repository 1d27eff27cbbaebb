/** The cluster member as the object it is: fields updated in place over a write-ahead log
    that holds marshalled entries. Every method is proved equal to the state functions of
    ControlServer and Replication. */
module Cluster {
  import opened Varint
  import opened EntryCodec
  import opened ControlServer
  import Marshaller = EntryMarshal
  import F = Framing
  import L = LogDirectory
  import opened Replay
  import R = Replication
  import S = Storage
  import Voting
  import W = Wal

  // ----- the per-peer buffer -----

  class EntriesBuffer {
    var entries: seq<Entry>

    constructor ()
      ensures entries == []
    {
      entries := [];
    }

    method WriteBatch(batch: seq<Entry>) returns (corrupt: bool)
      modifies this
      ensures R.BufferResult(entries, corrupt) == R.WriteBatch(old(entries), batch)
      ensures exists takes :: R.Buffering(old(entries), batch, takes, entries, corrupt)
      ensures R.Sorted(old(entries)) ==> R.Sorted(entries)
    {
      R.BatchBuffers(entries, batch);
      var i := 0;
      while i < |batch|
        invariant 0 <= i <= |batch|
        invariant R.WriteBatch(old(entries), batch) == R.WriteBatch(entries, batch[i..])
      {
        var entry := batch[i];
        assert batch[i..][1..] == batch[i + 1..];
        i := i + 1;
        if |entries| > 0 {
          if entries[|entries| - 1].index >= entry.index {
            return true;
          }
          if entries[|entries| - 1].term > entry.term {
            continue;
          }
        }
        entries := entries + [entry];
      }
      corrupt := false;
    }

    method Read() returns (r: seq<Entry>)
      modifies this
      ensures r == old(entries) && entries == []
    {
      r := entries;
      entries := [];
    }
  }

  /** WritePipeline for one entry: buffer after buffer, up to the first error. The first n
      buffers took the entry; an error is the one of buffer n. */
  method WritePipeline(buffers: seq<EntriesBuffer>, e: Entry) returns (ok: bool, n: nat)
    requires forall i, j :: 0 <= i < j < |buffers| ==> buffers[i] != buffers[j]
    modifies set b | b in buffers
    ensures n <= |buffers| && (ok <==> n == |buffers|)
    ensures forall i :: 0 <= i < n ==>
              R.WriteBatch(old(buffers[i].entries), [e]) == R.BufferResult(buffers[i].entries, false)
    ensures !ok ==> R.WriteBatch(old(buffers[n].entries), [e]) == R.BufferResult(buffers[n].entries, true)
    ensures forall i :: n < i < |buffers| ==> buffers[i].entries == old(buffers[i].entries)
  {
    n := 0;
    while n < |buffers|
      invariant n <= |buffers|
      invariant forall i :: 0 <= i < n ==>
                  R.WriteBatch(old(buffers[i].entries), [e]) == R.BufferResult(buffers[i].entries, false)
      invariant forall i :: n <= i < |buffers| ==> buffers[i].entries == old(buffers[i].entries)
    {
      var corrupt := buffers[n].WriteBatch([e]);
      if corrupt {
        return false, n;
      }
      n := n + 1;
    }
    ok := true;
  }

  // ----- what the log on disk means -----

  ghost predicate Stored(record: seq<byte>, e: Entry)
  {
    R.Storable(e) && Parse(record) == Ok(e)
  }

  /** Each entry carries the index it has in the list. */
  ghost predicate Numbered(entries: seq<Entry>)
  {
    forall k :: 0 <= k < |entries| ==> entries[k].index == k + 1
  }

  /** The log holds exactly these entries, at the indices they carry. */
  ghost predicate Records(log: L.Log, written: seq<Entry>)
  {
    && log.first == 1 && |log.entries| == |written|
    && Numbered(written) && (forall k :: 0 <= k < |written| ==> Stored(log.entries[k], written[k]))
  }

  lemma RecordsAppend(log: L.Log, written: seq<Entry>, record: F.Bytes, e: Entry)
    requires Records(log, written) && Stored(record, e) && e.index == |written| + 1
    ensures Records(L.Log(log.first, log.entries + [record]), written + [e])
  {
    var entries, grown := log.entries + [record], written + [e];
    forall k | 0 <= k < |grown| ensures Stored(entries[k], grown[k]) && grown[k].index == k + 1 {
      if k < |written| {
        assert Stored(log.entries[k], written[k]);
      }
    }
  }

  /** What Read returns for an index of the log, unmarshalled. */
  lemma RecordAt(log: L.Log, written: seq<Entry>, index: nat) returns (record: seq<byte>)
    requires Records(log, written) && 1 <= index <= |written|
    ensures W.Lookup(log, index) == W.Data(record) && |record| < MAX_SLICE && Stored(record, written[index - 1])
  {
    record := log.entries[index - 1];
  }

  lemma NextIndex(w: W.Wal, written: seq<Entry>)
    requires w.Valid() && Records(w.Contents(), written)
    ensures w.firstIndex == w.Contents().first == 1 && w.lastIndex == |written|
  {
    hide W.Denotes, W.Coherent, Stored;
    w.RangeOfLog();
  }

  lemma EncodeSmall(e: Entry)
    requires R.Storable(e)
    ensures |Encode(e)| < MAX_SLICE
  {
    PutLength64(e.index);
    PutLength64(e.term);
    PutLength64(Unsigned64(e.typ));
    PutLength64(|e.data|);
    PutLength64(Unsigned64(e.timestamp));
  }

  method MarshalEntry(e: Entry) returns (record: F.Bytes)
    requires R.Storable(e)
    ensures Stored(record, e)
  {
    EncodeSmall(e);
    assert Unknown([]);
    RoundTrip(e);
    record := Marshaller.Marshal(e);
  }

  method UnmarshalEntry(record: seq<byte>) returns (r: Result<Entry>)
    requires |record| < MAX_SLICE
    ensures forall e :: Stored(record, e) ==> r == Ok(e)
  {
    r := Marshaller.Unmarshal(record);
  }

  /** validateEntriesSequence. */
  method ValidateEntriesSequence(entries: seq<Entry>) returns (ok: bool)
    ensures ok <==> Increasing(entries)
  {
    var i := 0;
    while i < |entries|
      invariant 0 <= i <= |entries|
      invariant forall k :: 1 <= k < i ==> entries[k - 1].index < entries[k].index
    {
      if i != 0 && entries[i].index <= entries[i - 1].index {
        return false;
      }
      i := i + 1;
    }
    ok := true;
  }

  /** Entries the last of which lies beyond a log of n entries. */
  predicate Reaches(n: int, entries: seq<Entry>)
  {
    |entries| > 0 && entries[|entries| - 1].index > n
  }

  /** Entries that continue a log of n entries. */
  predicate Continue(n: int, entries: seq<Entry>)
  {
    forall i :: 0 <= i < |entries| ==> R.Storable(entries[i]) && entries[i].index == n + 1 + i
  }

  lemma WriteAllSnoc(s: Server, entries: seq<Entry>, i: nat)
    requires i < |entries|
    ensures WriteAll(WriteAll(s, entries[..i]), [entries[i]]) == WriteAll(s, entries[..i + 1])
  {
    assert s.wal + entries[..i] + [entries[i]] == s.wal + entries[..i + 1];
    assert i == 0 ==> entries[..i] == [] && s.wal + [] == s.wal;
  }

  class Member {
    const wal: W.Wal
    const storage: S.Storage                 // the tables of the registry
    const decode: Decoder
    var currentTerm: int
    var lastLogIndex: int
    var lastLogTerm: int
    var lastVotedTerm: int
    ghost var written: seq<Entry>
    ghost var handled: seq<Entry>            // what the entries handler was called with

    /** The log object is healthy and holds what was written. */
    ghost predicate LogOk()
      reads this`written, wal
    {
      wal.Valid() && !wal.closed && !wal.corrupt && Records(wal.Contents(), written)
    }

    ghost predicate Valid()
      reads this`lastLogIndex, this`lastLogTerm, this`written, wal
    {
      lastLogIndex == |written| && lastLogTerm == LastTerm(written) && LogOk()
    }

    /** The tables are what the entries handler was given amounts to. A leader changes its
        tables itself. */
    ghost predicate InStep()
      reads this`handled, storage
    {
      storage.tables == TablesOf(decode, handled)
    }

    ghost function View(): Server
      reads this
    {
      Server(written, handled, lastLogIndex, lastLogTerm, currentTerm, lastVotedTerm)
    }

    /** NewCluster over an opened log: setInitialTermAndIndex reads index and term back from
        the last entry. */
    constructor (w: W.Wal, tables: S.Storage, decoder: Decoder, ghost entries: seq<Entry>, ghost seen: seq<Entry>)
      requires w.Valid() && !w.closed && !w.corrupt && Records(w.Contents(), entries)
      modifies w
      ensures wal == w && storage == tables && decode == decoder && Valid() && written == entries
      ensures InStep() <==> tables.tables == TablesOf(decoder, seen)
      ensures var term := if entries == [] then 0 else entries[|entries| - 1].term;
              View() == Server(entries, seen, |entries|, term, term, 0)
    {
      hide W.Denotes, W.Coherent, Parse;
      wal, storage, decode := w, tables, decoder;
      written, handled := entries, seen;
      currentTerm, lastLogIndex, lastLogTerm, lastVotedTerm := 0, 0, 0, 0;
      new;
      w.RangeOfLog();
      if w.lastIndex != 0 {
        ghost var record := RecordAt(w.Contents(), entries, w.lastIndex);
        var data := w.Read(w.lastIndex);
        var entry := UnmarshalEntry(data.data);
        lastLogIndex, lastLogTerm, currentTerm := entry.value.index, entry.value.term, entry.value.term;
      }
    }

    /** Marshal an entry and write it at its index. */
    method WriteToWal(e: Entry)
      requires LogOk() && R.Storable(e) && e.index == |written| + 1
      modifies this`written, wal
      ensures LogOk() && written == old(written) + [e]
    {
      hide Records, Stored, W.Wal.Valid, W.Wal.Contents, W.Wal.Standing, W.Wal.MemoryValid;
      var record := MarshalEntry(e);
      NextIndex(wal, written);
      RecordsAppend(wal.Contents(), written, record, e);
      var err := wal.Write(e.index, record);
      written := written + [e];
    }

    /** Write an entry and move on to it. */
    method Accept(e: Entry)
      requires Valid() && R.Storable(e) && e.index == lastLogIndex + 1
      modifies this`written, this`lastLogIndex, this`lastLogTerm, wal
      ensures Valid() && View() == WriteAll(old(View()), [e])
      ensures written == old(written) + [e] && lastLogIndex == e.index && lastLogTerm == e.term
    {
      WriteToWal(e);
      lastLogIndex, lastLogTerm := e.index, e.term;
    }

    /** WriteEntriesFromLeader. */
    method WriteEntriesFromLeader(entries: seq<Entry>) returns (ok: bool)
      requires Valid() && (Increasing(entries) ==> Continue(lastLogIndex, entries))
      modifies this`written, this`handled, this`lastLogIndex, this`lastLogTerm, wal, storage
      ensures Valid() && (ok <==> Increasing(entries))
      ensures storage.tables == if ok then ApplyAll(old(storage.tables), Changes(decode, entries))
                                else old(storage.tables)
      ensures old(InStep()) ==> InStep()
      ensures View() == if ok then WriteAll(old(View()).(handled := old(handled) + entries), entries) else old(View())
      ensures written == old(written) + (if ok then entries else [])
      ensures handled == old(handled) + (if ok then entries else []) && currentTerm == old(currentTerm)
    {
      hide LogOk, Changes, ApplyAll, TablesOf, Increasing;
      ok := ValidateEntriesSequence(entries);
      if !ok {
        return;
      }
      TablesOfMore(decode, handled, entries);
      HandleEntriesFromLeader(storage, entries, decode);
      handled := handled + entries;
      ghost var start, tables := View(), storage.tables;
      var i := 0;
      while i < |entries|
        invariant 0 <= i <= |entries| && Valid()
        invariant View() == WriteAll(start, entries[..i]) && written == old(written) + entries[..i]
        invariant lastLogIndex == old(lastLogIndex) + i
        invariant storage.tables == tables
      {
        Accept(entries[i]);
        assert entries[..i + 1] == entries[..i] + [entries[i]];
        WriteAllSnoc(start, entries, i);
        i := i + 1;
      }
      assert entries[..i] == entries;
    }

    /** AppendEntries, the handler. What it accepts must continue the log. */
    method AppendEntries(req: AppendRequest) returns (res: AppendResponse)
      requires Valid()
      requires req.term >= currentTerm && req.prevLogIndex <= lastLogIndex && Increasing(req.entries) ==>
                 Continue(lastLogIndex, req.entries)
      modifies this`currentTerm, this`written, this`handled, this`lastLogIndex, this`lastLogTerm, wal, storage
      ensures Valid() && (old(InStep()) ==> InStep())
      ensures res.success ==> storage.tables == ApplyAll(old(storage.tables), Changes(decode, req.entries))
      ensures !res.success ==> storage.tables == old(storage.tables)
      ensures (View(), res) == ControlServer.AppendEntries(old(View()), req)
      ensures currentTerm >= req.term && res.lastCommittedIndex == lastLogIndex
      ensures res.success <==>
                req.term >= old(currentTerm) && req.prevLogIndex <= old(lastLogIndex) && Increasing(req.entries)
      ensures written == old(written) + if res.success then req.entries else []
      ensures handled == old(handled) + if res.success then req.entries else []
      ensures currentTerm == if req.term > old(currentTerm) || Reaches(old(lastLogIndex), req.entries) then req.term
                             else old(currentTerm)
      ensures res.term == if req.term >= old(currentTerm) && req.prevLogIndex > old(lastLogIndex) then old(currentTerm)
                          else currentTerm
    {
      hide LogOk, Changes, ApplyAll, TablesOf, Continue, WriteAll, Increasing;
      Voting.AppendAnswers(View(), req);
      var term, last := currentTerm, lastLogIndex;
      if req.term > term || (|req.entries| > 0 && req.entries[|req.entries| - 1].index > last) {
        currentTerm := req.term;
      }
      if req.term < term {
        return AppendResponse(currentTerm, false, lastLogIndex);
      }
      if req.prevLogIndex > last {
        return AppendResponse(term, false, last);
      }
      var ok := WriteEntriesFromLeader(req.entries);
      res := AppendResponse(currentTerm, ok, lastLogIndex);
    }

    /** RequestVote, the handler. */
    method RequestVote(req: VoteRequest) returns (res: VoteResponse)
      requires Valid()
      modifies this`currentTerm, this`lastVotedTerm
      ensures Valid()
      ensures (View(), res) == ControlServer.RequestVote(old(View()), req)
      ensures res.granted <==>
                && req.term >= old(currentTerm) && req.term != old(lastVotedTerm)
                && req.lastLogIndex >= |written| && req.lastLogTerm >= LastTerm(written)
      ensures currentTerm == if req.term > old(currentTerm) then req.term else old(currentTerm)
      ensures lastVotedTerm == if res.granted then req.term else old(lastVotedTerm)
      ensures res.term == if res.granted then old(currentTerm) else currentTerm
    {
      var term := currentTerm;
      if req.term > term {
        currentTerm := req.term;
      }
      if req.term < term {
        return VoteResponse(currentTerm, false);
      }
      if lastVotedTerm == req.term {
        return VoteResponse(currentTerm, false);
      }
      if req.lastLogIndex < lastLogIndex {
        return VoteResponse(currentTerm, false);
      }
      if req.lastLogTerm < lastLogTerm {
        return VoteResponse(currentTerm, false);
      }
      if req.lastLogTerm == lastLogTerm && req.lastLogIndex < lastLogIndex {
        return VoteResponse(currentTerm, false);
      }
      currentTerm := req.term;
      lastVotedTerm := req.term;
      res := VoteResponse(term, true);
    }

    /** The term step of StartElection, on 32 bits. */
    method StartElection()
      requires Valid()
      modifies this`currentTerm
      ensures Valid() && View() == ControlServer.StartElection(old(View()))
      ensures 0 <= old(currentTerm) < TWO_32 ==>
                currentTerm == if old(currentTerm) == TWO_32 - 1 then 0 else old(currentTerm) + 1
      ensures old(Voting.Legal(View())) && old(currentTerm) != TWO_32 - 1 ==>
                Voting.Legal(View()) && lastVotedTerm < currentTerm
    {
      hide LogOk;
      currentTerm := (currentTerm + 1) % TWO_32;
    }

    /** writeEntry up to the hand-over to the pipeline. */
    method WriteEntry(typ: int, data: seq<byte>, timestamp: int) returns (e: Entry)
      requires Valid() && R.Storable(Entry(lastLogIndex + 1, currentTerm, typ, data, timestamp, 0, []))
      modifies this`written, this`lastLogIndex, this`lastLogTerm, wal
      ensures Valid()
      ensures e == Entry(old(lastLogIndex) + 1, currentTerm, typ, data, timestamp, 0, [])
      ensures View() == WriteAll(old(View()), [e])
      ensures written == old(written) + [e] && lastLogIndex == e.index && lastLogTerm == e.term
    {
      e := Entry(lastLogIndex + 1, currentTerm, typ, data, timestamp, 0, []);
      Accept(e);
    }

    /** wal.Read and Unmarshal of an index of the log. */
    method EntryAt(index: nat) returns (e: Entry)
      requires Valid() && 1 <= index <= lastLogIndex
      modifies wal
      ensures Valid() && e == written[index - 1]
    {
      hide W.Denotes, W.Coherent, Parse;
      ghost var record := RecordAt(wal.Contents(), written, index);
      var data := wal.Read(index);
      var entry := UnmarshalEntry(data.data);
      e := entry.value;
    }
  }

  // ----- between members -----

  /** Leader and follower are healthy objects with disjoint state. */
  ghost predicate Apart(leader: Member, follower: Member)
    reads leader, leader.wal, follower, follower.wal, follower.storage
  {
    && leader != follower && leader.wal != follower.wal && leader.Valid() && follower.Valid()
    && follower.InStep()
  }

  /** ... and the follower's log is a prefix of the leader's, whose state is `lv`. */
  ghost predicate Linked(leader: Member, follower: Member, lv: Server)
    reads leader, leader.wal, follower, follower.wal, follower.storage
  {
    Apart(leader, follower) && leader.View() == lv && R.LeaderOk(lv) && R.Follows(lv, follower.View())
  }

  /** One request of the recovery loop. */
  method SendEntry(leader: Member, follower: Member, index: nat) returns (res: AppendResponse)
    requires Apart(leader, follower) && R.LeaderOk(leader.View())
    requires |follower.written| + 1 == index <= |leader.written|
    modifies leader.wal, follower, follower.wal, follower.storage
    ensures Apart(leader, follower)
    ensures (follower.View(), res)
         == AppendEntries(old(follower.View()),
                          AppendRequest(leader.currentTerm, index - 1, [leader.written[index - 1]]))
  {
    hide Member.LogOk, Member.InStep, Changes, ApplyAll, AppendEntries;
    var entry := leader.EntryAt(index);
    assert R.LeaderEntry(entry, index, leader.currentTerm);
    res := follower.AppendEntries(AppendRequest(leader.currentTerm, index - 1, [entry]));
  }

  /** One turn of the recovery loop. */
  method RecoverOne(leader: Member, follower: Member, index: nat, fate: R.Fate, ghost lv: Server)
    returns (stop: F.Option<R.Outcome>)
    requires Linked(leader, follower, lv) && |follower.written| + 1 == index <= |lv.wal|
    modifies leader.wal, follower, follower.wal, follower.storage
    ensures Linked(leader, follower, lv)
    ensures stop.None? ==> |follower.written| == index
    ensures R.RecoverOne(lv, old(follower.View()), index, fate)
         == if stop.None? then R.Continue(follower.View()) else R.Stop(follower.View(), stop.value)
  {
    hide Member.LogOk, R.LeaderOk, R.Follows, AppendEntries;
    ghost var next := R.TurnWorks(lv, follower.View(), fate);
    if fate == R.RequestLost {
      return F.Some(R.NetworkFailure);
    }
    var res := SendEntry(leader, follower, index);
    if fate == R.ReplyLost {
      return F.Some(R.NetworkFailure);
    }
    if !res.success {
      return F.Some(R.Refused);
    }
    stop := F.None;
  }

  /** startLogRecovering: bytes read from the leader's log, unmarshalled, sent and written to
      the follower's, entry after entry. */
  method StartLogRecovering(leader: Member, follower: Member, from: nat, fates: int -> R.Fate, ghost lv: Server)
    returns (outcome: R.Outcome)
    requires Linked(leader, follower, lv) && from == |follower.written|
    modifies leader.wal, follower, follower.wal, follower.storage
    ensures Linked(leader, follower, lv)
    ensures (follower.View(), outcome) == R.Recover(lv, old(follower.View()), from + 1, fates)
  {
    hide Member.LogOk, R.LeaderOk, R.Follows, R.RecoverOne;
    var index := from + 1;
    while index <= leader.lastLogIndex
      invariant Linked(leader, follower, lv) && index == |follower.written| + 1
      invariant R.Recover(lv, old(follower.View()), from + 1, fates) == R.Recover(lv, follower.View(), index, fates)
      decreases leader.lastLogIndex - index
    {
      var stop := RecoverOne(leader, follower, index, fates(index), lv);
      if stop.Some? {
        return stop.value;
      }
      index := index + 1;
    }
    outcome := R.Complete;
  }

  ghost function PeerView(buffer: EntriesBuffer, follower: Member): R.Peer
    reads buffer, follower
  {
    R.Peer(buffer.entries, follower.View())
  }

  /** What the follower answers to a dispatch, and that what it accepts continues its log. */
  lemma DispatchAnswer(s: R.System, p: R.Peer) returns (f': Server, response: AppendResponse)
    requires R.LeaderOk(s.leader) && R.PeerOk(s, p)
    ensures AppendEntries(p.follower, AppendRequest(s.leader.currentTerm, s.leader.lastLogIndex - 1, p.buffer))
         == (f', response)
    ensures R.Follows(s.leader, f') && (!response.success ==> response.lastCommittedIndex == |f'.wal|)
    ensures s.leader.lastLogIndex - 1 <= p.follower.lastLogIndex ==> Continue(p.follower.lastLogIndex, p.buffer)
  {
    if s.leader.lastLogIndex - 1 <= p.follower.lastLogIndex {
      R.AtMostOne(s, p);
      f', response := R.DispatchAccepted(s, p);
      if |p.buffer| == 1 {
        assert R.LeaderEntry(s.leader.wal[|p.follower.wal|], |p.follower.wal| + 1, s.leader.currentTerm);
      }
    } else {
      f', response := R.DispatchRefused(s, p);
    }
  }

  /** The request of a dispatch, handled by the follower. */
  method SendBuffer(leader: Member, follower: Member, entries: seq<Entry>, ghost lv: Server)
    returns (res: AppendResponse)
    requires Linked(leader, follower, lv) && R.PeerOk(R.System(lv, true, []), R.Peer(entries, follower.View()))
    modifies follower, follower.wal, follower.storage
    ensures Linked(leader, follower, lv)
    ensures !res.success ==> res.lastCommittedIndex == |follower.written|
    ensures (follower.View(), res)
         == AppendEntries(old(follower.View()), AppendRequest(lv.currentTerm, lv.lastLogIndex - 1, entries))
  {
    hide Member.LogOk, Member.InStep, Changes, ApplyAll, R.LeaderOk, R.Follows, R.PeerOk, Continue, AppendEntries;
    ghost var f', response := DispatchAnswer(R.System(lv, true, []), R.Peer(entries, follower.View()));
    res := follower.AppendEntries(AppendRequest(leader.currentTerm, leader.lastLogIndex - 1, entries));
  }

  /** dispatchEntries for one peer, with the recovery it may start. */
  method Dispatch(leader: Member, buffer: EntriesBuffer, follower: Member, fate: R.Fate, fates: int -> R.Fate,
                  ghost lv: Server)
    returns (outcome: R.Outcome)
    requires Linked(leader, follower, lv) && R.PeerOk(R.System(lv, true, []), PeerView(buffer, follower))
    modifies buffer, leader.wal, follower, follower.wal, follower.storage
    ensures Linked(leader, follower, lv)
    ensures (PeerView(buffer, follower), outcome) == R.Dispatch(lv, old(PeerView(buffer, follower)), fate, fates)
  {
    hide Member.LogOk, R.LeaderOk, R.Follows, R.Recover, AppendEntries;
    ghost var p := PeerView(buffer, follower);
    ghost var reply := AppendEntries(p.follower, AppendRequest(lv.currentTerm, lv.lastLogIndex - 1, p.buffer));
    R.DispatchGiven(lv, p, fate, fates, reply.0, reply.1);
    var entries := buffer.Read();
    if fate == R.RequestLost {
      return R.NetworkFailure;
    }
    var res := SendBuffer(leader, follower, entries, lv);
    if fate == R.ReplyLost {
      return R.NetworkFailure;
    }
    outcome := R.Complete;
    if !res.success {
      outcome := StartLogRecovering(leader, follower, res.lastCommittedIndex, fates, lv);
    }
  }
}
