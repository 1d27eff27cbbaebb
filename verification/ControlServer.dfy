/** What one registry does with the control messages it receives: the handlers of
    AppendEntries and RequestVote and the term step of an election, as functions of its
    state. */
module ControlServer {
  import opened Varint
  import opened EntryCodec

  /** The fields of a cluster member the handlers read and write. `wal` lists the entries
      passed to wal.Write, in order; each was written at its own index. `handled` lists the
      entries given to the entries handler, which applies them to the tables. */
  datatype Server = Server(
    wal: seq<Entry>, handled: seq<Entry>, lastLogIndex: int, lastLogTerm: int, currentTerm: int, lastVotedTerm: int)

  /** Index and term of the last entry of a log, zero without one. */
  function LastIndex(wal: seq<Entry>): int
  {
    if wal == [] then 0 else wal[|wal| - 1].index
  }

  function LastTerm(wal: seq<Entry>): int
  {
    if wal == [] then 0 else wal[|wal| - 1].term
  }

  datatype AppendRequest = AppendRequest(term: int, prevLogIndex: int, entries: seq<Entry>)
  datatype AppendResponse = AppendResponse(term: int, success: bool, lastCommittedIndex: int)

  datatype VoteRequest = VoteRequest(term: int, lastLogIndex: int, lastLogTerm: int)
  datatype VoteResponse = VoteResponse(term: int, granted: bool)

  /** validateEntriesSequence: indexes strictly increase. */
  predicate Increasing(entries: seq<Entry>)
  {
    forall i :: 1 <= i < |entries| ==> entries[i - 1].index < entries[i].index
  }

  /** The state after the loop of WriteEntriesFromLeader: every entry written in order, the
      indices those of the last one. */
  function WriteAll(s: Server, entries: seq<Entry>): Server
  {
    if entries == [] then s
    else
      var last := entries[|entries| - 1];
      s.(wal := s.wal + entries, lastLogIndex := last.index, lastLogTerm := last.term)
  }

  /** A newer term, or entries beyond the end of the log, make the receiver adopt the term. */
  predicate Adopts(s: Server, req: AppendRequest)
  {
    req.term > s.currentTerm ||
    (|req.entries| > 0 && req.entries[|req.entries| - 1].index > s.lastLogIndex)
  }

  function AppendEntries(s: Server, req: AppendRequest): (Server, AppendResponse)
  {
    var adopted := if Adopts(s, req) then s.(currentTerm := req.term) else s;
    if req.term < s.currentTerm then
      (adopted, AppendResponse(adopted.currentTerm, false, s.lastLogIndex))
    else if req.prevLogIndex > s.lastLogIndex then
      (adopted, AppendResponse(s.currentTerm, false, s.lastLogIndex))
    else if !Increasing(req.entries) then
      (adopted, AppendResponse(adopted.currentTerm, false, s.lastLogIndex))
    else
      var written := WriteAll(adopted.(handled := s.handled + req.entries), req.entries);
      (written, AppendResponse(written.currentTerm, true, written.lastLogIndex))
  }

  function RequestVote(s: Server, req: VoteRequest): (Server, VoteResponse)
  {
    var seen := if req.term > s.currentTerm then s.(currentTerm := req.term) else s;
    if req.term < s.currentTerm then (seen, VoteResponse(seen.currentTerm, false))
    else if s.lastVotedTerm == req.term then (seen, VoteResponse(seen.currentTerm, false))
    else if req.lastLogIndex < s.lastLogIndex then (seen, VoteResponse(seen.currentTerm, false))
    else if req.lastLogTerm < s.lastLogTerm then (seen, VoteResponse(seen.currentTerm, false))
    else (seen.(currentTerm := req.term, lastVotedTerm := req.term), VoteResponse(s.currentTerm, true))
  }

  /** The term step of StartElection, on a 32-bit counter. */
  function StartElection(s: Server): Server
  {
    s.(currentTerm := (s.currentTerm + 1) % TWO_32)
  }
}
