/** Terms and votes over whole runs of one registry. */
module Voting {
  import opened Varint
  import opened EntryCodec
  import opened ControlServer

  datatype Event =
    | Vote(vote: VoteRequest)
    | Append(append: AppendRequest)
    | Election

  ghost predicate WellFormed(ev: Event)
  {
    match ev
    case Vote(req) => 0 <= req.term < TWO_32
    case Append(req) => 0 <= req.term < TWO_32
    case Election => true
  }

  function After(s: Server, ev: Event): Server
  {
    match ev
    case Vote(req) => RequestVote(s, req).0
    case Append(req) => AppendEntries(s, req).0
    case Election => StartElection(s)
  }

  /** The vote an event casts, if any: the term it was granted for. */
  predicate Grants(s: Server, ev: Event, term: int)
  {
    ev.Vote? && ev.vote.term == term && RequestVote(s, ev.vote).1.granted
  }

  ghost predicate Legal(s: Server)
  {
    0 <= s.currentTerm < TWO_32 && 0 <= s.lastVotedTerm <= s.currentTerm
  }

  /** The events that can take the term back: entries from a lower term that reach beyond the
      log, and the overflow of the counter. */
  predicate Regresses(s: Server, ev: Event)
  {
    match ev
    case Vote(_) => false
    case Append(req) =>
      req.term < s.currentTerm && |req.entries| > 0 && req.entries[|req.entries| - 1].index > s.lastLogIndex
    case Election => s.currentTerm == TWO_32 - 1
  }

  /** The term falls exactly on those events. */
  lemma TermFalls(s: Server, ev: Event)
    requires Legal(s) && WellFormed(ev)
    ensures After(s, ev).currentTerm < s.currentTerm <==> Regresses(s, ev)
  {
  }

  /** On every other event the term does not fall, no vote lies in the future, and a grant
      is for a term the server has not voted in and has now reached. */
  lemma {:induction false} StepKeeps(s: Server, ev: Event)
    requires Legal(s) && WellFormed(ev) && !Regresses(s, ev)
    ensures Legal(After(s, ev)) && s.currentTerm <= After(s, ev).currentTerm
    ensures s.lastVotedTerm <= After(s, ev).lastVotedTerm
    ensures forall t :: Grants(s, ev, t) ==>
              s.lastVotedTerm < t && After(s, ev).lastVotedTerm == t == After(s, ev).currentTerm
  {
    TermFalls(s, ev);
  }

  /** A run: the states between the events. */
  ghost predicate IsRun(states: seq<Server>, events: seq<Event>)
  {
    && |states| == |events| + 1
    && (forall i :: 0 <= i < |events| ==> WellFormed(events[i]) && states[i + 1] == After(states[i], events[i]))
  }

  /** No event of the run takes the term back. */
  ghost predicate Forward(states: seq<Server>, events: seq<Event>)
    requires |states| == |events| + 1
  {
    forall i :: 0 <= i < |events| ==> !Regresses(states[i], events[i])
  }

  lemma {:induction false} RunKeeps(states: seq<Server>, events: seq<Event>, i: nat, j: nat)
    requires IsRun(states, events) && Forward(states, events) && Legal(states[0])
    requires i <= j < |states|
    ensures Legal(states[i]) && Legal(states[j])
    ensures states[i].currentTerm <= states[j].currentTerm && states[i].lastVotedTerm <= states[j].lastVotedTerm
    decreases j
  {
    if j > 0 {
      var i' := if i < j then i else j - 1;
      RunKeeps(states, events, i', j - 1);
      StepKeeps(states[j - 1], events[j - 1]);
    }
  }

  // ----- what a request leads to -----

  /** The last index and term are those of the last entry written. */
  ghost predicate Settled(s: Server)
  {
    s.lastLogIndex == LastIndex(s.wal) && s.lastLogTerm == LastTerm(s.wal)
  }

  /** Every answer to AppendEntries. The receiver is at the sender's term at least; it takes the
      entries, all of them, exactly when the term is not behind, the log reaches up to them and
      they are in order. The reply carries the new term, except where the log does not reach. */
  lemma {:induction false} AppendAnswers(s: Server, req: AppendRequest)
    ensures var (s', res) := AppendEntries(s, req);
            && s'.currentTerm >= req.term && s'.lastVotedTerm == s.lastVotedTerm
            && (res.success <==>
                  req.term >= s.currentTerm && req.prevLogIndex <= s.lastLogIndex && Increasing(req.entries))
            && s'.wal == s.wal + (if res.success then req.entries else [])
            && s'.handled == s.handled + (if res.success then req.entries else [])
            && res.lastCommittedIndex == s'.lastLogIndex
            && (res.term == if req.term >= s.currentTerm && req.prevLogIndex > s.lastLogIndex
                            then s.currentTerm else s'.currentTerm)
            && (Settled(s) ==> Settled(s'))
  {
    assert s.wal + [] == s.wal && s.handled + [] == s.handled;
  }

  /** Every answer to RequestVote. */
  lemma {:induction false} VoteAnswers(s: Server, req: VoteRequest)
    requires Settled(s)
    ensures var (s', res) := RequestVote(s, req);
            && (res.granted <==>
                  && req.term >= s.currentTerm && req.term != s.lastVotedTerm
                  && req.lastLogIndex >= LastIndex(s.wal) && req.lastLogTerm >= LastTerm(s.wal))
            && s'.currentTerm == (if req.term > s.currentTerm then req.term else s.currentTerm)
            && s'.lastVotedTerm == (if res.granted then req.term else s.lastVotedTerm)
            && res.term == (if res.granted then s.currentTerm else s'.currentTerm)
            && s'.wal == s.wal && s'.handled == s.handled && Settled(s')
  {
  }

  lemma {:induction false} RunSettled(states: seq<Server>, events: seq<Event>, i: nat)
    requires IsRun(states, events) && Settled(states[0]) && i < |states|
    ensures Settled(states[i])
  {
    if i > 0 {
      RunSettled(states, events, i - 1);
      match events[i - 1] {
        case Vote(req) => VoteAnswers(states[i - 1], req);
        case Append(req) => AppendAnswers(states[i - 1], req);
        case Election =>
      }
    }
  }

  /** A vote goes to a candidate exactly when its term is not behind and not voted in, and its
      log is behind neither in its last index nor in its last term. */
  lemma GrantIff(states: seq<Server>, events: seq<Event>, i: nat, req: VoteRequest)
    requires IsRun(states, events) && Settled(states[0]) && i < |states|
    ensures var s := states[i];
            Grants(s, Vote(req), req.term) <==>
              && req.term >= s.currentTerm && req.term != s.lastVotedTerm
              && req.lastLogIndex >= LastIndex(s.wal) && req.lastLogTerm >= LastTerm(s.wal)
  {
    RunSettled(states, events, i);
    VoteAnswers(states[i], req);
  }

  /** In particular a candidate of a new term whose log is not behind always gets the vote. */
  lemma NewTermGranted(states: seq<Server>, events: seq<Event>, i: nat, req: VoteRequest)
    requires IsRun(states, events) && Forward(states, events) && Legal(states[0]) && Settled(states[0])
    requires i < |states| && req.term > states[i].currentTerm
    ensures Grants(states[i], Vote(req), req.term) <==>
              req.lastLogIndex >= LastIndex(states[i].wal) && req.lastLogTerm >= LastTerm(states[i].wal)
  {
    RunKeeps(states, events, 0, i);
    GrantIff(states, events, i, req);
  }

  /** The term an event speaks for. */
  function TermOf(ev: Event): int
    requires !ev.Election?
  {
    if ev.Vote? then ev.vote.term else ev.append.term
  }

  /** Once a term was heard of, requests of a lower one change nothing and are refused. */
  lemma StaleRefused(states: seq<Server>, events: seq<Event>, i: nat, j: nat)
    requires IsRun(states, events) && Forward(states, events) && Legal(states[0]) && Settled(states[0])
    requires i < j < |events| && !events[i].Election? && !events[j].Election? && TermOf(events[j]) < TermOf(events[i])
    ensures states[j + 1] == states[j]
    ensures events[j].Append? ==> !AppendEntries(states[j], events[j].append).1.success
    ensures events[j].Vote? ==> !RequestVote(states[j], events[j].vote).1.granted
  {
    RunSettled(states, events, i);
    match events[i] {
      case Vote(req) => VoteAnswers(states[i], req);
      case Append(req) => AppendAnswers(states[i], req);
    }
    RunKeeps(states, events, i + 1, j);
  }

  /** At most one vote per term, over every run in which the term never falls. */
  lemma OneVotePerTerm(states: seq<Server>, events: seq<Event>, i: nat, j: nat, term: int)
    requires IsRun(states, events) && Forward(states, events) && Legal(states[0])
    requires i < j < |events| && Grants(states[i], events[i], term)
    ensures !Grants(states[j], events[j], term)
  {
    RunKeeps(states, events, 0, i);
    StepKeeps(states[i], events[i]);
    RunKeeps(states, events, i + 1, j);
    StepKeeps(states[j], events[j]);
  }

  /** The term a server stands for election in is new to it: above every term it has voted in
      and above that of every earlier election of its own. */
  lemma {:induction false} ElectionTermIsNew(states: seq<Server>, events: seq<Event>, i: nat, j: nat)
    requires IsRun(states, events) && Forward(states, events) && Legal(states[0])
    requires i < j < |events| && events[j] == Election
    ensures states[j + 1].lastVotedTerm < states[j + 1].currentTerm
    ensures forall t :: Grants(states[i], events[i], t) ==> t < states[j + 1].currentTerm
    ensures events[i] == Election ==> states[i + 1].currentTerm < states[j + 1].currentTerm
  {
    RunKeeps(states, events, 0, i);
    StepKeeps(states[i], events[i]);
    RunKeeps(states, events, i + 1, j);
    StepKeeps(states[j], events[j]);
  }

  /** The restriction is needed: a voter of term 2, pulled back to term 1 by entries from an
      older leader, votes in term 1 and then in term 2 a second time. */
  lemma TwoVotesInOneTerm()
    ensures exists states: seq<Server>, events: seq<Event> ::
              IsRun(states, events) && Legal(states[0]) && |events| == 4
              && Grants(states[0], events[0], 2) && Grants(states[3], events[3], 2)
  {
    var e := EMPTY.(index := 1);
    var s0 := Server([], [], 0, 0, 1, 0);
    var v2 := Vote(VoteRequest(2, 5, 5));
    var pull := Append(AppendRequest(1, 7, [e]));
    var v1 := Vote(VoteRequest(1, 5, 5));
    var s1 := After(s0, v2);
    var s2 := After(s1, pull);
    var s3 := After(s2, v1);
    var s4 := After(s3, v2);
    assert s2 == s1.(currentTerm := 1);
    assert s3 == s2.(currentTerm := 1, lastVotedTerm := 1);
    assert IsRun([s0, s1, s2, s3, s4], [v2, pull, v1, v2]);
  }
}
