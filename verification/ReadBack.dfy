/** What lookups answer after any run of the cluster: exactly what was put last and not taken
    away since, field by field, on the leader and on every follower that has the whole log. */
module ReadBack {
  import opened Storage
  import opened Replay
  import opened Paths
  import Subtrees
  import opened Registry
  import opened ReplicatedRegistry
  import V = Varint

  /** What can be looked up, and what a lookup can find. */
  datatype Key = FileAt(path: string) | BlockWith(id: string) | PolicyNamed(name: string)

  datatype Found = AFile(file: FileInfo) | ABlock(block: BlockInfo) | APolicy(policy: Policy)

  function Answer(t: Tables, key: Key): Option<Found>
  {
    match key
    case FileAt(path) => (match Lookup(t.filesByPath, path) case None => None case Some(f) => Some(AFile(f)))
    case BlockWith(id) => (match Lookup(t.blocks, id) case None => None case Some(b) => Some(ABlock(b)))
    case PolicyNamed(name) => (match Lookup(t.policiesByName, name) case None => None case Some(p) => Some(APolicy(p)))
  }

  // ----- what one operation does to one answer -----

  datatype Effect = Keep | Gone | Becomes(found: Found)

  function Amend(was: Option<Found>, e: Effect): Option<Found>
  {
    match e
    case Keep => was
    case Gone => None
    case Becomes(found) => Some(found)
  }

  /** A path a new file can have: not empty, not taken, and with its parent there. */
  predicate Free(t: Tables, path: string)
  {
    path != "" && path !in t.filesByPath && ('/' in path ==> Parent(path) in t.filesByPath)
  }

  function ParentAt(t: Tables, path: string): string
    requires Free(t, path)
  {
    if '/' in path then t.filesByPath[Parent(path)].id else "root"
  }

  function FileEffect(t: Tables, op: Op, path: string): Effect
  {
    match op
    case Put(f, _) =>
      if path == f.path && Free(t, path) then Becomes(AFile(f.(parentID := ParentAt(t, path)))) else Keep
    case MakeDir(given, uid) =>
      if path == Trim(given) && Free(t, path)
      then Becomes(AFile(FileInfo(uid, Name(path), ParentAt(t, path), DIR, path, 0))) else Keep
    case Remove(given) => if path == Trim(given) then Gone else Keep
    case NewPolicy(_, _, _) => Keep
    case DropPolicy(_) => Keep
  }

  function BlockEffect(t: Tables, op: Op, id: string): Effect
  {
    match op
    case Put(_, blocks) =>
      if Insertable(blocks) && LastWith(blocks, id).Some? then Becomes(ABlock(LastWith(blocks, id).value)) else Keep
    case MakeDir(_, _) => Keep
    case Remove(given) =>
      if Trim(given) in t.filesByPath && id in t.blocks && t.blocks[id].fileID == t.filesByPath[Trim(given)].id
      then Gone else Keep
    case NewPolicy(_, _, _) => Keep
    case DropPolicy(_) => Keep
  }

  /** A policy stored again under another name leaves its old name. */
  function PolicyEffect(t: Tables, op: Op, name: string): Effect
  {
    match op
    case Put(_, _) => Keep
    case MakeDir(_, _) => Keep
    case Remove(_) => Keep
    case NewPolicy(given, rules, uid) =>
      if uid == "" || given == "" then Keep
      else if name == given then Becomes(APolicy(NewPolicyRow(given, rules, uid)))
      else if uid in t.policies && t.policies[uid].name == name then Gone
      else Keep
    case DropPolicy(given) => if name == given then Gone else Keep
  }

  function EffectOn(t: Tables, op: Op, key: Key): Effect
  {
    match key
    case FileAt(path) => FileEffect(t, op, path)
    case BlockWith(id) => BlockEffect(t, op, id)
    case PolicyNamed(name) => PolicyEffect(t, op, name)
  }

  /** The stored row of a new policy has the given name and the given rules. */
  lemma NewPolicyShows(name: string, rules: seq<Rule>, uid: string)
    ensures Shows(NewPolicyRow(name, rules, uid), uid, name, rules)
  {
  }

  // ----- each operation does just that -----

  lemma PutBlocksOnly(t: Tables, blocks: seq<BlockInfo>)
    ensures var t' := Apply(t, AssignBlocks(blocks));
            && t' == t.(blocks := t'.blocks)
            && forall id :: Lookup(t'.blocks, id) ==
                 if Insertable(blocks) && LastWith(blocks, id).Some? then LastWith(blocks, id) else Lookup(t.blocks, id)
  {
    hide BlocksPut, LastWith, Lookup;
    PutFoundAll(t.blocks, blocks);
  }

  lemma PutStep(t: Tables, f: FileInfo, blocks: seq<BlockInfo>, key: Key)
    requires Tree(t) && FreshId(t, f.id)
    ensures Tree(Next(t, Put(f, blocks)))
    ensures Answer(Next(t, Put(f, blocks)), key) == Amend(Answer(t, key), EffectOn(t, Put(f, blocks), key))
  {
    hide Tree, Apply, LastWith, Insertable, Depth, Parent, Split, Added, Judge, Placed;
    var t1 := Apply(t, AssignBlocks(blocks));
    PutBlocksOnly(t, blocks);
    BlocksKeepTree(t, blocks);
    AddedFound(t1, f);
    AddedTree(t1, f);
  }

  lemma AddedTree(t: Tables, f: FileInfo)
    requires Tree(t) && FreshId(t, f.id)
    ensures Tree(Added(t, f))
  {
    hide Tree, FileStored, Depth, Parent;
    if Judge(t, f.path) == Done {
      PlacedKeepsTree(t, f);
    }
  }

  lemma MakeDirStep(t: Tables, path: string, uid: string, key: Key)
    requires Tree(t) && FreshId(t, uid)
    ensures Tree(Next(t, MakeDir(path, uid)))
    ensures Answer(Next(t, MakeDir(path, uid)), key) == Amend(Answer(t, key), EffectOn(t, MakeDir(path, uid), key))
  {
    hide Tree, Depth, Parent, Split, Added, Judge, Placed, Trim, Name;
    AddedFound(t, NewDir(path, uid));
    AddedTree(t, NewDir(path, uid));
  }

  lemma RemoveStep(t: Tables, path: string, key: Key)
    requires Tree(t) && Enabled(t, Remove(path))
    ensures Tree(Next(t, Remove(path)))
    ensures Answer(Next(t, Remove(path)), key) == Amend(Answer(t, key), EffectOn(t, Remove(path), key))
  {
    hide Attached, Depth, Parent, Split, Trim, FileAndBlocksDeleted, Subtrees.Prune, Subtrees.Removed;
    RemovalFound(t, Trim(path));
    if Trim(path) in t.filesByPath {
      DeleteKeepsTree(t, t.filesByPath[Trim(path)]);
    }
  }

  lemma NewPolicyStep(t: Tables, name: string, rules: seq<Rule>, uid: string, key: Key)
    requires Tree(t)
    ensures Tree(Next(t, NewPolicy(name, rules, uid)))
    ensures Answer(Next(t, NewPolicy(name, rules, uid)), key) ==
            Amend(Answer(t, key), EffectOn(t, NewPolicy(name, rules, uid), key))
  {
    hide NewPolicyRow, Tree;
    NewPolicyShows(name, rules, uid);
    NewPolicyKeepsTree(t, NewPolicyRow(name, rules, uid));
  }

  lemma DropPolicyStep(t: Tables, name: string, key: Key)
    requires Tree(t)
    ensures Tree(Next(t, DropPolicy(name)))
    ensures Answer(Next(t, DropPolicy(name)), key) == Amend(Answer(t, key), EffectOn(t, DropPolicy(name), key))
  {
    hide FilesOk, Attached;
    PolicyGoneKeepsTree(t, name);
  }

  /** Every operation keeps the tree and changes every answer as its effect says. */
  lemma {:induction false} Step(t: Tables, op: Op, key: Key)
    requires Tree(t) && Enabled(t, op)
    ensures Tree(Next(t, op)) && Answer(Next(t, op), key) == Amend(Answer(t, key), EffectOn(t, op, key))
  {
    hide Tree, Next, Answer, EffectOn, Amend;
    match op {
      case Put(f, blocks) => PutStep(t, f, blocks, key);
      case MakeDir(path, uid) => MakeDirStep(t, path, uid, key);
      case Remove(path) => RemoveStep(t, path, key);
      case NewPolicy(name, rules, uid) => NewPolicyStep(t, name, rules, uid, key);
      case DropPolicy(name) => DropPolicyStep(t, name, key);
    }
  }

  // ----- whole runs -----

  function EventEffect(t: Tables, ev: Event, key: Key): Effect
  {
    match ev
    case Act(op) => EffectOn(t, op, key)
    case Deliver(_, _, _) => Keep
  }

  lemma {:induction false} RunSnoc(encode: Encoder, peers: nat, t: Tables, events: seq<Event>, ev: Event)
    ensures Final(t, events + [ev]) == After(Final(t, events), ev)
    ensures MayRun(encode, peers, t, events + [ev]) <==>
              MayRun(encode, peers, t, events) && May(encode, peers, Final(t, events), ev)
    decreases |events|
  {
    hide After, May;
    if events == [] {
      assert [] + [ev] == [ev] && [ev][1..] == [];
      assert Final(After(t, ev), []) == After(t, ev);
      assert MayRun(encode, peers, After(t, ev), []);
    } else {
      assert (events + [ev])[1..] == events[1..] + [ev] && (events + [ev])[0] == events[0];
      RunSnoc(encode, peers, After(t, events[0]), events[1..], ev);
    }
  }

  lemma EventStep(encode: Encoder, peers: nat, t: Tables, ev: Event, key: Key)
    requires Tree(t) && May(encode, peers, t, ev)
    ensures Tree(After(t, ev)) && Answer(After(t, ev), key) == Amend(Answer(t, key), EventEffect(t, ev, key))
  {
    hide Tree, Next, Answer, EffectOn, Small;
    if ev.Act? {
      Step(t, ev.op, key);
    }
  }

  /** The answer v was there at the start (k == 0) or given by event k - 1, and no event since
      then touched it. */
  ghost predicate Origin(t: Tables, events: seq<Event>, key: Key, v: Found, k: nat)
  {
    && k <= |events|
    && (if k == 0 then Answer(t, key) == Some(v)
        else EventEffect(Final(t, events[..k - 1]), events[k - 1], key) == Becomes(v))
    && forall j :: k <= j < |events| ==> EventEffect(Final(t, events[..j]), events[j], key) == Keep
  }

  lemma OriginSnoc(t: Tables, events: seq<Event>, ev: Event, key: Key, v: Found, k: nat)
    ensures k <= |events| ==>
              (Origin(t, events + [ev], key, v, k) <==>
                 Origin(t, events, key, v, k) && EventEffect(Final(t, events), ev, key) == Keep)
    ensures k == |events| + 1 ==>
              (Origin(t, events + [ev], key, v, k) <==> EventEffect(Final(t, events), ev, key) == Becomes(v))
  {
    hide Final, EventEffect, Answer;
    var more := events + [ev];
    assert more[..|events|] == events;
    assert forall j :: 0 <= j < |events| ==> more[..j] == events[..j] && more[j] == events[j];
  }

  /** After every run a lookup answers v exactly when v was put by some event, or was there at
      the start, and no later event replaced it or took it away. */
  lemma {:induction false} FoundIff(encode: Encoder, peers: nat, t: Tables, events: seq<Event>, key: Key, v: Found)
    requires Tree(t) && MayRun(encode, peers, t, events)
    ensures Tree(Final(t, events))
    ensures Answer(Final(t, events), key) == Some(v) <==> exists k :: Origin(t, events, key, v, k)
    decreases |events|
  {
    hide Tree, Answer, EventEffect, After, May;
    if events == [] {
      assert Origin(t, events, key, v, 0) <==> Answer(t, key) == Some(v);
    } else {
      var n := |events| - 1;
      var before, ev := events[..n], events[n];
      assert events == before + [ev];
      RunSnoc(encode, peers, t, before, ev);
      FoundIff(encode, peers, t, before, key, v);
      EventStep(encode, peers, Final(t, before), ev, key);
      OriginOfLast(t, before, ev, key, v);
    }
  }

  lemma OriginOfLast(t: Tables, events: seq<Event>, ev: Event, key: Key, v: Found)
    ensures (exists k :: Origin(t, events + [ev], key, v, k)) <==>
              || EventEffect(Final(t, events), ev, key) == Becomes(v)
              || (EventEffect(Final(t, events), ev, key) == Keep && exists k :: Origin(t, events, key, v, k))
  {
    hide Final, EventEffect, Answer;
    OriginSnoc(t, events, ev, key, v, |events| + 1);
    if k: nat :| Origin(t, events + [ev], key, v, k) {
      OriginSnoc(t, events, ev, key, v, k);
      assert k <= |events| ==> Origin(t, events, key, v, k);
    }
    if k: nat :| EventEffect(Final(t, events), ev, key) == Keep && Origin(t, events, key, v, k) {
      OriginSnoc(t, events, ev, key, v, k);
    }
    if EventEffect(Final(t, events), ev, key) == Becomes(v) {
      assert Origin(t, events + [ev], key, v, |events| + 1);
    }
  }

  // ----- what was put and not removed -----

  lemma {:induction false} RunAppend(encode: Encoder, peers: nat, t: Tables, a: seq<Event>, b: seq<Event>)
    ensures Final(t, a + b) == Final(Final(t, a), b)
    ensures MayRun(encode, peers, t, a + b) <==>
              MayRun(encode, peers, t, a) && MayRun(encode, peers, Final(t, a), b)
    decreases |a|
  {
    hide After, May;
    if a == [] {
      assert a + b == b;
    } else {
      assert (a + b)[1..] == a[1..] + b && (a + b)[0] == a[0];
      RunAppend(encode, peers, After(t, a[0]), a[1..], b);
    }
  }

  predicate Removes(ev: Event, path: string)
  {
    ev.Act? && ev.op.Remove? && Trim(ev.op.path) == path
  }

  /** A file stays at its path, with all its fields, until the path is removed. */
  lemma {:induction false} FileStays(encode: Encoder, peers: nat, t: Tables, events: seq<Event>, path: string)
    requires Tree(t) && MayRun(encode, peers, t, events) && path in t.filesByPath
    requires forall i :: 0 <= i < |events| ==> !Removes(events[i], path)
    ensures Lookup(Final(t, events).filesByPath, path) == Lookup(t.filesByPath, path)
    decreases |events|
  {
    hide Tree, May, After, Trim;
    if events != [] {
      EventStep(encode, peers, t, events[0], FileAt(path));
      assert !Removes(events[0], path);
      forall i | 0 <= i < |events| - 1 ensures !Removes(events[1..][i], path) {
        assert events[1..][i] == events[i + 1];
      }
      FileStays(encode, peers, After(t, events[0]), events[1..], path);
    }
  }

  /** A file put at a free path is found there in the end, as given and with its parent. */
  lemma PutThenFound(encode: Encoder, peers: nat, t: Tables, before: seq<Event>, f: FileInfo, blocks: seq<BlockInfo>,
                     after: seq<Event>)
    requires Tree(t) && MayRun(encode, peers, t, before + ([Act(Put(f, blocks))] + after))
    requires Free(Final(t, before), f.path)
    requires forall i :: 0 <= i < |after| ==> !Removes(after[i], f.path)
    ensures Lookup(Final(t, before + ([Act(Put(f, blocks))] + after)).filesByPath, f.path) ==
            Some(f.(parentID := ParentAt(Final(t, before), f.path)))
  {
    hide Tree, May, Final, MayRun, Removes;
    Given(encode, peers, t, before, Act(Put(f, blocks)), after, f.path);
  }

  /** So is a new directory: its name is the last component, and it is empty. */
  lemma MakeDirThenFound(encode: Encoder, peers: nat, t: Tables, before: seq<Event>, path: string, uid: string,
                         after: seq<Event>)
    requires Tree(t) && MayRun(encode, peers, t, before + ([Act(MakeDir(path, uid))] + after))
    requires Free(Final(t, before), Trim(path))
    requires forall i :: 0 <= i < |after| ==> !Removes(after[i], Trim(path))
    ensures Lookup(Final(t, before + ([Act(MakeDir(path, uid))] + after)).filesByPath, Trim(path)) ==
            Some(FileInfo(uid, Name(Trim(path)), ParentAt(Final(t, before), Trim(path)), DIR, Trim(path), 0))
  {
    hide Tree, May, Final, MayRun, Removes, Trim;
    Given(encode, peers, t, before, Act(MakeDir(path, uid)), after, Trim(path));
  }

  lemma Given(encode: Encoder, peers: nat, t: Tables, before: seq<Event>, ev: Event, after: seq<Event>, path: string)
    requires Tree(t) && MayRun(encode, peers, t, before + ([ev] + after))
    requires forall i :: 0 <= i < |after| ==> !Removes(after[i], path)
    requires EventEffect(Final(t, before), ev, FileAt(path)).Becomes?
    ensures Answer(Final(t, before + ([ev] + after)), FileAt(path)) ==
            Some(EventEffect(Final(t, before), ev, FileAt(path)).found)
  {
    hide Tree, May, After, Removes, EventEffect;
    var s := Final(t, before);
    RunAppend(encode, peers, t, before, [ev] + after);
    RunTree(encode, peers, t, before);
    EventStep(encode, peers, s, ev, FileAt(path));
    assert ([ev] + after)[1..] == after;
    FileStays(encode, peers, After(s, ev), after, path);
  }

  lemma RunTree(encode: Encoder, peers: nat, t: Tables, events: seq<Event>)
    requires Tree(t) && MayRun(encode, peers, t, events)
    ensures Tree(Final(t, events))
  {
    hide Tree, May, After;
    FoundIff(encode, peers, t, events, FileAt(""), AFile(FileInfo("", "", "", FILE, "", 0)));
  }

  // ----- on the leader and on its followers -----

  /** The tables answer every lookup as a run from the empty cluster says. */
  ghost predicate Told(t: Tables, events: seq<Event>)
  {
    forall key, v :: Answer(t, key) == Some(v) <==> exists k :: Origin(EMPTY, events, key, v, k)
  }

  lemma FinalTold(encode: Encoder, peers: nat, events: seq<Event>)
    requires MayRun(encode, peers, EMPTY, events)
    ensures Told(Final(EMPTY, events), events)
  {
    hide MayRun, Final, Origin, Answer;
    assert Tree(EMPTY);
    forall key, v
      ensures Answer(Final(EMPTY, events), key) == Some(v) <==> exists k :: Origin(EMPTY, events, key, v, k)
    {
      FoundIff(encode, peers, EMPTY, events, key, v);
    }
  }

  /** Any run of a new cluster, then lookups: the leader, and every follower that has the whole
      log, answer with exactly what the run put and did not take away again. */
  method RunAndLookUp(n: nat, segmentSize: int, cacheSize: int, encode: Encoder, decode: Decoder, events: seq<Event>,
                      path: string, name: string)
    returns (r: Registry, file: Option<FileInfo>, policy: Option<Policy>)
    requires Faithful(encode, decode) && MayRun(encode, n, EMPTY, events) && 2 * |events| < V.TWO_64
    ensures forall v :: file == Some(v) <==> exists k :: Origin(EMPTY, events, FileAt(path), AFile(v), k)
    ensures forall v :: policy == Some(v) <==> exists k :: Origin(EMPTY, events, PolicyNamed(name), APolicy(v), k)
    ensures Told(r.storage.tables, events)
    ensures forall f :: f in r.cluster.followers && |f.written| == |r.cluster.leader.written| ==>
              Told(f.storage.tables, events)
  {
    hide Tree, Faithful, MayRun, Final, Origin, Registry.Leading;
    r := RunFromStart(n, segmentSize, cacheSize, encode, decode, events);
    FinalTold(encode, n, events);
    file := r.storage.GetFileByPath(path);
    policy := r.storage.GetPolicy(name);
    forall v ensures file == Some(v) <==> exists k :: Origin(EMPTY, events, FileAt(path), AFile(v), k) {
      assert file == Some(v) <==> Answer(r.storage.tables, FileAt(path)) == Some(AFile(v));
    }
    forall v ensures policy == Some(v) <==> exists k :: Origin(EMPTY, events, PolicyNamed(name), APolicy(v), k) {
      assert policy == Some(v) <==> Answer(r.storage.tables, PolicyNamed(name)) == Some(APolicy(v));
    }
  }
}
