/** The registry's namespace: files, directories, blocks and policies are stored on the
    leader, written to the replicated log, and rebuilt by followers from the log. */
module Registry {
  import V = Varint
  import opened Paths
  import opened Storage
  import opened Subtrees
  import opened Replay
  import C = EntryCodec
  import R = Replication
  import ClusterRuns

  const ROOT := "root"

  // ----- the tree -----

  /** A file is at the root, or its parent is stored under the path minus the last
      component. */
  ghost predicate Attached(files: Files, f: FileInfo)
  {
    if Depth(f.path) == 0 then f.parentID == ROOT
    else f.parentID in files && files[f.parentID].path == Parent(f.path)
  }

  ghost predicate Tree(t: Tables)
  {
    && WellFormed(t) && ROOT !in t.files
    && (forall id :: id in t.files ==> Attached(t.files, t.files[id]))
  }

  lemma TreeGraded(t: Tables)
    requires Tree(t)
    ensures Graded(t.files)
  {
    forall id | id in t.files && t.files[id].parentID in t.files
      ensures Level(t.files, id) == Level(t.files, t.files[id].parentID) + 1
    {
      assert Attached(t.files, t.files[id]);
      ParentOf(t.files[id].path);
    }
  }

  /** The tree is a matter of the files table. */
  lemma OtherTablesKeepTree(t: Tables, blocks: Blocks, policies: Policies, byName: Policies)
    requires Tree(t) && Keyed(blocks) && PoliciesOk(policies, byName)
    ensures Tree(t.(blocks := blocks, policies := policies, policiesByName := byName))
  {
  }

  lemma StoreKeepsRows(t: Tables, f: FileInfo)
    requires WellFormed(t) && f.id !in t.files && f.path !in t.filesByPath && FileStored(t, f).Some?
    ensures WellFormed(FileStored(t, f).value)
  {
  }

  /** A new file under a stored parent keeps the tree. */
  lemma StoreKeepsTree(t: Tables, f: FileInfo)
    requires Tree(t) && f.id !in t.files && f.id != ROOT && f.path !in t.filesByPath && FileStored(t, f).Some?
    requires Attached(t.files, f)
    ensures Tree(FileStored(t, f).value)
  {
    StoreKeepsRows(t, f);
    var t' := FileStored(t, f).value;
    forall id | id in t'.files ensures Attached(t'.files, t'.files[id]) {
      if id != f.id {
        assert Attached(t.files, t.files[id]);
      }
    }
  }

  lemma DeleteKeepsRows(t: Tables, f: FileInfo)
    requires WellFormed(t) && f.id in t.files
    ensures WellFormed(FileAndBlocksDeleted(t, f).value)
  {
  }

  /** Removing a file without children keeps the tree. */
  lemma {:induction false} DeleteKeepsTree(t: Tables, f: FileInfo)
    requires Tree(t) && f.id in t.files && !HasChildren(t.files, f.id)
    ensures Tree(FileAndBlocksDeleted(t, f).value)
  {
    DeleteKeepsRows(t, f);
    var t' := FileAndBlocksDeleted(t, f).value;
    forall id | id in t'.files ensures Attached(t'.files, t'.files[id]) {
      assert Attached(t.files, t.files[id]);
      assert t.files[id].parentID != f.id;
    }
  }

  lemma BlocksKeepTree(t: Tables, put: seq<BlockInfo>)
    requires Tree(t)
    ensures Tree(Apply(t, AssignBlocks(put)))
  {
    if BlocksPut(t.blocks, put).Some? {
      PutKeyed(t.blocks, put);
      OtherTablesKeepTree(t, BlocksPut(t.blocks, put).value, t.policies, t.policiesByName);
    }
  }

  lemma NewPolicyKeepsTree(t: Tables, p: Policy)
    requires Tree(t)
    ensures Tree(Apply(t, CreatePolicy(p)))
  {
    if PolicyStored(t, p).Some? {
      PolicyStoredOk(t, p);
      var t' := PolicyStored(t, p).value;
      OtherTablesKeepTree(t, t.blocks, t'.policies, t'.policiesByName);
    }
  }

  lemma PolicyGoneKeepsTree(t: Tables, name: string)
    requires Tree(t)
    ensures Tree(Apply(t, DeletePolicy(name))) && name !in Apply(t, DeletePolicy(name)).policiesByName
    ensures name in t.policiesByName ==>
              t.policiesByName[name].name == name && PolicyDeleted(t, t.policiesByName[name]).Some?
  {
    if name in t.policiesByName {
      PolicyDeletedOk(t, name);
      var t' := PolicyDeleted(t, t.policiesByName[name]).value;
      OtherTablesKeepTree(t, t.blocks, t'.policies, t'.policiesByName);
    }
  }

  // ----- placing a new file -----

  datatype Verdict = Done | FileExists | NoSuchFileOrDirectory | StoreFailed

  /** What becomes of a request for a new file at a path. */
  function Judge(t: Tables, path: string): Verdict
  {
    if path in t.filesByPath then FileExists
    else if Depth(path) > 0 && Parent(path) !in t.filesByPath then NoSuchFileOrDirectory
    else if path == "" then StoreFailed
    else Done
  }

  /** The file with the parent it gets. */
  function Placed(t: Tables, f: FileInfo): FileInfo
    requires Judge(t, f.path) == Done
  {
    f.(parentID := if Depth(f.path) > 0 then t.filesByPath[Parent(f.path)].id else ROOT)
  }

  /** The directory HandleMakeDir asks for. */
  function NewDir(path: string, uid: string): FileInfo
  {
    FileInfo(uid, Name(Trim(path)), ROOT, DIR, Trim(path), 0)
  }

  /** A fresh identifier. */
  predicate FreshId(t: Tables, id: string)
  {
    id != "" && id != ROOT && id !in t.files
  }

  function Added(t: Tables, f: FileInfo): Tables
  {
    if Judge(t, f.path) == Done then Settle(t, FileStored(t, Placed(t, f))) else t
  }

  /** A request for a new file, told by lookups: when it is refused, and that otherwise the
      file is found at its path as given, with only its parent filled in. */
  ghost predicate AddsFile(t: Tables, t': Tables, f: FileInfo, err: Verdict)
  {
    && (err == FileExists <==> f.path in t.filesByPath)
    && (err == NoSuchFileOrDirectory <==>
          f.path !in t.filesByPath && '/' in f.path && Parent(f.path) !in t.filesByPath)
    && (err == StoreFailed <==> f.path !in t.filesByPath && f.path == "")
    && (err == Done ==>
          && Lookup(t'.filesByPath, f.path) ==
             Some(f.(parentID := if '/' in f.path then t.filesByPath[Parent(f.path)].id else "root"))
          && forall p :: p != f.path ==> Lookup(t'.filesByPath, p) == Lookup(t.filesByPath, p))
    && (err != Done ==> t' == t)
    && t' == t.(files := t'.files, filesByPath := t'.filesByPath)
  }

  lemma AddedFound(t: Tables, f: FileInfo)
    requires Tree(t) && FreshId(t, f.id)
    ensures AddsFile(t, Added(t, f), f, Judge(t, f.path))
  {
    hide Tree, Depth, Parent;
    Slashed(f.path);
    if Judge(t, f.path) == Done {
      PlacedKeepsTree(t, f);
    }
  }

  lemma {:induction false} PlacedKeepsTree(t: Tables, f: FileInfo)
    requires Tree(t) && FreshId(t, f.id) && Judge(t, f.path) == Done
    ensures FileStored(t, Placed(t, f)).Some? && Tree(FileStored(t, Placed(t, f)).value)
  {
    var g := Placed(t, f);
    StoreKeepsTree(t, g);
  }

  // ----- policies -----

  /** What a request says about a path. */
  datatype Rule = Rule(path: string, capabilities: seq<string>)

  function NewPolicyRow(name: string, rules: seq<Rule>, uid: string): Policy
  {
    Policy(uid, name, seq(|rules|, i requires 0 <= i < |rules| =>
                            PathRules(rules[i].path, name, 0, rules[i].capabilities)))
  }

  /** A stored policy with that name and exactly those rules, each under the policy's name. */
  ghost predicate Shows(p: Policy, uid: string, name: string, rules: seq<Rule>)
  {
    && p.id == uid && p.name == name && |p.paths| == |rules|
    && forall i :: 0 <= i < |rules| ==> p.paths[i] == PathRules(rules[i].path, name, 0, rules[i].capabilities)
  }

  // ----- removal -----

  /** Deleting a file and its listed blocks by two log entries gives what deleting them
      together gave. */
  lemma RemovalReplays(t: Tables, f: FileInfo, list: seq<BlockInfo>)
    requires f.id in t.files && Listing(list, BlocksOf(t.blocks, f.id))
    ensures Apply(Apply(t, DeleteFile(f)), DeleteBlocks(list)) == FileAndBlocksDeleted(t, f).value
  {
    DeleteListed(t.blocks, list);
    RowsIds(list, BlocksOf(t.blocks, f.id));
  }

  /** What killChildren relies on, at every level of its recursion. */
  ghost predicate Prunable(t: Tables, bound: nat)
  {
    WellFormed(t) && Graded(t.files) && Bounded(t.files, bound)
  }

  lemma PrunableSmaller(t: Tables, ids: set<string>, bound: nat)
    requires Prunable(t, bound)
    ensures Prunable(Prune(t, ids), bound)
  {
    PruneWellFormed(t, ids);
    GradedSmaller(t.files, ids);
    BoundedSmaller(t.files, ids, bound);
  }

  /** Where killChildren stands after n children. */
  ghost predicate Visited(t: Tables, now: Tables, file: FileInfo, list: seq<FileInfo>, n: nat)
  {
    n <= |list| && now == Prune(t, Gone(t.files, file, list, n))
  }

  lemma VisitedNone(t: Tables, file: FileInfo, list: seq<FileInfo>)
    requires WellFormed(t) && Row(t.files, file)
    ensures Visited(t, if file.typ == FILE then FileAndBlocksDeleted(t, file).value else t, file, list, 0)
  {
    PruneNone(t);
    PruneOne(t, file);
  }

  /** ... with all the next visit needs. */
  ghost predicate Pending(t: Tables, now: Tables, file: FileInfo, list: seq<FileInfo>, n: nat, bound: nat)
  {
    Prunable(t, bound) && Row(t.files, file) && Children(t.files, file.id, list) && Visited(t, now, file, list, n)
  }

  lemma NoChildren(t: Tables, file: FileInfo)
    requires Children(t.files, file.id, [])
    ensures Prune(t, Removed(t.files, file.id)) == t && !HasChildren(t.files, file.id)
  {
    RemovedNone(t.files, file.id);
    PruneNone(t);
  }

  /** The next child is still there, and what it loses does not depend on what is gone. */
  lemma NextChild(t: Tables, now: Tables, file: FileInfo, list: seq<FileInfo>, n: nat, bound: nat)
    requires Prunable(t, bound) && Row(t.files, file) && Children(t.files, file.id, list)
    requires n < |list| && Visited(t, now, file, list, n)
    ensures Prunable(now, bound) && Row(now.files, list[n])
    ensures Depth(file.path) < Depth(list[n].path) <= bound
    ensures Removed(now.files, list[n].id) == Removed(t.files, list[n].id)
  {
    PrunableSmaller(t, Gone(t.files, file, list, n), bound);
    GoneClear(t.files, file, list, n, n);
    RemovedSmaller(t.files, Gone(t.files, file, list, n), list[n].id);
    ChildLevel(t.files, file, list, n);
    assert Row(t.files, list[n]);
    assert Level(t.files, list[n].id) <= bound;
  }

  lemma VisitedNext(t: Tables, now: Tables, file: FileInfo, list: seq<FileInfo>, n: nat)
    requires n < |list| && Visited(t, now, file, list, n)
    ensures Visited(t, Prune(now, Removed(t.files, list[n].id)), file, list, n + 1)
  {
    PruneTwice(t, Gone(t.files, file, list, n), Removed(t.files, list[n].id));
  }

  /** Removing files below `root` keeps the tree exactly when there is nothing to remove:
      otherwise some child of a removed file stays without its parent. */
  lemma PrunedTree(t: Tables, root: string)
    requires Tree(t)
    ensures Tree(Prune(t, Removed(t.files, root))) <==> Removed(t.files, root) == {}
  {
    TreeGraded(t);
    PruneNone(t);
    if Removed(t.files, root) != {} {
      var orphan := OrphanLeft(t.files, root);
      var t' := Prune(t, Removed(t.files, root));
      assert Attached(t.files, t.files[orphan]);
      assert t'.files[orphan] == t.files[orphan];
      assert Level(t.files, orphan) == Level(t.files, t.files[orphan].parentID) + 1;
      assert !Attached(t'.files, t'.files[orphan]);
    }
  }

  lemma DepthBound(files: Files) returns (bound: nat)
    ensures Bounded(files, bound)
  {
    bound := 0;
    if files.Keys != {} {
      var top := Deepest(files, files.Keys);
      bound := Level(files, top);
    }
  }

  /** How a removal request ends: nothing there; a regular file without children removed; a
      directory, which stays although its removal is logged; a regular file with children,
      which goes although nothing is logged. */
  datatype Removal = NotFound | FileRemoved | DirectoryKept | Broken

  ghost function RemovalOf(t: Tables, path: string): Removal
  {
    if path !in t.filesByPath then NotFound
    else if t.filesByPath[path].typ == DIR then DirectoryKept
    else if HasChildren(t.files, t.filesByPath[path].id) then Broken
    else FileRemoved
  }

  ghost function RootId(t: Tables, path: string): string
  {
    if path in t.filesByPath then t.filesByPath[path].id else ""
  }

  /** What a removal request leaves of the tables. */
  ghost function TablesAfter(t: Tables, path: string): Tables
  {
    match RemovalOf(t, path)
    case NotFound => t
    case FileRemoved => Settle(t, FileAndBlocksDeleted(t, t.filesByPath[path]))
    case DirectoryKept => Prune(t, Removed(t.files, RootId(t, path)))
    case Broken => Prune(t, Removed(t.files, RootId(t, path)))
  }

  /** A removal request, told by lookups: how it ends, and that a regular file without children
      is gone with its blocks, and nothing else is. */
  ghost predicate RemovesFile(t: Tables, t': Tables, path: string, r: Removal)
  {
    && (r == NotFound <==> path !in t.filesByPath)
    && (r == DirectoryKept <==> path in t.filesByPath && t.filesByPath[path].typ == DIR)
    && (r == FileRemoved <==>
          && path in t.filesByPath && t.filesByPath[path].typ == FILE
          && forall id :: id in t.files ==> t.files[id].parentID != t.filesByPath[path].id)
    && (r == NotFound ==> t' == t)
    && (r == DirectoryKept || r == Broken ==> Prunes(t, t', t.filesByPath[path].id))
    && (r == FileRemoved ==>
          && (forall p :: Lookup(t'.filesByPath, p) == if p == path then None else Lookup(t.filesByPath, p))
          && (forall id :: Lookup(t'.blocks, id) ==
                if id in t.blocks && t.blocks[id].fileID == t.filesByPath[path].id then None else Lookup(t.blocks, id))
          && t'.policies == t.policies && t'.policiesByName == t.policiesByName)
  }

  lemma DeletedFound(t: Tables, f: FileInfo)
    requires f.id in t.files && t.files[f.id] == f
    ensures FileAndBlocksDeleted(t, f).Some?
    ensures var t' := FileAndBlocksDeleted(t, f).value;
            && (forall p :: Lookup(t'.filesByPath, p) == if p == f.path then None else Lookup(t.filesByPath, p))
            && (forall id :: Lookup(t'.blocks, id) ==
                  if id in t.blocks && t.blocks[id].fileID == f.id then None else Lookup(t.blocks, id))
            && t'.policies == t.policies && t'.policiesByName == t.policiesByName
  {
  }

  lemma RemovalFound(t: Tables, path: string)
    requires Tree(t)
    ensures RemovesFile(t, TablesAfter(t, path), path, RemovalOf(t, path))
  {
    hide FileAndBlocksDeleted, Prune, Removed, Attached, Lookup, PoliciesOk, Keyed, Prunes;
    if RemovalOf(t, path) == FileRemoved {
      DeletedFound(t, t.filesByPath[path]);
    } else {
      PruneTold(t, RootId(t, path));
    }
  }

  /** The file and its listed blocks, as two entries. */
  ghost predicate LoggedRemoval(t: Tables, f: FileInfo, before: seq<LogEntry>, after: seq<LogEntry>)
  {
    exists list :: Listing(list, BlocksOf(t.blocks, f.id)) && after == before + [DeleteFile(f), DeleteBlocks(list)]
  }

  /** The entries of a removal fit. */
  ghost predicate Removable(encode: Encoder, t: Tables, path: string)
  {
    path in t.filesByPath ==>
      && Sized(encode(DeleteFile(t.filesByPath[path])))
      && forall list :: Listing(list, BlocksOf(t.blocks, t.filesByPath[path].id)) ==> Sized(encode(DeleteBlocks(list)))
  }

  lemma RemovalFits(encode: Encoder, t: Tables, path: string, list: seq<BlockInfo>)
    requires Removable(encode, t, path) && path in t.filesByPath
    requires Listing(list, BlocksOf(t.blocks, t.filesByPath[path].id))
    ensures Sized(encode(DeleteFile(t.filesByPath[path]))) && Sized(encode(DeleteBlocks(list)))
  {
  }

  /** What killChildren makes of the file it starts at. */
  lemma RootOutcome(t: Tables, f: FileInfo)
    requires Row(t.files, f)
    ensures f.typ == DIR ==> f.id in Prune(t, Removed(t.files, f.id)).files
    ensures f.typ == FILE && HasChildren(t.files, f.id) ==> f.id !in Prune(t, Removed(t.files, f.id)).files
    ensures !HasChildren(t.files, f.id) ==> Prune(t, Removed(t.files, f.id)) == t
  {
    if !HasChildren(t.files, f.id) {
      RemovedNone(t.files, f.id);
      PruneNone(t);
    } else if f.typ == FILE {
      assert f.id in Removed(t.files, f.id);
    }
  }

  /** After a removal was logged, replay gives the leader's tables exactly when the file is
      gone on the leader too. */
  lemma RemovalLogged(log: seq<LogEntry>, t: Tables, now: Tables, f: FileInfo, list: seq<BlockInfo>)
    requires ApplyAll(EMPTY, log) == t && Row(t.files, f) && Listing(list, BlocksOf(t.blocks, f.id))
    requires f.id in now.files || now == FileAndBlocksDeleted(t, f).value
    ensures ApplyAll(EMPTY, log + [DeleteFile(f), DeleteBlocks(list)]) == now <==> f.id !in now.files
  {
    assert log + [DeleteFile(f), DeleteBlocks(list)] == log + [DeleteFile(f)] + [DeleteBlocks(list)];
    ApplyOne(EMPTY, log, DeleteFile(f));
    ApplyOne(EMPTY, log + [DeleteFile(f)], DeleteBlocks(list));
    RemovalReplays(t, f, list);
  }

  /** What the outcomes of a removal mean for the tree and for replay. */
  lemma RemovalOutcome(log: seq<LogEntry>, t: Tables, path: string, list: seq<BlockInfo>)
    requires Tree(t) && ApplyAll(EMPTY, log) == t && path in t.filesByPath
    requires Listing(list, BlocksOf(t.blocks, t.filesByPath[path].id))
    ensures RemovalOf(t, path) == FileRemoved ==> Tree(TablesAfter(t, path))
    ensures RemovalOf(t, path) != FileRemoved ==>
              (Tree(TablesAfter(t, path)) <==> Removed(t.files, RootId(t, path)) == {})
    ensures RemovalOf(t, path) == Broken ==> TablesAfter(t, path) != t && Removed(t.files, RootId(t, path)) != {}
    ensures var replayed := ApplyAll(EMPTY, log + [DeleteFile(t.filesByPath[path]), DeleteBlocks(list)]);
            && (RemovalOf(t, path) == FileRemoved ==> replayed == TablesAfter(t, path))
            && (RemovalOf(t, path) == DirectoryKept ==> replayed != TablesAfter(t, path))
  {
    var f := t.filesByPath[path];
    RootOutcome(t, f);
    match RemovalOf(t, path) {
      case FileRemoved =>
        DeleteKeepsTree(t, f);
        RemovalLogged(log, t, TablesAfter(t, path), f, list);
      case DirectoryKept =>
        PrunedTree(t, f.id);
        RemovalLogged(log, t, TablesAfter(t, path), f, list);
      case Broken =>
        PrunedTree(t, f.id);
    }
  }

  /** The tree and the replay after a removal and what it logged. */
  lemma RemovalEnds(t: Tables, before: seq<LogEntry>, path: string, r: Removal, list: seq<BlockInfo>,
                    log: seq<LogEntry>)
    requires Tree(t) && ApplyAll(EMPTY, before) == t && r == RemovalOf(t, path)
    requires r != NotFound ==> path in t.filesByPath && Listing(list, BlocksOf(t.blocks, t.filesByPath[path].id))
    requires log == if r == FileRemoved || r == DirectoryKept
                    then before + [DeleteFile(t.filesByPath[path]), DeleteBlocks(list)] else before
    ensures ApplyAll(EMPTY, log) == TablesAfter(t, path) <==> r == NotFound || r == FileRemoved
    ensures Tree(TablesAfter(t, path)) <==>
              r == NotFound || r == FileRemoved || Removed(t.files, RootId(t, path)) == {}
    ensures r == FileRemoved || r == DirectoryKept ==> LoggedRemoval(t, t.filesByPath[path], before, log)
  {
    hide ApplyAll, Tree, Listing, TablesAfter, Removed;
    if r != NotFound {
      RemovalOutcome(before, t, path, list);
    } else {
      NothingRemoved(t, path);
    }
  }

  lemma NothingRemoved(t: Tables, path: string)
    requires path !in t.filesByPath
    ensures TablesAfter(t, path) == t
  {
  }

  /** A directory at the root, removed: the leader keeps it, a follower does not. */
  lemma {:induction false} DirectoryRemovalDiverges(uid: string)
    requires uid != "" && uid != ROOT
    ensures var dir := FileInfo(uid, "a", ROOT, DIR, "a", 0);
            var log := [AssignFile(dir)];
            ApplyAll(EMPTY, log + [DeleteFile(dir), DeleteBlocks([])]) != ApplyAll(EMPTY, log)
  {
    var dir := FileInfo(uid, "a", ROOT, DIR, "a", 0);
    var log := [AssignFile(dir)];
    ApplyOne(EMPTY, [], AssignFile(dir));
    assert [] + log == log;
    var t := ApplyAll(EMPTY, log);
    assert Rows([], BlocksOf(t.blocks, uid));
    RemovalLogged(log, t, t, dir, []);
  }

  // ----- the log -----

  /** A payload an entry can carry. */
  predicate Sized(payload: (int, seq<V.byte>))
  {
    -V.TWO_31 <= payload.0 < V.TWO_31 && |payload.1| + 64 < V.MAX_SLICE
  }

  /** What is written is read back, whatever else the entry carries. */
  ghost predicate Faithful(encode: Encoder, decode: Decoder)
  {
    forall e, index, term, stamp ::
      Sized(encode(e)) ==> decode(C.Entry(index, term, encode(e).0, encode(e).1, stamp, 0, [])) == Some(e)
  }

  class Registry {
    const storage: Storage
    const cluster: ClusterRuns.Group
    const encode: Encoder
    ghost var log: seq<LogEntry>             // the changes the cluster's log stands for

    /** Replaying the log on empty storage gives the leader's tables. */
    ghost predicate Replayed()
      reads this`log, storage
    {
      ApplyAll(EMPTY, log) == storage.tables
    }

    /** The registry is the leader of its group, and its changes are what the entries of the
        leader's log mean. */
    ghost predicate Leading()
      reads this`log, cluster`pipeline, cluster.Objects()
    {
      && cluster.Valid() && 0 <= cluster.leader.currentTerm < V.TWO_32
      && Faithful(encode, cluster.leader.decode)
      && Changes(cluster.leader.decode, cluster.leader.written) == log
    }

    /** The tables are the leader's, and nobody else's. */
    ghost predicate Owned()
    {
      storage == cluster.leader.storage && storage !in cluster.Objects() && this !in cluster.Objects()
    }

    ghost predicate Online()
      reads this`log, cluster`pipeline, cluster.Objects()
    {
      Owned() && Leading()
    }

    /** Indices for n more entries. */
    ghost predicate Room(n: nat)
      reads cluster.leader
    {
      cluster.leader.lastLogIndex + n < V.TWO_64
    }

    ghost function Written(): int
      reads cluster.leader
    {
      cluster.leader.lastLogIndex
    }

    constructor (s: Storage, cluster: ClusterRuns.Group, encode: Encoder)
      requires s == cluster.leader.storage && s !in cluster.Objects() && s.tables == EMPTY
      requires cluster.Valid() && cluster.leader.written == [] && 0 <= cluster.leader.currentTerm < V.TWO_32
      requires Faithful(encode, cluster.leader.decode)
      ensures storage == s && this.cluster == cluster && this.encode == encode
      ensures Online() && Replayed() && Tree(s.tables)
    {
      hide ClusterRuns.Group.Valid, Faithful;
      storage, this.cluster, this.encode := s, cluster, encode;
      log := [];
    }

    /** One change to the log: encoded, written by the leader and handed to its peers. When the
        hand-over times out, and what the clock says, is not the registry's choice. */
    method WriteLog(change: LogEntry)
      requires Online() && Room(1) && Sized(encode(change))
      modifies this`log, cluster`pipeline, cluster.Objects()
      ensures Online() && log == old(log) + [change] && Written() == old(Written()) + 1
    {
      hide ClusterRuns.Group.Valid, ClusterRuns.Group.Objects, Changes, Faithful;
      var payload := encode(change);
      var timestamp: int := *;
      if timestamp < -V.TWO_63 || timestamp >= V.TWO_63 {
        timestamp := 0;
      }
      var accepted: bool := *;
      WriteAllowed(payload, timestamp, accepted);
      ghost var entry := C.Entry(Written() + 1, cluster.leader.currentTerm, payload.0, payload.1, timestamp, 0, []);
      ghost var before := cluster.leader.written;
      cluster.Write(payload.0, payload.1, timestamp, accepted);
      assert cluster.leader.written == before + [entry];
      ReadBack(change, before, entry);
      log := log + [change];
    }

    lemma WriteAllowed(payload: (int, seq<V.byte>), timestamp: int, accepted: bool)
      requires Leading() && Room(1) && Sized(payload) && -V.TWO_63 <= timestamp < V.TWO_63
      ensures R.Enabled(cluster.View(), R.Write(payload.0, payload.1, timestamp, accepted))
      ensures Written() >= 0
    {
    }

    lemma ReadBack(change: LogEntry, before: seq<C.Entry>, entry: C.Entry)
      requires Faithful(encode, cluster.leader.decode) && Sized(encode(change))
      requires exists i, t, stamp :: entry == C.Entry(i, t, encode(change).0, encode(change).1, stamp, 0, [])
      ensures Changes(cluster.leader.decode, before + [entry]) == Changes(cluster.leader.decode, before) + [change]
    {
      ChangesOne(cluster.leader.decode, before, entry);
    }

    /** Parent lookup, store and log, shared by RegisterFile and HandleMakeDir. */
    method RegisterFile(file: FileInfo) returns (err: Verdict)
      requires Tree(storage.tables) && FreshId(storage.tables, file.id) && Replayed() && Online() && Room(1)
      requires Judge(storage.tables, file.path) == Done ==> Sized(encode(AssignFile(Placed(storage.tables, file))))
      modifies this`log, storage, cluster`pipeline, cluster.Objects()
      ensures Tree(storage.tables) && Replayed() && Online() && Written() <= old(Written()) + 1
      ensures err == Judge(old(storage.tables), file.path)
      ensures storage.tables == Added(old(storage.tables), file)
      ensures AddsFile(old(storage.tables), storage.tables, file, err)
      ensures log == if err == Done then old(log) + [AssignFile(Placed(old(storage.tables), file))] else old(log)
    {
      hide Leading, Tree, ApplyAll, Depth, Parent;
      ghost var t := storage.tables;
      AddedFound(t, file);
      var placed;
      err, placed := Locate(file);
      if err != Done {
        return;
      }
      if file.path == "" {
        var ok := StoreAndLog(placed);
        return StoreFailed;
      }
      PlacedKeepsTree(t, file);
      var ok := StoreAndLog(placed);
    }

    /** The lookups before a store: the path must be new and its parent known. */
    method Locate(file: FileInfo) returns (err: Verdict, placed: FileInfo)
      ensures Judge(storage.tables, file.path) != StoreFailed ==> err == Judge(storage.tables, file.path)
      ensures Judge(storage.tables, file.path) == StoreFailed <==> err == Done && file.path == ""
      ensures placed.path == file.path
      ensures Judge(storage.tables, file.path) == Done ==> placed == Placed(storage.tables, file)
    {
      placed := file.(parentID := ROOT);
      var test := storage.GetFileByPath(file.path);
      if test.Some? {
        return FileExists, placed;
      }
      var sPath := Split(file.path);
      if |sPath| > 1 {
        var parent := storage.GetFileByPath(Join(sPath[..|sPath| - 1]));
        if parent.None? {
          return NoSuchFileOrDirectory, placed;
        }
        placed := file.(parentID := parent.value.id);
      }
      err := Done;
    }

    method StoreAndLog(file: FileInfo) returns (ok: bool)
      requires Replayed() && Online() && Room(1)
      requires FileStored(storage.tables, file).Some? ==> Sized(encode(AssignFile(file)))
      modifies this`log, storage, cluster`pipeline, cluster.Objects()
      ensures Replayed() && Online() && Written() <= old(Written()) + 1
      ensures ok == FileStored(old(storage.tables), file).Some?
      ensures storage.tables == Settle(old(storage.tables), FileStored(old(storage.tables), file))
      ensures log == if ok then old(log) + [AssignFile(file)] else old(log)
    {
      hide Leading, ApplyAll, FileStored;
      ok := storage.StoreFile(file);
      if ok {
        ApplyOne(EMPTY, log, AssignFile(file));
        WriteLog(AssignFile(file));
      }
    }

    method HandleMakeDir(path: string, uid: string) returns (err: Verdict)
      requires Tree(storage.tables) && FreshId(storage.tables, uid) && Replayed() && Online() && Room(1)
      requires Judge(storage.tables, Trim(path)) == Done ==>
                 Sized(encode(AssignFile(Placed(storage.tables, NewDir(path, uid)))))
      modifies this`log, storage, cluster`pipeline, cluster.Objects()
      ensures Tree(storage.tables) && Replayed() && Online() && Written() <= old(Written()) + 1
      ensures err == Judge(old(storage.tables), Trim(path))
      ensures storage.tables == Added(old(storage.tables), NewDir(path, uid))
      ensures AddsFile(old(storage.tables), storage.tables,
                       FileInfo(uid, Name(Trim(path)), "root", DIR, Trim(path), 0), err)
    {
      hide Leading, Tree, ApplyAll, AddsFile;
      var trimmed := Trim(path);
      err := RegisterFile(FileInfo(uid, Name(trimmed), ROOT, DIR, trimmed, 0));
    }

    /** The registration part of TransportAndRegisterBlocks: logged whether or not the store
        took the blocks. */
    method RegisterBlocks(blocks: seq<BlockInfo>)
      requires Tree(storage.tables) && Replayed() && Online() && Room(1) && Sized(encode(AssignBlocks(blocks)))
      modifies this`log, storage, cluster`pipeline, cluster.Objects()
      ensures Tree(storage.tables) && Replayed() && Online() && Written() <= old(Written()) + 1
      ensures storage.tables == Apply(old(storage.tables), AssignBlocks(blocks))
      ensures log == old(log) + [AssignBlocks(blocks)]
      ensures forall id :: Lookup(storage.tables.blocks, id) ==
                if Insertable(blocks) && LastWith(blocks, id).Some? then LastWith(blocks, id)
                else Lookup(old(storage.tables).blocks, id)
      ensures storage.tables == old(storage.tables).(blocks := storage.tables.blocks)
    {
      hide Leading, Tree, ApplyAll, BlocksPut, LastWith;
      BlocksKeepTree(storage.tables, blocks);
      ApplyOne(EMPTY, log, AssignBlocks(blocks));
      var ok := storage.PutBlocks(blocks);
      WriteLog(AssignBlocks(blocks));
    }

    method HandleCreatePolicy(name: string, rules: seq<Rule>, uid: string) returns (ok: bool)
      requires Tree(storage.tables) && Replayed() && Online() && Room(1)
      requires Sized(encode(CreatePolicy(NewPolicyRow(name, rules, uid))))
      modifies this`log, storage, cluster`pipeline, cluster.Objects()
      ensures Tree(storage.tables) && Replayed() && Online() && Written() <= old(Written()) + 1
      ensures ok <==> uid != "" && name != ""
      ensures storage.tables == Apply(old(storage.tables), CreatePolicy(NewPolicyRow(name, rules, uid)))
      ensures ok ==> Lookup(storage.tables.policiesByName, name).Some?
      ensures ok ==> Shows(storage.tables.policiesByName[name], uid, name, rules)
      ensures uid !in old(storage.tables).policies ==>
                forall n :: n != name ==>
                  Lookup(storage.tables.policiesByName, n) == Lookup(old(storage.tables).policiesByName, n)
    {
      hide Leading, Tree, ApplyAll;
      var paths := [];
      for i := 0 to |rules|
        invariant |paths| == i
        invariant forall k :: 0 <= k < i ==> paths[k] == PathRules(rules[k].path, name, 0, rules[k].capabilities)
      {
        paths := paths + [PathRules(rules[i].path, name, 0, rules[i].capabilities)];
      }
      var policy := Policy(uid, name, paths);
      assert policy == NewPolicyRow(name, rules, uid);
      NewPolicyKeepsTree(storage.tables, policy);
      ApplyOne(EMPTY, log, CreatePolicy(policy));
      ok := storage.StorePolicy(policy);
      if ok {
        WriteLog(CreatePolicy(policy));
      }
    }

    /** The answer to a request for a policy: the rules it was created with. */
    method HandleGetPolicy(name: string) returns (rules: Option<seq<Rule>>)
      requires Tree(storage.tables)
      ensures rules.Some? <==> name in storage.tables.policiesByName
      ensures forall id, given ::
                name in storage.tables.policiesByName && Shows(storage.tables.policiesByName[name], id, name, given) ==>
                  rules == Some(given)
    {
      hide Tree;
      var policy := storage.GetPolicy(name);
      if policy.None? {
        return None;
      }
      var paths := [];
      for i := 0 to |policy.value.paths|
        invariant |paths| == i
        invariant forall k :: 0 <= k < i ==>
                    paths[k] == Rule(policy.value.paths[k].path, policy.value.paths[k].capabilities)
      {
        paths := paths + [Rule(policy.value.paths[i].path, policy.value.paths[i].capabilities)];
      }
      rules := Some(paths);
      forall id, given | Shows(policy.value, id, name, given) ensures paths == given {
        assert forall k :: 0 <= k < |given| ==> paths[k] == given[k];
      }
    }

    method HandleDeletePolicy(name: string) returns (ok: bool)
      requires Tree(storage.tables) && Replayed() && Online() && Room(1) && Sized(encode(DeletePolicy(name)))
      modifies this`log, storage, cluster`pipeline, cluster.Objects()
      ensures Tree(storage.tables) && Replayed() && Online() && Written() <= old(Written()) + 1
      ensures ok && name !in storage.tables.policiesByName
      ensures forall n :: n != name ==>
                Lookup(storage.tables.policiesByName, n) == Lookup(old(storage.tables).policiesByName, n)
      ensures storage.tables == old(storage.tables).(policies := storage.tables.policies,
                                                     policiesByName := storage.tables.policiesByName)
      ensures storage.tables == Apply(old(storage.tables), DeletePolicy(name))
    {
      hide Leading, Tree, ApplyAll;
      PolicyGoneKeepsTree(storage.tables, name);
      var policy := storage.GetPolicy(name);
      if policy.None? {
        return true;
      }
      ApplyOne(EMPTY, log, DeletePolicy(policy.value.name));
      ok := storage.DeletePolicy(policy.value);
      if ok {
        WriteLog(DeletePolicy(policy.value.name));
      }
    }

    /** RemoveFileBlocks, from the registry's side. */
    method RemoveFileBlocks(file: FileInfo) returns (ok: bool)
      requires WellFormed(storage.tables)
      modifies storage
      ensures ok == FileAndBlocksDeleted(old(storage.tables), file).Some?
      ensures storage.tables == Settle(old(storage.tables), FileAndBlocksDeleted(old(storage.tables), file))
      ensures WellFormed(storage.tables)
    {
      if file.id in storage.tables.files {
        DeleteKeepsRows(storage.tables, file);
      }
      ok := storage.DeleteFileWithBlocks(file);
    }

    /** killChildren: ends because every call goes one level down. Exactly the regular files at
        or below `file` that have children go, with their blocks; leaves and directories
        stay. */
    method KillChildren(file: FileInfo, ghost bound: nat) returns (ok: bool)
      requires Prunable(storage.tables, bound) && Row(storage.tables.files, file)
      modifies storage
      ensures ok && storage.tables == Prune(old(storage.tables), Removed(old(storage.tables).files, file.id))
      ensures Prunes(old(storage.tables), storage.tables, file.id)
      decreases bound - Depth(file.path), 2
    {
      hide Prunes;
      ghost var t := storage.tables;
      PruneTold(t, file.id);
      var childFiles := storage.GetFilesByParentId(file.id);
      if |childFiles| == 0 {
        NoChildren(t, file);
        return true;
      }
      VisitedNone(t, file, childFiles);
      if file.typ == FILE {
        ok := RemoveFileBlocks(file);
        if !ok {
          return;
        }
      }
      ok := KillEach(file, childFiles, t, bound);
      assert Prunable(t, bound);
      GoneAll(t.files, file, childFiles);
    }

    /** The loop over the children, listed when the tables were t. */
    method KillEach(file: FileInfo, childFiles: seq<FileInfo>, ghost t: Tables, ghost bound: nat) returns (ok: bool)
      requires Pending(t, storage.tables, file, childFiles, 0, bound)
      modifies storage
      ensures ok && Pending(t, storage.tables, file, childFiles, |childFiles|, bound)
      decreases bound - Depth(file.path), 1
    {
      hide Pending, Depth;
      ok := true;
      var i := 0;
      while i < |childFiles|
        invariant 0 <= i <= |childFiles| && ok && Pending(t, storage.tables, file, childFiles, i, bound)
      {
        ok := KillNext(file, childFiles, i, t, bound);
        if !ok {
          return;
        }
        i := i + 1;
      }
    }

    method KillNext(file: FileInfo, childFiles: seq<FileInfo>, i: nat, ghost t: Tables, ghost bound: nat)
      returns (ok: bool)
      requires i < |childFiles| && Pending(t, storage.tables, file, childFiles, i, bound)
      modifies storage
      ensures ok && Pending(t, storage.tables, file, childFiles, i + 1, bound)
      decreases bound - Depth(file.path), 0
    {
      hide Prunable, Visited, Children;
      assert Prunable(t, bound);
      NextChild(t, storage.tables, file, childFiles, i, bound);
      VisitedNext(t, storage.tables, file, childFiles, i);
      ok := KillChildren(childFiles[i], bound);
    }

    method LogRemoval(file: FileInfo, blocks: seq<BlockInfo>)
      requires Online() && Room(2) && Sized(encode(DeleteFile(file))) && Sized(encode(DeleteBlocks(blocks)))
      modifies this`log, cluster`pipeline, cluster.Objects()
      ensures Online() && Written() == old(Written()) + 2
      ensures log == old(log) + [DeleteFile(file), DeleteBlocks(blocks)]
    {
      hide Leading;
      WriteLog(DeleteFile(file));
      WriteLog(DeleteBlocks(blocks));
    }

    /** HandleRemoveFileOrPath. The log and the tables stay in step exactly when there is
        nothing at the path, or a regular file without children. A directory loses the regular
        files with children below it; the namespace stays a tree exactly when there are none.
        A regular file with children goes together with those below it, unlogged. */
    method HandleRemoveFileOrPath(path: string) returns (r: Removal)
      requires Tree(storage.tables) && Replayed() && Online() && Room(2)
      requires Removable(encode, storage.tables, Trim(path))
      modifies this`log, storage, cluster`pipeline, cluster.Objects()
      ensures Online() && Written() <= old(Written()) + 2
      ensures r == RemovalOf(old(storage.tables), Trim(path))
      ensures storage.tables == TablesAfter(old(storage.tables), Trim(path))
      ensures RemovesFile(old(storage.tables), storage.tables, Trim(path), r)
      ensures Replayed() <==> r == NotFound || r == FileRemoved
      ensures Tree(storage.tables) <==>
                || r == NotFound || r == FileRemoved
                || Removed(old(storage.tables).files, RootId(old(storage.tables), Trim(path))) == {}
      ensures r == NotFound || r == Broken ==> log == old(log)
      ensures r == FileRemoved || r == DirectoryKept ==>
                LoggedRemoval(old(storage.tables), old(storage.tables).filesByPath[Trim(path)], old(log), log)
    {
      hide Leading, Tree, ApplyAll, Apply, TablesAfter, RemovalOf, Removed, Removable, Listing, RemovesFile;
      ghost var t, before := storage.tables, log;
      RemovalFound(t, Trim(path));
      var file, blocks;
      r, file, blocks := RemoveStored(path);
      if r == FileRemoved || r == DirectoryKept {
        RemovalFits(encode, t, Trim(path), blocks);
        LogRemoval(file, blocks);
      }
      RemovalEnds(t, before, Trim(path), r, blocks, log);
    }

    /** A removal up to its log entries. */
    method RemoveStored(path: string) returns (r: Removal, file: FileInfo, blocks: seq<BlockInfo>)
      requires Tree(storage.tables)
      modifies storage
      ensures r == RemovalOf(old(storage.tables), Trim(path))
      ensures storage.tables == TablesAfter(old(storage.tables), Trim(path))
      ensures r != NotFound ==>
                && Trim(path) in old(storage.tables).filesByPath && file == old(storage.tables).filesByPath[Trim(path)]
                && Listing(blocks, BlocksOf(old(storage.tables).blocks, file.id))
    {
      hide Removed, Prune, Trim;
      ghost var t := storage.tables;
      file, blocks := FileInfo("", "", "", FILE, "", 0), [];
      var found := storage.GetFileByPath(Trim(path));
      if found.None? {
        return NotFound, file, blocks;
      }
      file := found.value;
      blocks := storage.GetBlocks(file.id);
      TreeGraded(t);
      var ok := RemoveRoot(file, t);
      if !ok {
        return Broken, file, blocks;
      }
      r := if file.typ == FILE then FileRemoved else DirectoryKept;
    }

    /** The storage part of a removal: the children, then the file itself if it is a regular
        one, which fails when it went with the children. */
    method RemoveRoot(rootFile: FileInfo, ghost t: Tables) returns (ok: bool)
      requires t == storage.tables && WellFormed(t) && Graded(t.files) && Row(t.files, rootFile)
      modifies storage
      ensures ok <==> rootFile.typ == DIR || !HasChildren(t.files, rootFile.id)
      ensures storage.tables == if rootFile.typ == FILE && ok then FileAndBlocksDeleted(t, rootFile).value
                                else Prune(t, Removed(t.files, rootFile.id))
    {
      ghost var bound := DepthBound(t.files);
      RootOutcome(t, rootFile);
      PruneWellFormed(t, Removed(t.files, rootFile.id));
      ok := KillChildren(rootFile, bound);
      if ok && rootFile.typ == FILE {
        ok := RemoveFileBlocks(rootFile);
      }
    }
  }

  // ----- whole runs -----

  datatype Op =
    | Put(file: FileInfo, blocks: seq<BlockInfo>)
    | MakeDir(path: string, uid: string)
    | Remove(path: string)
    | NewPolicy(name: string, rules: seq<Rule>, uid: string)
    | DropPolicy(name: string)

  /** Fresh identifiers; removals of nothing or of regular files without children. */
  ghost predicate Enabled(t: Tables, op: Op)
  {
    match op
    case Put(f, _) => FreshId(t, f.id)
    case MakeDir(_, uid) => FreshId(t, uid)
    case Remove(path) => RemovalOf(t, Trim(path)) == NotFound || RemovalOf(t, Trim(path)) == FileRemoved
    case NewPolicy(_, _, _) => true
    case DropPolicy(_) => true
  }

  /** The entries an operation writes are small enough. */
  ghost predicate Small(encode: Encoder, t: Tables, op: Op)
  {
    match op
    case Put(f, blocks) =>
      var t' := Apply(t, AssignBlocks(blocks));
      && Sized(encode(AssignBlocks(blocks)))
      && (Judge(t', f.path) == Done ==> Sized(encode(AssignFile(Placed(t', f)))))
    case MakeDir(path, uid) =>
      Judge(t, Trim(path)) == Done ==> Sized(encode(AssignFile(Placed(t, NewDir(path, uid)))))
    case Remove(path) => Removable(encode, t, Trim(path))
    case NewPolicy(name, rules, uid) => Sized(encode(CreatePolicy(NewPolicyRow(name, rules, uid))))
    case DropPolicy(name) => Sized(encode(DeletePolicy(name)))
  }

  function Next(t: Tables, op: Op): Tables
  {
    match op
    case Put(f, blocks) => Added(Apply(t, AssignBlocks(blocks)), f)
    case MakeDir(path, uid) => Added(t, NewDir(path, uid))
    case Remove(path) =>
      if Trim(path) in t.filesByPath then Settle(t, FileAndBlocksDeleted(t, t.filesByPath[Trim(path)])) else t
    case NewPolicy(name, rules, uid) => Apply(t, CreatePolicy(NewPolicyRow(name, rules, uid)))
    case DropPolicy(name) => Apply(t, DeletePolicy(name))
  }

  /** The leader is in step with its log, and its tables are t. */
  ghost predicate Now(r: Registry, t: Tables)
    reads r`log, r.storage, r.cluster`pipeline, r.cluster.Objects()
  {
    Tree(t) && r.storage.tables == t && r.Replayed() && r.Online()
  }

  method DoOp(r: Registry, op: Op, ghost t: Tables)
    requires Now(r, t) && Enabled(t, op) && Small(r.encode, t, op) && r.Room(2)
    modifies r`log, r.storage, r.cluster`pipeline, r.cluster.Objects()
    ensures Now(r, Next(t, op)) && r.Written() <= old(r.Written()) + 2
  {
    hide Tree, Registry.Leading;
    match op {
      case Put(f, blocks) =>
        r.RegisterBlocks(blocks);
        var err := r.RegisterFile(f);
      case MakeDir(path, uid) =>
        var err := r.HandleMakeDir(path, uid);
      case Remove(path) =>
        var removal := r.HandleRemoveFileOrPath(path);
      case NewPolicy(name, rules, uid) =>
        var ok := r.HandleCreatePolicy(name, rules, uid);
      case DropPolicy(name) =>
        var ok := r.HandleDeletePolicy(name);
    }
  }
}
