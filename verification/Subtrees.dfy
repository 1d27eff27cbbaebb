/** Subtrees of the files table along parent ids, and removing files from the tables together
    with their blocks. */
module Subtrees {
  import opened Paths
  import opened Storage

  ghost function Level(files: Files, id: string): nat
  {
    if id in files then Depth(files[id].path) else 0
  }

  /** Children lie one level below their parent. */
  ghost predicate Graded(files: Files)
  {
    forall id :: id in files && files[id].parentID in files ==> Level(files, id) == Level(files, files[id].parentID) + 1
  }

  ghost predicate Bounded(files: Files, bound: nat)
  {
    forall id :: id in files ==> Level(files, id) <= bound
  }

  // ----- at or below a file -----

  /** `id` is `root` or lies below it, following parent ids. */
  ghost predicate Under(files: Files, id: string, root: string)
    decreases Level(files, id)
  {
    id == root ||
    (id in files && files[id].parentID in files
     && Level(files, files[id].parentID) < Level(files, id) && Under(files, files[id].parentID, root))
  }

  lemma {:induction false} UnderLevel(files: Files, id: string, root: string)
    requires Under(files, id, root) && root in files
    ensures id in files && (id == root || Level(files, id) > Level(files, root))
    decreases Level(files, id)
  {
    if id != root {
      UnderLevel(files, files[id].parentID, root);
    }
  }

  predicate ChildOf(files: Files, id: string, parent: string)
  {
    id in files && parent in files && files[id].parentID == parent
  }

  /** A way up from id to root: each file the parent of the one before. */
  ghost predicate Chain(files: Files, ids: seq<string>, id: string, root: string)
  {
    && ids != [] && ids[0] == id && ids[|ids| - 1] == root
    && forall i :: 0 < i < |ids| ==> ChildOf(files, ids[i - 1], ids[i])
  }

  lemma {:induction false} ChainUnder(files: Files, ids: seq<string>, id: string, root: string)
    requires Graded(files) && Chain(files, ids, id, root)
    ensures Under(files, id, root)
    decreases |ids|
  {
    if |ids| > 1 {
      var rest := ids[1..];
      assert ChildOf(files, ids[0], ids[1]);
      forall i | 0 < i < |rest| ensures ChildOf(files, rest[i - 1], rest[i]) {
        assert rest[i - 1] == ids[i] && rest[i] == ids[i + 1];
      }
      ChainUnder(files, ids[1..], ids[1], root);
      UnderStep(files, id, root);
    }
  }

  lemma {:induction false} UnderChain(files: Files, id: string, root: string) returns (ids: seq<string>)
    requires Under(files, id, root)
    ensures Chain(files, ids, id, root)
    decreases Level(files, id)
  {
    ids := [id];
    if id != root {
      var rest := UnderChain(files, files[id].parentID, root);
      ids := [id] + rest;
      forall i | 0 < i < |ids| ensures ChildOf(files, ids[i - 1], ids[i]) {
        if i > 1 {
          assert ids[i - 1] == rest[i - 2] && ids[i] == rest[i - 1];
        }
      }
    }
  }

  /** To lie at or below a file is to have a way up to it. */
  lemma UnderIff(files: Files, id: string, root: string)
    requires Graded(files)
    ensures Under(files, id, root) <==> exists ids :: Chain(files, ids, id, root)
  {
    if Under(files, id, root) {
      var ids := UnderChain(files, id, root);
    }
    if ids :| Chain(files, ids, id, root) {
      ChainUnder(files, ids, id, root);
    }
  }

  /** Children of what is below lie below. */
  lemma UnderStep(files: Files, id: string, root: string)
    requires Graded(files) && id in files && files[id].parentID in files && Under(files, files[id].parentID, root)
    ensures Under(files, id, root)
  {
  }

  /** Whatever lies below a child lies below its parent. */
  lemma {:induction false} UnderChild(files: Files, id: string, child: string)
    requires Graded(files) && child in files && files[child].parentID in files && Under(files, id, child)
    ensures Under(files, id, files[child].parentID)
    decreases Level(files, id)
  {
    if id != child {
      UnderChild(files, files[id].parentID, child);
    }
  }

  /** What lies properly below a file lies at or below one of its children. */
  lemma {:induction false} UnderSplit(files: Files, id: string, root: string) returns (child: string)
    requires Under(files, id, root) && id != root
    ensures child in files && files[child].parentID == root && Under(files, id, child)
    decreases Level(files, id)
  {
    if files[id].parentID == root {
      child := id;
    } else {
      child := UnderSplit(files, files[id].parentID, root);
    }
  }

  /** Two files of the same level have disjoint subtrees. */
  lemma {:induction false} UnderApart(files: Files, id: string, a: string, b: string)
    requires a in files && b in files && Level(files, a) == Level(files, b)
    requires Under(files, id, a) && Under(files, id, b)
    ensures a == b
    decreases Level(files, id)
  {
    UnderLevel(files, id, a);
    UnderLevel(files, id, b);
    if id != a && id != b {
      UnderApart(files, files[id].parentID, a, b);
    }
  }

  // ----- fewer files -----

  lemma LevelKept(files: Files, gone: set<string>, id: string)
    requires id !in gone
    ensures Level(files - gone, id) == Level(files, id)
  {
  }

  lemma GradedSmaller(files: Files, gone: set<string>)
    requires Graded(files)
    ensures Graded(files - gone)
  {
    forall id | id in files - gone && (files - gone)[id].parentID in files - gone
      ensures Level(files - gone, id) == Level(files - gone, (files - gone)[id].parentID) + 1
    {
      LevelKept(files, gone, id);
      LevelKept(files, gone, files[id].parentID);
    }
  }

  lemma BoundedSmaller(files: Files, gone: set<string>, bound: nat)
    requires Bounded(files, bound)
    ensures Bounded(files - gone, bound)
  {
    forall id | id in files - gone ensures Level(files - gone, id) <= bound {
      LevelKept(files, gone, id);
    }
  }

  ghost predicate Clear(files: Files, gone: set<string>, root: string)
  {
    forall x :: x in gone ==> !Under(files, x, root)
  }

  /** Files gone from elsewhere do not change what lies below a file. */
  lemma {:induction false} UnderSmaller(files: Files, gone: set<string>, id: string, root: string)
    requires Clear(files, gone, root) && id in files && id !in gone
    ensures Under(files - gone, id, root) <==> Under(files, id, root)
    decreases Level(files, id)
  {
    if id != root && files[id].parentID in files && Level(files, files[id].parentID) < Level(files, id) {
      var p := files[id].parentID;
      LevelKept(files, gone, id);
      if p !in gone {
        LevelKept(files, gone, p);
        UnderSmaller(files, gone, p, root);
      }
    }
    LevelKept(files, gone, id);
    if files[id].parentID !in gone {
      LevelKept(files, gone, files[id].parentID);
    }
  }

  // ----- what killChildren removes -----

  /** Regular files that have children, at or below root. */
  ghost predicate Doomed(files: Files, id: string, root: string)
  {
    id in files && files[id].typ == FILE && HasChildren(files, id) && Under(files, id, root)
  }

  ghost function Removed(files: Files, root: string): set<string>
  {
    set id | id in files && Doomed(files, id, root)
  }

  lemma ChildrenSmaller(files: Files, gone: set<string>, id: string, root: string)
    requires Graded(files) && Clear(files, gone, root) && id in files && Under(files, id, root)
    ensures HasChildren(files - gone, id) <==> HasChildren(files, id)
  {
    if HasChildren(files, id) {
      var k :| k in files && files[k].parentID == id;
      UnderStep(files, k, root);
      assert k in files - gone && (files - gone)[k].parentID == id;
    }
    if HasChildren(files - gone, id) {
      var k :| k in files - gone && (files - gone)[k].parentID == id;
      assert files[k].parentID == id;
    }
  }

  lemma RemovedSmaller(files: Files, gone: set<string>, root: string)
    requires Graded(files) && Clear(files, gone, root)
    ensures Removed(files - gone, root) == Removed(files, root)
  {
    forall id | id in files ensures Doomed(files - gone, id, root) <==> Doomed(files, id, root) {
      if id in gone {
        assert !Under(files, id, root);
      } else {
        UnderSmaller(files, gone, id, root);
        if Under(files, id, root) {
          ChildrenSmaller(files, gone, id, root);
        }
      }
    }
  }

  /** Without children there is nothing to remove. */
  lemma RemovedNone(files: Files, root: string)
    requires !HasChildren(files, root)
    ensures Removed(files, root) == {}
  {
    forall id | id in files ensures !Doomed(files, id, root) {
      if Doomed(files, id, root) && id != root {
        var child := UnderSplit(files, id, root);
      }
    }
  }

  // ----- removing files -----

  /** The tables without these files, their path entries and their blocks. */
  function Prune(t: Tables, ids: set<string>): Tables
  {
    t.(files := t.files - ids,
       filesByPath := map p | p in t.filesByPath && t.filesByPath[p].id !in ids :: t.filesByPath[p],
       blocks := map b | b in t.blocks && t.blocks[b].fileID !in ids :: t.blocks[b])
  }

  /** The difference killChildren makes, told by lookups: regular files with children at or
      below `root` are gone with their paths and blocks, everything else is found as before. */
  ghost predicate Prunes(t: Tables, t': Tables, root: string)
  {
    && (forall id :: Lookup(t'.files, id) ==
          if id in t.files && t.files[id].typ == FILE && HasChildren(t.files, id) && Under(t.files, id, root) then None
          else Lookup(t.files, id))
    && (forall p :: Lookup(t'.filesByPath, p) ==
          if p in t.filesByPath && t.filesByPath[p].id !in t'.files then None else Lookup(t.filesByPath, p))
    && (forall b :: Lookup(t'.blocks, b) ==
          if b in t.blocks && t.blocks[b].fileID in t.files && t.blocks[b].fileID !in t'.files then None
          else Lookup(t.blocks, b))
    && t'.policies == t.policies && t'.policiesByName == t.policiesByName
  }

  lemma PruneTold(t: Tables, root: string)
    requires WellFormed(t)
    ensures Prunes(t, Prune(t, Removed(t.files, root)), root)
  {
    hide Under, HasChildren, PoliciesOk, Keyed;
    var gone := Removed(t.files, root);
    assert forall id :: id in gone <==> id in t.files && Doomed(t.files, id, root);
  }

  lemma PruneNone(t: Tables)
    ensures Prune(t, {}) == t
  {
    assert t.files - {} == t.files;
  }

  lemma PruneOne(t: Tables, f: FileInfo)
    requires WellFormed(t) && Row(t.files, f)
    ensures FileAndBlocksDeleted(t, f) == Some(Prune(t, {f.id}))
  {
    var a, b := FileAndBlocksDeleted(t, f).value, Prune(t, {f.id});
    assert a.filesByPath == b.filesByPath;
    assert a.blocks == b.blocks;
  }

  lemma PruneTwice(t: Tables, a: set<string>, b: set<string>)
    ensures Prune(Prune(t, a), b) == Prune(t, a + b)
  {
    var l, r := Prune(Prune(t, a), b), Prune(t, a + b);
    assert l.files == r.files;
    assert l.filesByPath == r.filesByPath;
    assert l.blocks == r.blocks;
  }

  lemma PruneWellFormed(t: Tables, ids: set<string>)
    requires WellFormed(t)
    ensures WellFormed(Prune(t, ids))
  {
    var t' := Prune(t, ids);
    assert forall id :: id in t'.files ==> id in t.files && t'.files[id] == t.files[id];
    assert forall p :: p in t'.filesByPath ==> p in t.filesByPath && t'.filesByPath[p] == t.filesByPath[p];
  }

  // ----- visiting the children one by one -----

  /** What is gone after the first n children: the file itself if it is a regular one, and
      what the subtrees of those children lose. */
  ghost function Gone(files: Files, file: FileInfo, list: seq<FileInfo>, n: nat): set<string>
    requires n <= |list|
  {
    if n == 0 then (if file.typ == FILE then {file.id} else {})
    else Gone(files, file, list, n - 1) + Removed(files, list[n - 1].id)
  }

  lemma ChildLevel(files: Files, file: FileInfo, list: seq<FileInfo>, i: nat)
    requires Graded(files) && Row(files, file) && Children(files, file.id, list) && i < |list|
    ensures Level(files, list[i].id) == Level(files, file.id) + 1
  {
    assert Row(files, list[i]);
  }

  /** Nothing that is gone lies below a child still to come. */
  lemma {:induction false} GoneClear(files: Files, file: FileInfo, list: seq<FileInfo>, n: nat, i: nat)
    requires Graded(files) && Row(files, file) && Children(files, file.id, list) && n <= i < |list|
    ensures Clear(files, Gone(files, file, list, n), list[i].id)
  {
    hide Depth;
    ChildLevel(files, file, list, i);
    assert Row(files, list[i]);
    if n == 0 {
      if Under(files, file.id, list[i].id) {
        UnderLevel(files, file.id, list[i].id);
      }
    } else {
      GoneClear(files, file, list, n - 1, i);
      ChildLevel(files, file, list, n - 1);
      assert Row(files, list[n - 1]);
      forall x | x in Removed(files, list[n - 1].id) ensures !Under(files, x, list[i].id) {
        if Under(files, x, list[i].id) {
          UnderApart(files, x, list[n - 1].id, list[i].id);
        }
      }
    }
  }

  lemma {:induction false} GoneIff(files: Files, file: FileInfo, list: seq<FileInfo>, n: nat, id: string)
    requires n <= |list| && Row(files, file)
    ensures id in Gone(files, file, list, n) <==>
              (id == file.id && file.typ == FILE) || (exists i :: 0 <= i < n && Doomed(files, id, list[i].id))
  {
    if n > 0 {
      GoneIff(files, file, list, n - 1, id);
      if Doomed(files, id, list[n - 1].id) {
        assert id in Removed(files, list[n - 1].id);
      }
    }
  }

  /** What is doomed below a file is doomed below one of its children. */
  lemma DoomedBelow(files: Files, file: FileInfo, list: seq<FileInfo>, id: string) returns (i: nat)
    requires Children(files, file.id, list) && (forall k :: k in files ==> files[k].id == k)
    requires Doomed(files, id, file.id) && id != file.id
    ensures i < |list| && Doomed(files, id, list[i].id)
  {
    var child := UnderSplit(files, id, file.id);
    assert files[child] in list;
    i :| 0 <= i < |list| && list[i] == files[child];
  }

  lemma DoomedAbove(files: Files, file: FileInfo, list: seq<FileInfo>, id: string, i: nat)
    requires Graded(files) && Row(files, file) && Children(files, file.id, list)
    requires i < |list| && Doomed(files, id, list[i].id)
    ensures Doomed(files, id, file.id)
  {
    assert Row(files, list[i]);
    UnderChild(files, id, list[i].id);
  }

  lemma GoneAllIff(files: Files, file: FileInfo, list: seq<FileInfo>, id: string)
    requires Graded(files) && Row(files, file) && Children(files, file.id, list) && list != []
    requires forall k :: k in files ==> files[k].id == k
    ensures id in Gone(files, file, list, |list|) <==> Doomed(files, id, file.id)
  {
    GoneIff(files, file, list, |list|, id);
    if id == file.id {
      assert Row(files, list[0]) && HasChildren(files, file.id);
    } else if Doomed(files, id, file.id) {
      var i := DoomedBelow(files, file, list, id);
    }
    if exists i :: 0 <= i < |list| && Doomed(files, id, list[i].id) {
      var i :| 0 <= i < |list| && Doomed(files, id, list[i].id);
      DoomedAbove(files, file, list, id, i);
    }
  }

  /** After all children exactly the doomed files of the subtree are gone. */
  lemma GoneAll(files: Files, file: FileInfo, list: seq<FileInfo>)
    requires Graded(files) && Row(files, file) && Children(files, file.id, list) && list != []
    requires forall k :: k in files ==> files[k].id == k
    ensures Gone(files, file, list, |list|) == Removed(files, file.id)
  {
    forall id ensures id in Gone(files, file, list, |list|) <==> id in Removed(files, file.id) {
      GoneAllIff(files, file, list, id);
    }
  }

  // ----- orphans -----

  lemma Deepest(files: Files, ids: set<string>) returns (top: string)
    requires ids != {}
    ensures top in ids && forall id :: id in ids ==> Level(files, id) <= Level(files, top)
    decreases ids
  {
    var id :| id in ids;
    var rest := ids - {id};
    if rest == {} {
      top := id;
      assert ids == {id};
    } else {
      var deep := Deepest(files, rest);
      top := if Level(files, id) > Level(files, deep) then id else deep;
    }
  }

  /** If anything is removed, some child of a removed file stays. */
  lemma OrphanLeft(files: Files, root: string) returns (orphan: string)
    requires Graded(files) && Removed(files, root) != {}
    ensures orphan in files && orphan !in Removed(files, root) && files[orphan].parentID in Removed(files, root)
  {
    var top := Deepest(files, Removed(files, root));
    orphan :| orphan in files && files[orphan].parentID == top;
    UnderStep(files, orphan, root);
  }
}
