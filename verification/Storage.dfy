/** The registry's tables: files, blocks and policies, held in memory under a primary index
    and secondary indexes. A unique secondary index does not refuse a second row with the
    same value; the later row takes the index entry. */
module Storage {
  import opened Sorting

  datatype Option<+T> = None | Some(value: T)

  datatype FileType = FILE | DIR
  datatype FileInfo = FileInfo(id: string, name: string, parentID: string, typ: FileType, path: string, size: nat)

  datatype Placement = Placement(nodeID: string, partitionID: string)
  datatype BlockInfo = BlockInfo(id: string, index: nat, fileID: string, placements: seq<Placement>)

  datatype PathRules = PathRules(path: string, policy: string, capabilitiesBitmap: nat, capabilities: seq<string>)
  datatype Policy = Policy(id: string, name: string, paths: seq<PathRules>)

  type Files = map<string, FileInfo>
  type Blocks = map<string, BlockInfo>
  type Policies = map<string, Policy>

  datatype Tables = Tables(
    files: Files, filesByPath: Files, blocks: Blocks, policies: Policies, policiesByName: Policies)

  const EMPTY := Tables(map[], map[], map[], map[], map[])

  // ----- lookups -----

  function Lookup<T>(rows: map<string, T>, key: string): Option<T>
  {
    if key in rows then Some(rows[key]) else None
  }

  /** The last of the blocks with that id. */
  function LastWith(put: seq<BlockInfo>, id: string): Option<BlockInfo>
  {
    if put == [] then None
    else if put[|put| - 1].id == id then Some(put[|put| - 1])
    else LastWith(put[..|put| - 1], id)
  }

  lemma {:induction false} LastWithIs(put: seq<BlockInfo>, id: string, i: nat)
    requires i < |put| && put[i].id == id && forall j :: i < j < |put| ==> put[j].id != id
    ensures LastWith(put, id) == Some(put[i])
  {
    var n := |put| - 1;
    if i < n {
      assert put[n].id != id;
      LastWithIs(put[..n], id, i);
    }
  }

  lemma {:induction false} LastWithNone(put: seq<BlockInfo>, id: string)
    requires forall i :: 0 <= i < |put| ==> put[i].id != id
    ensures LastWith(put, id) == None
  {
    if put != [] {
      LastWithNone(put[..|put| - 1], id);
    }
  }

  // ----- rows in and out -----

  /** Insert into the files table: refused when an indexed field is empty. */
  function FileStored(t: Tables, f: FileInfo): Option<Tables>
  {
    if f.id == "" || f.path == "" || f.parentID == "" then None
    else
      var moved := f.id in t.files && t.files[f.id].path != f.path;
      var byPath := if moved then t.filesByPath - {t.files[f.id].path} else t.filesByPath;
      Some(t.(files := t.files[f.id := f], filesByPath := byPath[f.path := f]))
  }

  /** Delete from the files table, by primary key. */
  function FileDeleted(t: Tables, f: FileInfo): Option<Tables>
  {
    if f.id !in t.files then None
    else Some(t.(files := t.files - {f.id}, filesByPath := t.filesByPath - {t.files[f.id].path}))
  }

  /** Insert all blocks in one transaction. */
  function BlocksPut(blocks: Blocks, put: seq<BlockInfo>): Option<Blocks>
    decreases |put|
  {
    if put == [] then Some(blocks)
    else if put[0].id == "" || put[0].fileID == "" then None
    else BlocksPut(blocks[put[0].id := put[0]], put[1..])
  }

  /** Delete all blocks in one transaction. */
  function BlocksDeleted(blocks: Blocks, gone: seq<BlockInfo>): Option<Blocks>
    decreases |gone|
  {
    if gone == [] then Some(blocks)
    else if gone[0].id !in blocks then None
    else BlocksDeleted(blocks - {gone[0].id}, gone[1..])
  }

  function PolicyStored(t: Tables, p: Policy): Option<Tables>
  {
    if p.id == "" || p.name == "" then None
    else
      var renamed := p.id in t.policies && t.policies[p.id].name != p.name;
      var byName := if renamed then t.policiesByName - {t.policies[p.id].name} else t.policiesByName;
      Some(t.(policies := t.policies[p.id := p], policiesByName := byName[p.name := p]))
  }

  function PolicyDeleted(t: Tables, p: Policy): Option<Tables>
  {
    if p.id !in t.policies then None
    else Some(t.(policies := t.policies - {p.id}, policiesByName := t.policiesByName - {t.policies[p.id].name}))
  }

  function Settle(t: Tables, r: Option<Tables>): Tables
  {
    if r.Some? then r.value else t
  }

  function WithBlocks(t: Tables, r: Option<Blocks>): Tables
  {
    if r.Some? then t.(blocks := r.value) else t
  }

  /** The blocks of a file. */
  function BlocksOf(blocks: Blocks, fileID: string): Blocks
  {
    map id | id in blocks && blocks[id].fileID == fileID :: blocks[id]
  }

  ghost predicate Keyed(blocks: Blocks)
  {
    forall id :: id in blocks ==> blocks[id].id == id
  }

  /** File rows sit under their keys, and the path index is exactly the paths of the rows. */
  ghost predicate FilesOk(files: Files, byPath: Files)
  {
    && (forall id :: id in files ==> files[id].id == id != "")
    && (forall id :: id in files ==> files[id].path in byPath && byPath[files[id].path] == files[id])
    && (forall p :: p in byPath ==> byPath[p].path == p && byPath[p].id in files)
    && (forall p :: p in byPath ==> files[byPath[p].id] == byPath[p])
  }

  /** The name index points to stored policies; two policies may share a name. */
  ghost predicate PoliciesOk(policies: Policies, byName: Policies)
  {
    && (forall n :: n in byName ==> byName[n].name == n && byName[n].id in policies)
    && (forall n :: n in byName ==> policies[byName[n].id] == byName[n])
  }

  ghost predicate WellFormed(t: Tables)
  {
    FilesOk(t.files, t.filesByPath) && Keyed(t.blocks) && PoliciesOk(t.policies, t.policiesByName)
  }

  lemma PolicyStoredOk(t: Tables, p: Policy)
    requires PoliciesOk(t.policies, t.policiesByName) && PolicyStored(t, p).Some?
    ensures var t' := PolicyStored(t, p).value;
            && PoliciesOk(t'.policies, t'.policiesByName)
            && t' == t.(policies := t'.policies, policiesByName := t'.policiesByName)
  {
  }

  lemma PolicyDeletedOk(t: Tables, name: string)
    requires PoliciesOk(t.policies, t.policiesByName) && name in t.policiesByName
    ensures PolicyDeleted(t, t.policiesByName[name]).Some?
    ensures var t' := PolicyDeleted(t, t.policiesByName[name]).value;
            && PoliciesOk(t'.policies, t'.policiesByName) && name !in t'.policiesByName
            && t' == t.(policies := t'.policies, policiesByName := t'.policiesByName)
  {
  }

  /** Blocks the table accepts. */
  predicate Insertable(put: seq<BlockInfo>)
  {
    forall i :: 0 <= i < |put| ==> put[i].id != "" && put[i].fileID != ""
  }

  lemma {:induction false} LastWithCons(put: seq<BlockInfo>, id: string)
    requires put != []
    ensures LastWith(put, id) ==
            if LastWith(put[1..], id).Some? then LastWith(put[1..], id)
            else if put[0].id == id then Some(put[0]) else None
  {
    var n := |put| - 1;
    if n > 0 {
      assert put[1..][..n - 1] == put[..n][1..] && put[1..][n - 1] == put[n];
      LastWithCons(put[..n], id);
    }
  }

  /** An insert takes all blocks or none; then a lookup finds the last block with that id, and
      every other row as before. */
  lemma {:induction false} PutFound(blocks: Blocks, put: seq<BlockInfo>, id: string)
    ensures BlocksPut(blocks, put).Some? <==> Insertable(put)
    ensures Insertable(put) ==>
              Lookup(BlocksPut(blocks, put).value, id) ==
              if LastWith(put, id).Some? then LastWith(put, id) else Lookup(blocks, id)
    decreases |put|
  {
    if put != [] {
      PutFound(blocks[put[0].id := put[0]], put[1..], id);
      LastWithCons(put, id);
      assert put == [put[0]] + put[1..];
    }
  }

  lemma PutFoundAll(blocks: Blocks, put: seq<BlockInfo>)
    ensures BlocksPut(blocks, put).Some? <==> Insertable(put)
    ensures Insertable(put) ==>
              forall id :: Lookup(BlocksPut(blocks, put).value, id) ==
                if LastWith(put, id).Some? then LastWith(put, id) else Lookup(blocks, id)
  {
    PutFound(blocks, put, "");
    forall id | Insertable(put)
      ensures Lookup(BlocksPut(blocks, put).value, id) ==
              if LastWith(put, id).Some? then LastWith(put, id) else Lookup(blocks, id)
    {
      PutFound(blocks, put, id);
    }
  }

  /** Blocks a delete accepts: stored ones, none twice. */
  predicate Deletable(blocks: Blocks, gone: seq<BlockInfo>)
  {
    && (forall i :: 0 <= i < |gone| ==> gone[i].id in blocks)
    && (forall i, j :: 0 <= i < j < |gone| ==> gone[i].id != gone[j].id)
  }

  lemma {:induction false} DeletedAreStored(blocks: Blocks, gone: seq<BlockInfo>)
    requires BlocksDeleted(blocks, gone).Some?
    ensures Deletable(blocks, gone)
    decreases |gone|
  {
    if gone != [] {
      DeletedAreStored(blocks - {gone[0].id}, gone[1..]);
      forall i | 0 < i < |gone| ensures gone[i].id in blocks && gone[i].id != gone[0].id {
        assert gone[1..][i - 1] == gone[i];
      }
      forall i, j | 0 <= i < j < |gone| ensures gone[i].id != gone[j].id {
        if i > 0 {
          assert gone[1..][i - 1] == gone[i] && gone[1..][j - 1] == gone[j];
        }
      }
    }
  }

  /** A delete takes all blocks or none, and then exactly those rows are gone. */
  lemma DeletedIff(blocks: Blocks, gone: seq<BlockInfo>)
    ensures BlocksDeleted(blocks, gone).Some? <==> Deletable(blocks, gone)
    ensures Deletable(blocks, gone) ==> BlocksDeleted(blocks, gone) == Some(blocks - BlockIds(gone))
  {
    if BlocksDeleted(blocks, gone).Some? {
      DeletedAreStored(blocks, gone);
    }
    if Deletable(blocks, gone) {
      DeleteListed(blocks, gone);
    }
  }

  /** A listing of a set of rows: each once, in ascending order of block index. */
  ghost predicate Listing(list: seq<BlockInfo>, rows: Blocks)
  {
    Rows(list, rows) && Ordered(list, (b: BlockInfo) => b.index)
  }

  /** A set of rows, each once. */
  ghost predicate Rows(list: seq<BlockInfo>, rows: Blocks)
  {
    && Keyed(rows)
    && (forall i :: 0 <= i < |list| ==> list[i].id in rows && rows[list[i].id] == list[i])
    && (forall id :: id in rows ==> rows[id] in list)
    && (forall i, j :: 0 <= i < j < |list| ==> list[i].id != list[j].id)
  }

  /** Sorting a collection of rows gives a listing. */
  lemma SortedListing(found: seq<BlockInfo>, list: seq<BlockInfo>, rows: Blocks)
    requires Rows(found, rows) && SortOf(list, found, (b: BlockInfo) => b.index)
    ensures Listing(list, rows)
  {
    forall i | 0 <= i < |list| ensures list[i].id in rows && rows[list[i].id] == list[i] {
      assert list[i] in multiset(list);
      assert list[i] in multiset(found);
    }
    forall id | id in rows ensures rows[id] in list {
      assert rows[id] in multiset(found);
      assert rows[id] in multiset(list);
    }
    forall i, j | 0 <= i < j < |list| ensures list[i].id != list[j].id {
      assert list[i] in multiset(list) && list[j] in multiset(list);
      if list[i].id == list[j].id {
        TwiceCounted(list, i, j);
        OnceCounted(found, list[i]);
      }
    }
  }

  lemma {:induction false} OnceCounted(found: seq<BlockInfo>, b: BlockInfo)
    requires forall i, j :: 0 <= i < j < |found| ==> found[i].id != found[j].id
    ensures multiset(found)[b] <= 1
  {
    if found != [] {
      OnceCounted(found[1..], b);
      assert found == [found[0]] + found[1..];
      if found[0] == b {
        assert b !in found[1..];
        assert b !in multiset(found[1..]);
      }
    }
  }

  function BlockIds(list: seq<BlockInfo>): set<string>
  {
    set b | b in list :: b.id
  }

  lemma BlockIdsCons(list: seq<BlockInfo>)
    requires list != []
    ensures BlockIds(list) == {list[0].id} + BlockIds(list[1..])
  {
    assert list == [list[0]] + list[1..];
    assert forall b :: b in list <==> b == list[0] || b in list[1..];
  }

  lemma WithoutTwo(blocks: Blocks, id: string, ids: set<string>)
    ensures blocks - {id} - ids == blocks - ({id} + ids)
  {
  }

  /** Deleting distinct stored rows one by one deletes exactly those rows. */
  lemma {:induction false} DeleteListed(blocks: Blocks, gone: seq<BlockInfo>)
    requires forall i :: 0 <= i < |gone| ==> gone[i].id in blocks
    requires forall i, j :: 0 <= i < j < |gone| ==> gone[i].id != gone[j].id
    ensures BlocksDeleted(blocks, gone) == Some(blocks - BlockIds(gone))
    decreases |gone|
  {
    if gone == [] {
      assert blocks - BlockIds(gone) == blocks;
    } else {
      DeleteListed(blocks - {gone[0].id}, gone[1..]);
      BlockIdsCons(gone);
      WithoutTwo(blocks, gone[0].id, BlockIds(gone[1..]));
    }
  }

  lemma RowsIds(list: seq<BlockInfo>, rows: Blocks)
    requires Rows(list, rows)
    ensures BlockIds(list) == rows.Keys
  {
    forall id | id in rows ensures id in BlockIds(list) {
      assert rows[id] in list && rows[id].id == id;
    }
  }

  /** What DeleteFileWithBlocks leaves. */
  function FileAndBlocksDeleted(t: Tables, f: FileInfo): Option<Tables>
  {
    match FileDeleted(t, f)
    case None => None
    case Some(t') => Some(t'.(blocks := t.blocks - BlocksOf(t.blocks, f.id).Keys))
  }

  lemma {:induction false} PutKeyed(blocks: Blocks, put: seq<BlockInfo>)
    requires Keyed(blocks) && BlocksPut(blocks, put).Some?
    ensures Keyed(BlocksPut(blocks, put).value)
    decreases |put|
  {
    if put != [] {
      PutKeyed(blocks[put[0].id := put[0]], put[1..]);
    }
  }

  ghost predicate HasChildren(files: Files, id: string)
  {
    exists k :: k in files && files[k].parentID == id
  }

  ghost predicate Row(files: Files, f: FileInfo)
  {
    f.id in files && files[f.id] == f
  }

  /** All rows with that parent, each once. */
  ghost predicate Children(files: Files, id: string, list: seq<FileInfo>)
  {
    && (forall i :: 0 <= i < |list| ==> Row(files, list[i]) && list[i].parentID == id)
    && (forall i, j :: 0 <= i < j < |list| ==> list[i].id != list[j].id)
    && (forall k :: k in files && files[k].parentID == id ==> files[k] in list)
  }

  class Storage {
    var tables: Tables

    constructor ()
      ensures tables == EMPTY
    {
      tables := EMPTY;
    }

    method GetFileByPath(path: string) returns (f: Option<FileInfo>)
      ensures f == Lookup(tables.filesByPath, path)
    {
      f := if path in tables.filesByPath then Some(tables.filesByPath[path]) else None;
    }

    /** The rows with that parent, in any order. */
    method GetFilesByParentId(id: string) returns (children: seq<FileInfo>)
      requires forall k :: k in tables.files ==> tables.files[k].id == k
      ensures Children(tables.files, id, children)
    {
      children := [];
      var rest := tables.files.Keys;
      while rest != {}
        invariant rest <= tables.files.Keys
        invariant forall i :: 0 <= i < |children| ==>
                    Row(tables.files, children[i]) && children[i].parentID == id && children[i].id !in rest
        invariant forall i, j :: 0 <= i < j < |children| ==> children[i].id != children[j].id
        invariant forall k :: k in tables.files && k !in rest && tables.files[k].parentID == id ==>
                    tables.files[k] in children
      {
        var k :| k in rest;
        if tables.files[k].parentID == id {
          children := children + [tables.files[k]];
        }
        rest := rest - {k};
      }
    }

    method StoreFile(f: FileInfo) returns (ok: bool)
      modifies this
      ensures ok == FileStored(old(tables), f).Some? && tables == Settle(old(tables), FileStored(old(tables), f))
      ensures ok <==> f.id != "" && f.path != "" && f.parentID != ""
      ensures ok ==> Lookup(tables.filesByPath, f.path) == Lookup(tables.files, f.id) == Some(f)
      ensures forall id :: id != f.id ==> Lookup(tables.files, id) == Lookup(old(tables).files, id)
      ensures forall p :: p != f.path && (f.id in old(tables).files ==> p != old(tables).files[f.id].path) ==>
                Lookup(tables.filesByPath, p) == Lookup(old(tables).filesByPath, p)
      ensures tables == old(tables).(files := tables.files, filesByPath := tables.filesByPath)
      ensures !ok ==> tables == old(tables)
    {
      if f.id == "" || f.path == "" || f.parentID == "" {
        return false;
      }
      if f.id in tables.files && tables.files[f.id].path != f.path {
        tables := tables.(filesByPath := tables.filesByPath - {tables.files[f.id].path});
      }
      tables := tables.(files := tables.files[f.id := f], filesByPath := tables.filesByPath[f.path := f]);
      ok := true;
    }

    method DeleteFile(f: FileInfo) returns (ok: bool)
      modifies this
      ensures ok == FileDeleted(old(tables), f).Some? && tables == Settle(old(tables), FileDeleted(old(tables), f))
      ensures ok <==> f.id in old(tables).files
      ensures f.id !in tables.files
      ensures forall id :: id != f.id ==> Lookup(tables.files, id) == Lookup(old(tables).files, id)
      ensures forall p :: Lookup(tables.filesByPath, p) ==
                if ok && p == old(tables).files[f.id].path then None else Lookup(old(tables).filesByPath, p)
      ensures tables == old(tables).(files := tables.files, filesByPath := tables.filesByPath)
    {
      if f.id !in tables.files {
        return false;
      }
      tables := tables.(files := tables.files - {f.id}, filesByPath := tables.filesByPath - {tables.files[f.id].path});
      ok := true;
    }

    /** All blocks, or none: a transaction. */
    method PutBlocks(put: seq<BlockInfo>) returns (ok: bool)
      modifies this
      ensures ok == BlocksPut(old(tables).blocks, put).Some?
      ensures tables == WithBlocks(old(tables), BlocksPut(old(tables).blocks, put))
      ensures ok <==> Insertable(put)
      ensures forall id :: Lookup(tables.blocks, id) ==
                if ok && LastWith(put, id).Some? then LastWith(put, id) else Lookup(old(tables).blocks, id)
      ensures tables == old(tables).(blocks := tables.blocks)
    {
      PutFoundAll(tables.blocks, put);
      var blocks := tables.blocks;
      var i := 0;
      while i < |put|
        invariant 0 <= i <= |put|
        invariant BlocksPut(blocks, put[i..]) == BlocksPut(tables.blocks, put)
      {
        if put[i].id == "" || put[i].fileID == "" {
          return false;
        }
        assert put[i..][1..] == put[i + 1..];
        blocks := blocks[put[i].id := put[i]];
        i := i + 1;
      }
      tables := tables.(blocks := blocks);
      ok := true;
    }

    /** All blocks, or none: a transaction. */
    method DeleteBlocks(gone: seq<BlockInfo>) returns (ok: bool)
      modifies this
      ensures ok == BlocksDeleted(old(tables).blocks, gone).Some?
      ensures tables == WithBlocks(old(tables), BlocksDeleted(old(tables).blocks, gone))
      ensures ok <==> Deletable(old(tables).blocks, gone)
      ensures tables == old(tables).(blocks := if ok then old(tables).blocks - BlockIds(gone) else old(tables).blocks)
    {
      DeletedIff(tables.blocks, gone);
      var blocks := tables.blocks;
      var i := 0;
      while i < |gone|
        invariant 0 <= i <= |gone|
        invariant BlocksDeleted(blocks, gone[i..]) == BlocksDeleted(tables.blocks, gone)
      {
        if gone[i].id !in blocks {
          return false;
        }
        assert gone[i..][1..] == gone[i + 1..];
        blocks := blocks - {gone[i].id};
        i := i + 1;
      }
      tables := tables.(blocks := blocks);
      ok := true;
    }

    /** The blocks of a file, each once, in ascending order of index. */
    method GetBlocks(fileID: string) returns (list: seq<BlockInfo>)
      requires Keyed(tables.blocks)
      ensures Listing(list, BlocksOf(tables.blocks, fileID))
    {
      var found := CollectBlocks(fileID);
      list := SortBy(found, (b: BlockInfo) => b.index);
      SortedListing(found, list, BlocksOf(tables.blocks, fileID));
    }

    method CollectBlocks(fileID: string) returns (found: seq<BlockInfo>)
      requires Keyed(tables.blocks)
      ensures Rows(found, BlocksOf(tables.blocks, fileID))
    {
      found := [];
      var rest := tables.blocks.Keys;
      while rest != {}
        invariant rest <= tables.blocks.Keys
        invariant forall i :: 0 <= i < |found| ==> found[i].id in tables.blocks && found[i].id !in rest
        invariant forall i :: 0 <= i < |found| ==> tables.blocks[found[i].id] == found[i] && found[i].fileID == fileID
        invariant forall i, j :: 0 <= i < j < |found| ==> found[i].id != found[j].id
        invariant forall id :: id in tables.blocks && id !in rest && tables.blocks[id].fileID == fileID ==>
                    tables.blocks[id] in found
      {
        var id :| id in rest;
        if tables.blocks[id].fileID == fileID {
          found := found + [tables.blocks[id]];
        }
        rest := rest - {id};
      }
    }

    method DeleteFileWithBlocks(f: FileInfo) returns (ok: bool)
      requires Keyed(tables.blocks)
      modifies this
      ensures ok == FileAndBlocksDeleted(old(tables), f).Some?
      ensures tables == Settle(old(tables), FileAndBlocksDeleted(old(tables), f))
      ensures ok <==> f.id in old(tables).files
      ensures f.id !in tables.files
      ensures forall id :: id != f.id ==> Lookup(tables.files, id) == Lookup(old(tables).files, id)
      ensures forall p :: Lookup(tables.filesByPath, p) ==
                if ok && p == old(tables).files[f.id].path then None else Lookup(old(tables).filesByPath, p)
      ensures forall id :: Lookup(tables.blocks, id) ==
                if ok && id in old(tables).blocks && old(tables).blocks[id].fileID == f.id then None
                else Lookup(old(tables).blocks, id)
    {
      var found := CollectBlocks(f.id);
      var blocks := tables.blocks;
      var i := 0;
      while i < |found|
        invariant 0 <= i <= |found|
        invariant blocks == tables.blocks - BlockIds(found[..i])
      {
        assert found[..i + 1] == found[..i] + [found[i]];
        blocks := blocks - {found[i].id};
        i := i + 1;
      }
      assert found[..i] == found;
      RowsIds(found, BlocksOf(tables.blocks, f.id));
      if f.id !in tables.files {
        return false;
      }
      var byPath := tables.filesByPath - {tables.files[f.id].path};
      tables := tables.(files := tables.files - {f.id}, filesByPath := byPath, blocks := blocks);
      ok := true;
    }

    method GetPolicy(name: string) returns (p: Option<Policy>)
      ensures p == Lookup(tables.policiesByName, name)
    {
      p := if name in tables.policiesByName then Some(tables.policiesByName[name]) else None;
    }

    method StorePolicy(p: Policy) returns (ok: bool)
      modifies this
      ensures ok == PolicyStored(old(tables), p).Some? && tables == Settle(old(tables), PolicyStored(old(tables), p))
      ensures ok <==> p.id != "" && p.name != ""
      ensures ok ==> Lookup(tables.policiesByName, p.name) == Lookup(tables.policies, p.id) == Some(p)
      ensures forall id :: id != p.id ==> Lookup(tables.policies, id) == Lookup(old(tables).policies, id)
      ensures forall n :: n != p.name && (p.id in old(tables).policies ==> n != old(tables).policies[p.id].name) ==>
                Lookup(tables.policiesByName, n) == Lookup(old(tables).policiesByName, n)
      ensures tables == old(tables).(policies := tables.policies, policiesByName := tables.policiesByName)
      ensures !ok ==> tables == old(tables)
    {
      if p.id == "" || p.name == "" {
        return false;
      }
      if p.id in tables.policies && tables.policies[p.id].name != p.name {
        tables := tables.(policiesByName := tables.policiesByName - {tables.policies[p.id].name});
      }
      tables := tables.(policies := tables.policies[p.id := p], policiesByName := tables.policiesByName[p.name := p]);
      ok := true;
    }

    method DeletePolicy(p: Policy) returns (ok: bool)
      modifies this
      ensures ok == PolicyDeleted(old(tables), p).Some? && tables == Settle(old(tables), PolicyDeleted(old(tables), p))
      ensures ok <==> p.id in old(tables).policies
      ensures p.id !in tables.policies
      ensures forall id :: id != p.id ==> Lookup(tables.policies, id) == Lookup(old(tables).policies, id)
      ensures forall n :: Lookup(tables.policiesByName, n) ==
                if ok && n == old(tables).policies[p.id].name then None else Lookup(old(tables).policiesByName, n)
      ensures tables == old(tables).(policies := tables.policies, policiesByName := tables.policiesByName)
    {
      if p.id !in tables.policies {
        return false;
      }
      var byName := tables.policiesByName - {tables.policies[p.id].name};
      tables := tables.(policies := tables.policies - {p.id}, policiesByName := byName);
      ok := true;
    }
  }
}
