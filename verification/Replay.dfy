/** The entries of the replicated log as changes of the registry's tables, and the handler by
    which a follower replays them. */
module Replay {
  import opened Varint
  import C = EntryCodec
  import opened Storage

  datatype LogEntry =
    | AssignFile(file: FileInfo)
    | DeleteFile(file: FileInfo)
    | AssignBlocks(blocks: seq<BlockInfo>)
    | DeleteBlocks(blocks: seq<BlockInfo>)
    | CreatePolicy(policy: Policy)
    | DeletePolicy(name: string)

  function Apply(t: Tables, e: LogEntry): Tables
  {
    match e
    case AssignFile(f) => Settle(t, FileStored(t, f))
    case DeleteFile(f) => Settle(t, FileDeleted(t, f))
    case AssignBlocks(bs) => WithBlocks(t, BlocksPut(t.blocks, bs))
    case DeleteBlocks(bs) => WithBlocks(t, BlocksDeleted(t.blocks, bs))
    case CreatePolicy(p) => Settle(t, PolicyStored(t, p))
    case DeletePolicy(name) =>
      if name in t.policiesByName then Settle(t, PolicyDeleted(t, t.policiesByName[name])) else t
  }

  function ApplyAll(t: Tables, entries: seq<LogEntry>): Tables
  {
    if entries == [] then t else Apply(ApplyAll(t, entries[..|entries| - 1]), entries[|entries| - 1])
  }

  lemma ApplyOne(t: Tables, log: seq<LogEntry>, e: LogEntry)
    ensures ApplyAll(t, log + [e]) == Apply(ApplyAll(t, log), e)
  {
    assert (log + [e])[..|log|] == log;
  }

  lemma {:induction false} ApplyAllAppend(t: Tables, a: seq<LogEntry>, b: seq<LogEntry>)
    ensures ApplyAll(t, a + b) == ApplyAll(ApplyAll(t, a), b)
    decreases |b|
  {
    if b == [] {
      assert a + b == a;
    } else {
      var n := |b| - 1;
      ApplyAllAppend(t, a, b[..n]);
      assert (a + b)[..|a + b| - 1] == a + b[..n];
    }
  }

  // ----- payloads -----

  /** How the payload of an entry is read: None when its type is unknown or it does not
      unmarshal. */
  type Decoder = C.Entry -> Option<LogEntry>

  /** How a change is written: the type and the payload of its entry. */
  type Encoder = LogEntry -> (int, seq<byte>)

  function Reading(decode: Decoder, e: C.Entry): seq<LogEntry>
  {
    match decode(e)
    case None => []
    case Some(change) => [change]
  }

  function Changes(decode: Decoder, entries: seq<C.Entry>): seq<LogEntry>
  {
    if entries == [] then [] else Changes(decode, entries[..|entries| - 1]) + Reading(decode, entries[|entries| - 1])
  }

  lemma ChangesOne(decode: Decoder, entries: seq<C.Entry>, e: C.Entry)
    ensures Changes(decode, entries + [e]) == Changes(decode, entries) + Reading(decode, e)
  {
    assert (entries + [e])[..|entries|] == entries;
  }

  lemma {:induction false} ChangesAppend(decode: Decoder, a: seq<C.Entry>, b: seq<C.Entry>)
    ensures Changes(decode, a + b) == Changes(decode, a) + Changes(decode, b)
    decreases |b|
  {
    hide Reading;
    if b == [] {
      assert a + b == a;
    } else {
      var n := |b| - 1;
      ChangesAppend(decode, a, b[..n]);
      assert a + b == a + b[..n] + [b[n]] && b == b[..n] + [b[n]];
      ChangesOne(decode, a + b[..n], b[n]);
      ChangesOne(decode, b[..n], b[n]);
    }
  }

  /** The tables these entries amount to, from nothing. */
  function TablesOf(decode: Decoder, entries: seq<C.Entry>): Tables
  {
    ApplyAll(EMPTY, Changes(decode, entries))
  }

  lemma TablesOfMore(decode: Decoder, a: seq<C.Entry>, b: seq<C.Entry>)
    ensures TablesOf(decode, a + b) == ApplyAll(TablesOf(decode, a), Changes(decode, b))
  {
    ChangesAppend(decode, a, b);
    ApplyAllAppend(EMPTY, Changes(decode, a), Changes(decode, b));
  }

  // ----- followers -----

  /** handleEntriesFromLeader: an entry that does not unmarshal is skipped, errors are only
      reported. */
  method HandleEntriesFromLeader(storage: Storage, entries: seq<C.Entry>, decode: Decoder)
    modifies storage
    ensures storage.tables == ApplyAll(old(storage.tables), Changes(decode, entries))
  {
    var i := 0;
    while i < |entries|
      invariant 0 <= i <= |entries|
      invariant storage.tables == ApplyAll(old(storage.tables), Changes(decode, entries[..i]))
    {
      assert entries[..i + 1] == entries[..i] + [entries[i]];
      ChangesOne(decode, entries[..i], entries[i]);
      var change := decode(entries[i]);
      if change.Some? {
        ApplyOne(old(storage.tables), Changes(decode, entries[..i]), change.value);
        HandleEntry(storage, change.value);
      } else {
        assert Changes(decode, entries[..i]) + [] == Changes(decode, entries[..i]);
      }
      i := i + 1;
    }
    assert entries[..i] == entries;
  }

  method HandleEntry(storage: Storage, entry: LogEntry)
    modifies storage
    ensures storage.tables == Apply(old(storage.tables), entry)
  {
    match entry {
      case AssignFile(f) =>
        var ok := storage.StoreFile(f);
      case DeleteFile(f) =>
        var ok := storage.DeleteFile(f);
      case AssignBlocks(blocks) =>
        var ok := storage.PutBlocks(blocks);
      case DeleteBlocks(blocks) =>
        var ok := storage.DeleteBlocks(blocks);
      case CreatePolicy(policy) =>
        var ok := storage.StorePolicy(policy);
      case DeletePolicy(name) =>
        var policy := storage.GetPolicy(name);
        if policy.Some? {
          var ok := storage.DeletePolicy(policy.value);
        }
    }
  }
}
