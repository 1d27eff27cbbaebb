/** The directory of a write-ahead log: its files, the file operations the log performs,
    the states a crash can leave behind, and the layout of a healthy log. */
module LogDirectory {
  import opened Varint
  import opened Framing

  /** Names `load` tells apart. `Temp` stands for the scratch file and for every other name
      it skips. */
  datatype FileName = Seg(index: nat) | End(index: nat) | Start(index: nat) | Temp

  type Disk = map<FileName, seq<byte>>

  predicate Relevant(n: FileName)
  {
    !n.Temp? && n.index > 0
  }

  /** Position of a name in a directory listing: twenty-digit index first, then "" < ".END" <
      ".START". SegmentNames.NameOrder shows that this is the order of the file names. */
  function Rank(n: FileName): nat
  {
    match n
    case Seg(i) => 3 * i
    case End(i) => 3 * i + 1
    case Start(i) => 3 * i + 2
    case Temp => 0
  }

  // ----- directory listings -----

  ghost predicate Ascending(names: seq<FileName>)
  {
    forall i, j :: 0 <= i < j < |names| ==> Rank(names[i]) < Rank(names[j])
  }

  /** What ioutil.ReadDir returns, without the names `load` skips. */
  ghost predicate IsListing(d: Disk, names: seq<FileName>)
  {
    && Ascending(names)
    && (forall n :: n in names ==> n in d && Relevant(n))
    && (forall n :: n in d && Relevant(n) ==> n in names)
  }

  lemma {:induction false} AscendingUnique(a: seq<FileName>, b: seq<FileName>)
    requires Ascending(a) && Ascending(b)
    requires forall n :: n in a <==> n in b
    ensures a == b
    decreases |a|
  {
    if a == [] {
      assert forall k :: 0 <= k < |b| ==> b[k] in b;
    } else {
      assert a[0] in b;
      assert b[0] in a;
      assert a[0] == b[0] by {
        var i :| 0 <= i < |b| && b[i] == a[0];
        var j :| 0 <= j < |a| && a[j] == b[0];
      }
      forall n ensures n in a[1..] <==> n in b[1..] {
        assert n in a <==> n == a[0] || n in a[1..];
        assert n in b <==> n == b[0] || n in b[1..];
        assert a[0] !in a[1..];
        assert b[0] !in b[1..];
      }
      AscendingUnique(a[1..], b[1..]);
      assert a == [a[0]] + a[1..];
      assert b == [b[0]] + b[1..];
    }
  }

  /** The listing of every directory exists; the loop sorts by insertion. */
  method ReadDir(d: Disk) returns (names: seq<FileName>)
    ensures IsListing(d, names)
  {
    names := [];
    var todo := d.Keys;
    while todo != {}
      invariant todo <= d.Keys
      invariant Ascending(names)
      invariant forall n :: n in names <==> n in d.Keys - todo && Relevant(n)
      decreases |todo|
    {
      var n :| n in todo;
      todo := todo - {n};
      if Relevant(n) {
        names := Insert(names, n);
      }
    }
  }

  /** A name behind the first one is inserted behind it. */
  lemma InsertBehind(names: seq<FileName>, n: FileName, rest: seq<FileName>)
    requires names != [] && Ascending(names) && Rank(names[0]) < Rank(n)
    requires Ascending(rest) && forall m :: m in rest <==> m == n || m in names[1..]
    ensures Ascending([names[0]] + rest)
    ensures forall m :: m in [names[0]] + rest <==> m == n || m in names
  {
    hide Rank;
    assert names == [names[0]] + names[1..];
    forall k | 0 <= k < |rest| ensures Rank(names[0]) < Rank(rest[k]) {
      assert rest[k] in rest;
    }
  }

  function Insert(names: seq<FileName>, n: FileName): (r: seq<FileName>)
    requires Ascending(names) && Relevant(n) && n !in names && forall m :: m in names ==> Relevant(m)
    ensures Ascending(r)
    ensures forall m :: m in r <==> m == n || m in names
  {
    if names == [] then [n]
    else if Rank(n) < Rank(names[0]) then [n] + names
    else
      assert names[0] in names;
      var rest := Insert(names[1..], n);
      InsertBehind(names, n, rest);
      [names[0]] + rest
  }

  // ----- file operations and crashes -----

  datatype FsOp =
    | Create(name: FileName)                 // open with O_CREATE|O_TRUNC
    | Append(name: FileName, data: seq<byte>)
    | Rename(from: FileName, to: FileName)
    | Remove(name: FileName)

  function Apply(d: Disk, op: FsOp): Disk
  {
    match op
    case Create(n) => d[n := []]
    case Append(n, data) => if n in d then d[n := d[n] + data] else d
    case Rename(f, t) => if f in d then (d - {f})[t := d[f]] else d
    case Remove(n) => d - {n}
  }

  function Run(d: Disk, ops: seq<FsOp>): Disk
    decreases |ops|
  {
    if ops == [] then d else Apply(Run(d, ops[..|ops| - 1]), ops[|ops| - 1])
  }

  lemma RunSnoc(d: Disk, ops: seq<FsOp>, op: FsOp)
    ensures Run(d, ops + [op]) == Apply(Run(d, ops), op)
  {
    assert (ops + [op])[..|ops|] == ops;
  }

  lemma {:induction false} RunAppend(d: Disk, a: seq<FsOp>, b: seq<FsOp>)
    ensures Run(d, a + b) == Run(Run(d, a), b)
    decreases |b|
  {
    if b == [] {
      assert a + b == a;
    } else {
      var n := |b| - 1;
      assert (a + b)[..|a + b| - 1] == a + b[..n];
      RunAppend(d, a, b[..n]);
    }
  }

  /** A crash after k operations; when the next one is an append, j of its bytes made it. */
  function Crashed(d: Disk, ops: seq<FsOp>, k: nat, j: nat): Disk
    requires k <= |ops|
  {
    var c := Run(d, ops[..k]);
    if k < |ops| && ops[k].Append? && j <= |ops[k].data| then Apply(c, Append(ops[k].name, ops[k].data[..j]))
    else c
  }

  // ----- logs and their layout -----

  /** The abstract log: entries first, first + 1, ... */
  datatype Log = Log(first: nat, entries: seq<Bytes>)
  {
    function Last(): int { first + |entries| - 1 }

    /** What a front truncation at i leaves, for an i of the log. */
    function DropBefore(i: nat): Log
    {
      if first <= i <= first + |entries| then Log(i, entries[i - first..]) else this
    }

    /** What a back truncation at i leaves, for an i of the log. */
    function KeepThrough(i: nat): Log
    {
      if first <= i < first + |entries| then Log(first, entries[..i - first + 1]) else this
    }
  }

  function Flatten(chunks: seq<seq<Bytes>>): seq<Bytes>
  {
    if chunks == [] then [] else chunks[0] + Flatten(chunks[1..])
  }

  /** Entries in the segments before segment k. */
  function Offset(chunks: seq<seq<Bytes>>, k: nat): nat
    requires k <= |chunks|
  {
    if k == 0 then 0 else Offset(chunks, k - 1) + |chunks[k - 1]|
  }

  /** Index of the first entry of segment k. */
  function StartOf(first: nat, chunks: seq<seq<Bytes>>, k: nat): nat
    requires k <= |chunks|
  {
    first + Offset(chunks, k)
  }

  function SegNames(first: nat, chunks: seq<seq<Bytes>>): (r: seq<FileName>)
    ensures |r| == |chunks|
  {
    seq(|chunks|, k requires 0 <= k < |chunks| => Seg(StartOf(first, chunks, k)))
  }

  /** Segments are never empty except possibly the tail. */
  ghost predicate WellFormed(first: nat, chunks: seq<seq<Bytes>>)
  {
    first >= 1 && |chunks| >= 1 && forall k :: 0 <= k < |chunks| - 1 ==> chunks[k] != []
  }

  ghost predicate SegmentOk(d: Disk, first: nat, chunks: seq<seq<Bytes>>, k: nat)
    requires k < |chunks|
  {
    var n := Seg(StartOf(first, chunks, k));
    n in d && d[n] == FrameAll(chunks[k])
  }

  /** The directory of a healthy log: one file per segment and nothing else of relevance. */
  ghost predicate Holds(d: Disk, first: nat, chunks: seq<seq<Bytes>>)
  {
    && WellFormed(first, chunks)
    && (forall k :: 0 <= k < |chunks| ==> SegmentOk(d, first, chunks, k))
    && (forall n :: n in d && Relevant(n) ==> n in SegNames(first, chunks))
  }

  lemma {:induction false} OffsetMonotone(chunks: seq<seq<Bytes>>, i: nat, j: nat)
    requires i <= j <= |chunks|
    ensures Offset(chunks, i) <= Offset(chunks, j)
    ensures i < j && (exists k :: i <= k < j && chunks[k] != []) ==> Offset(chunks, i) < Offset(chunks, j)
    decreases j
  {
    if i < j {
      OffsetMonotone(chunks, i, j - 1);
    }
  }

  lemma StartsIncrease(first: nat, chunks: seq<seq<Bytes>>, i: nat, j: nat)
    requires WellFormed(first, chunks) && i < j < |chunks|
    ensures StartOf(first, chunks, i) < StartOf(first, chunks, j)
  {
    assert chunks[i] != [];
    OffsetMonotone(chunks, i, j);
  }

  lemma SegNamesAscend(first: nat, chunks: seq<seq<Bytes>>)
    requires WellFormed(first, chunks)
    ensures Ascending(SegNames(first, chunks))
  {
    var names := SegNames(first, chunks);
    forall i, j | 0 <= i < j < |names| ensures Rank(names[i]) < Rank(names[j]) {
      StartsIncrease(first, chunks, i, j);
    }
  }

  /** Offsets depend only on the segments before. */
  lemma {:induction false} OffsetPrefix(a: seq<seq<Bytes>>, b: seq<seq<Bytes>>, k: nat)
    requires k <= |a| && k <= |b| && forall i :: 0 <= i < k ==> a[i] == b[i]
    ensures Offset(a, k) == Offset(b, k)
  {
    if k > 0 {
      OffsetPrefix(a, b, k - 1);
    }
  }

  /** Offsets of the segments from k on, and of the segments before k. */
  lemma {:induction false} OffsetSplit(a: seq<seq<Bytes>>, b: seq<seq<Bytes>>, k: nat)
    requires k <= |a| + |b|
    ensures Offset(a + b, k) == if k <= |a| then Offset(a, k) else Offset(a, |a|) + Offset(b, k - |a|)
  {
    if k > 0 {
      OffsetSplit(a, b, k - 1);
    }
  }

  lemma {:induction false} FlattenAppend(a: seq<seq<Bytes>>, b: seq<seq<Bytes>>)
    ensures Flatten(a + b) == Flatten(a) + Flatten(b)
  {
    if a == [] {
      assert a + b == b;
    } else {
      assert (a + b)[1..] == a[1..] + b;
      FlattenAppend(a[1..], b);
    }
  }

  lemma FlattenOne(c: seq<Bytes>)
    ensures Flatten([c]) == c
  {
    assert Flatten([c]) == c + Flatten([]);
  }

  lemma {:induction false} FlattenLength(chunks: seq<seq<Bytes>>)
    ensures |Flatten(chunks)| == Offset(chunks, |chunks|)
    decreases |chunks|
  {
    if chunks != [] {
      var n := |chunks| - 1;
      assert chunks == chunks[..n] + [chunks[n]];
      FlattenAppend(chunks[..n], [chunks[n]]);
      FlattenOne(chunks[n]);
      FlattenLength(chunks[..n]);
      OffsetSplit(chunks[..n], [chunks[n]], n);
    }
  }

  /** The flat log cut around segment k. */
  lemma FlattenAround(chunks: seq<seq<Bytes>>, k: nat)
    requires k < |chunks|
    ensures Flatten(chunks) == Flatten(chunks[..k]) + chunks[k] + Flatten(chunks[k + 1..])
    ensures |Flatten(chunks[..k])| == Offset(chunks, k)
  {
    assert chunks == chunks[..k + 1] + chunks[k + 1..];
    FlattenAppend(chunks[..k + 1], chunks[k + 1..]);
    FlattenLast(chunks[..k + 1]);
    assert chunks[..k + 1][..k] == chunks[..k];
    FlattenLength(chunks[..k]);
    OffsetPrefix(chunks[..k], chunks, k);
  }

  lemma FlattenLast(chunks: seq<seq<Bytes>>)
    requires chunks != []
    ensures Flatten(chunks) == Flatten(chunks[..|chunks| - 1]) + chunks[|chunks| - 1]
  {
    var m := |chunks| - 1;
    assert chunks == chunks[..m] + [chunks[m]];
    FlattenAppend(chunks[..m], [chunks[m]]);
    FlattenOne(chunks[m]);
  }

  /** The entry at offset p of segment k is entry Offset(k) + p of the log. */
  lemma FlattenAt(chunks: seq<seq<Bytes>>, k: nat, p: nat)
    requires k < |chunks| && p < |chunks[k]|
    ensures Offset(chunks, k) + p < |Flatten(chunks)|
    ensures Flatten(chunks)[Offset(chunks, k) + p] == chunks[k][p]
  {
    FlattenAround(chunks, k);
  }
}
