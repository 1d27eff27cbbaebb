/** The byte layout of a log segment: every entry is its length as a varint followed by
    its payload (rhosus/registry/wal/wal.go, appendBinaryEntry and loadNextBinaryEntry). */
module Framing {
  import opened Varint

  /** A payload: any slice a Go process can hold. */
  type Bytes = s: seq<byte> | |s| < MAX_SLICE witness []

  datatype Option<+T> = None | Some(value: T)

  /** Byte range [pos, end) of an entry inside its segment buffer. */
  datatype Position = Position(pos: nat, end: nat)

  function Frame(e: Bytes): (s: seq<byte>)
    ensures |s| > |e|
  {
    Put(|e|) + e
  }

  /** Three bytes after their length; three hundred after a length of two bytes. */
  lemma FrameSample(e: Bytes)
    ensures Frame([7, 8, 9]) == [3, 7, 8, 9]
    ensures |e| == 300 ==> Frame(e) == [172, 2] + e
  {
    assert Put(300) == [172] + Put(2);
  }

  /** What a segment holding the entries `es` looks like on disk. */
  function FrameAll(es: seq<Bytes>): seq<byte>
  {
    if es == [] then [] else Frame(es[0]) + FrameAll(es[1..])
  }

  function Positions(es: seq<Bytes>, base: nat): (ps: seq<Position>)
    ensures |ps| == |es|
  {
    if es == [] then []
    else [Position(base, base + |Frame(es[0])|)] + Positions(es[1..], base + |Frame(es[0])|)
  }

  /** loadNextBinaryEntry: the size of the first entry, None for ErrCorrupt. */
  function NextEntry(data: seq<byte>): (r: Option<nat>)
    ensures r.Some? ==> 1 <= r.value <= |data|
  {
    var (size, n) := Uvarint(data);
    if n <= 0 then None
    else if |data| - n < size then None
    else Some(n + size)
  }

  /** Entry boundaries of a whole buffer, None when it does not parse. */
  function Scan(data: seq<byte>, base: nat): (r: Option<seq<Position>>)
    decreases |data|
  {
    if data == [] then Some([])
    else match NextEntry(data)
      case None => None
      case Some(n) =>
        match Scan(data[n..], base + n)
        case None => None
        case Some(ps) => Some([Position(base, base + n)] + ps)
  }

  /** The decoding step of Read: the payload stored in one entry's bytes. */
  function Payload(edata: seq<byte>): (r: Option<seq<byte>>)
  {
    var (size, n) := Uvarint(edata);
    if n <= 0 then None
    else if |edata| - n < size then None
    else Some(edata[n..n + size])
  }

  // ----- one frame -----

  lemma UvarintPut(v: nat, rest: seq<byte>)
    requires v < TWO_64
    ensures Uvarint(Put(v) + rest) == (v, |Put(v)|)
  {
    PutLength64(v);
    RawPut(v, rest, MAX_VARINT);
  }

  lemma NextOfFrame(e: Bytes, rest: seq<byte>)
    ensures NextEntry(Frame(e) + rest) == Some(|Frame(e)|)
  {
    assert Frame(e) + rest == Put(|e|) + (e + rest);
    UvarintPut(|e|, e + rest);
  }

  /** A frame cut strictly inside is ErrCorrupt, whichever part of it is missing. */
  lemma NextOfCutFrame(e: Bytes, j: nat)
    requires j < |Frame(e)|
    ensures NextEntry(Frame(e)[..j]) == None
  {
    PutLength64(|e|);
    if j < |Put(|e|)| {
      assert Frame(e)[..j] == Put(|e|)[..j];
      RawCut(|e|, j, MAX_VARINT);
    } else {
      assert Frame(e)[..j] == Put(|e|) + e[..j - |Put(|e|)|];
      UvarintPut(|e|, e[..j - |Put(|e|)|]);
    }
  }

  lemma PayloadOfFrame(e: Bytes)
    ensures Payload(Frame(e)) == Some(e)
  {
    UvarintPut(|e|, e);
    assert Frame(e)[|Put(|e|)|..|Put(|e|)| + |e|] == e;
  }

  // ----- whole segments -----

  lemma {:induction false} FrameAllAppend(es: seq<Bytes>, fs: seq<Bytes>)
    ensures FrameAll(es + fs) == FrameAll(es) + FrameAll(fs)
  {
    if es == [] {
      assert es + fs == fs;
    } else {
      assert (es + fs)[1..] == es[1..] + fs;
      FrameAllAppend(es[1..], fs);
    }
  }

  lemma FrameAllSnoc(es: seq<Bytes>, e: Bytes)
    ensures FrameAll(es + [e]) == FrameAll(es) + Frame(e)
  {
    FrameAllAppend(es, [e]);
    assert FrameAll([e]) == Frame(e) + FrameAll([]);
  }

  lemma {:induction false} PositionsAppend(es: seq<Bytes>, fs: seq<Bytes>, base: nat)
    ensures Positions(es + fs, base) == Positions(es, base) + Positions(fs, base + |FrameAll(es)|)
  {
    if es == [] {
      assert es + fs == fs;
    } else {
      assert (es + fs)[1..] == es[1..] + fs;
      PositionsAppend(es[1..], fs, base + |Frame(es[0])|);
    }
  }

  lemma PositionsSnoc(es: seq<Bytes>, e: Bytes)
    ensures Positions(es + [e], 0)
         == Positions(es, 0) + [Position(|FrameAll(es)|, |FrameAll(es)| + |Frame(e)|)]
  {
    PositionsAppend(es, [e], 0);
  }

  /** Where the k-th entry starts and ends. */
  lemma PositionAt(es: seq<Bytes>, k: nat)
    requires k < |es|
    ensures Positions(es, 0)[k].pos == |FrameAll(es[..k])|
    ensures Positions(es, 0)[k].end == |FrameAll(es[..k + 1])|
  {
    assert es == es[..k] + es[k..];
    PositionsAppend(es[..k], es[k..], 0);
    FrameAllSnoc(es[..k], es[k]);
    assert es[..k] + [es[k]] == es[..k + 1];
  }

  /** Reading the k-th entry through its recorded position gives its payload. */
  lemma ReadBack(es: seq<Bytes>, k: nat)
    requires k < |es|
    ensures var p := Positions(es, 0)[k];
            p.pos <= p.end <= |FrameAll(es)| && Payload(FrameAll(es)[p.pos..p.end]) == Some(es[k])
  {
    PositionAt(es, k);
    FrameAllSnoc(es[..k], es[k]);
    assert es[..k] + [es[k]] == es[..k + 1];
    assert es == es[..k + 1] + es[k + 1..];
    FrameAllAppend(es[..k + 1], es[k + 1..]);
    var p := Positions(es, 0)[k];
    assert FrameAll(es)[p.pos..p.end] == Frame(es[k]);
    PayloadOfFrame(es[k]);
  }

  /** The bytes from entry k on are the segment of the entries from k on. */
  lemma FrameAllCut(es: seq<Bytes>, k: nat)
    requires k <= |es|
    ensures |FrameAll(es[..k])| <= |FrameAll(es)|
    ensures FrameAll(es)[..|FrameAll(es[..k])|] == FrameAll(es[..k])
    ensures FrameAll(es)[|FrameAll(es[..k])|..] == FrameAll(es[k..])
  {
    assert es == es[..k] + es[k..];
    FrameAllAppend(es[..k], es[k..]);
  }

  /** What a scan gives for one entry in front of what it gives for the rest. */
  function OneMore(base: nat, n: nat, rest: Option<seq<Position>>): Option<seq<Position>>
  {
    match rest
    case None => None
    case Some(ps) => Some([Position(base, base + n)] + ps)
  }

  /** One entry in front: the scan goes on behind it. */
  lemma ScanCons(e: Bytes, rest: seq<byte>, base: nat)
    ensures Scan(Frame(e) + rest, base) == OneMore(base, |Frame(e)|, Scan(rest, base + |Frame(e)|))
  {
    NextOfFrame(e, rest);
    assert (Frame(e) + rest)[|Frame(e)|..] == rest;
  }

  lemma {:induction false} ScanFrames(es: seq<Bytes>, base: nat)
    ensures Scan(FrameAll(es), base) == Some(Positions(es, base))
  {
    if es != [] {
      ScanFrames(es[1..], base + |Frame(es[0])|);
      ScanCons(es[0], FrameAll(es[1..]), base);
    }
  }

  /** j is a byte offset at which some whole number m of entries ends. */
  ghost predicate Boundary(es: seq<Bytes>, j: nat, m: nat)
  {
    m <= |es| && j == |FrameAll(es[..m])|
  }

  /** Unique decodability under truncation: any byte prefix of a segment loads exactly when
      it ends at an entry boundary, and then yields exactly those whole entries. */
  lemma {:induction false} ScanPrefix(es: seq<Bytes>, j: nat, base: nat)
    requires j <= |FrameAll(es)|
    ensures Scan(FrameAll(es)[..j], base).Some? <==> exists m: nat :: Boundary(es, j, m)
    ensures forall m: nat :: Boundary(es, j, m) ==>
              Scan(FrameAll(es)[..j], base) == Some(Positions(es[..m], base))
    decreases |es|
  {
    forall m: nat | Boundary(es, j, m)
      ensures Scan(FrameAll(es)[..j], base) == Some(Positions(es[..m], base))
    {
      FrameAllCut(es, m);
      ScanFrames(es[..m], base);
    }
    if Scan(FrameAll(es)[..j], base).Some? {
      ScanPrefixBoundary(es, j, base);
    }
  }

  lemma CutBehindFirst(es: seq<Bytes>, j: nat)
    requires es != [] && |Frame(es[0])| <= j <= |FrameAll(es)|
    ensures FrameAll(es)[..j] == Frame(es[0]) + FrameAll(es[1..])[..j - |Frame(es[0])|]
  {
  }

  lemma CutInsideFirst(es: seq<Bytes>, j: nat, base: nat)
    requires es != [] && 0 < j < |Frame(es[0])|
    ensures j <= |FrameAll(es)| && Scan(FrameAll(es)[..j], base) == None
  {
    assert FrameAll(es)[..j] == Frame(es[0])[..j];
    NextOfCutFrame(es[0], j);
  }

  lemma BoundaryNext(es: seq<Bytes>, j: nat, m: nat)
    requires es != [] && |Frame(es[0])| <= j && Boundary(es[1..], j - |Frame(es[0])|, m)
    ensures Boundary(es, j, m + 1)
  {
    assert es[..m + 1][1..] == es[1..][..m];
  }

  lemma {:induction false} ScanPrefixBoundary(es: seq<Bytes>, j: nat, base: nat)
    requires j <= |FrameAll(es)|
    requires Scan(FrameAll(es)[..j], base).Some?
    ensures exists m: nat :: Boundary(es, j, m)
    decreases |es|
  {
    if j == 0 {
      assert Boundary(es, 0, 0);
    } else {
      var f := Frame(es[0]);
      if j < |f| {
        CutInsideFirst(es, j, base);
        assert false;
      } else {
        CutBehindFirst(es, j);
        ScanCons(es[0], FrameAll(es[1..])[..j - |f|], base);
        ScanPrefixBoundary(es[1..], j - |f|, base + |f|);
        var m: nat :| Boundary(es[1..], j - |f|, m);
        BoundaryNext(es, j, m);
      }
    }
  }

  /** Frames determine their entries: two lists with the same bytes are the same list. */
  lemma {:induction false} FrameAllInjective(es: seq<Bytes>, fs: seq<Bytes>)
    requires FrameAll(es) == FrameAll(fs)
    ensures es == fs
  {
    ScanFrames(es, 0);
    ScanFrames(fs, 0);
    assert |es| == |Positions(es, 0)| == |fs|;
    forall k | 0 <= k < |es| ensures es[k] == fs[k] {
      ReadBack(es, k);
      ReadBack(fs, k);
    }
  }

  // ----- the loops -----

  /** appendBinaryEntry. */
  method AppendBinaryEntry(dst: seq<byte>, data: Bytes) returns (out: seq<byte>, epos: Position)
    ensures |dst| <= |out| && out[..|dst|] == dst
    ensures epos == Position(|dst|, |out|)
    ensures Payload(out[epos.pos..epos.end]) == Some(data)
    ensures out == dst + Frame(data)
  {
    var pos := |dst|;
    out := dst + Put(|data|);
    out := out + data;
    epos := Position(pos, |out|);
    assert out == dst + Frame(data);
    assert out[epos.pos..epos.end] == Frame(data);
    PayloadOfFrame(data);
  }

  /** The loop has put `epos` in front of what scanning `data` will give. */
  ghost predicate Loading(file: seq<byte>, data: seq<byte>, pos: nat, epos: seq<Position>)
  {
    Scan(file, 0) == match Scan(data, pos) case None => None case Some(ps) => Some(epos + ps)
  }

  lemma LoadingStart(file: seq<byte>)
    ensures Loading(file, file, 0, [])
  {
    assert forall ps: seq<Position> :: [] + ps == ps;
  }

  lemma LoadingStep(file: seq<byte>, data: seq<byte>, pos: nat, epos: seq<Position>)
    requires Loading(file, data, pos, epos) && data != []
    ensures match NextEntry(data)
            case None => Scan(file, 0) == None
            case Some(n) => Loading(file, data[n..], pos + n, epos + [Position(pos, pos + n)])
  {
    if NextEntry(data).Some? {
      var n := NextEntry(data).value;
      if Scan(data[n..], pos + n).Some? {
        var ps := Scan(data[n..], pos + n).value;
        assert epos + ([Position(pos, pos + n)] + ps) == epos + [Position(pos, pos + n)] + ps;
      }
    }
  }

  /** loadSegmentEntries over the bytes of the segment file: a cursor over the data, the
      positions collected on the way, None for ErrCorrupt. */
  method LoadEntries(file: seq<byte>) returns (r: Option<seq<Position>>)
    ensures r == Scan(file, 0)
  {
    var data := file;
    var epos: seq<Position> := [];
    var pos := 0;
    LoadingStart(file);
    while |data| > 0
      invariant Loading(file, data, pos, epos)
      decreases |data|
    {
      LoadingStep(file, data, pos, epos);
      var (size, n) := Uvarint(data);
      if n <= 0 { return None; }
      if |data| - n < size { return None; }
      var total := n + size;
      data := data[total..];
      epos := epos + [Position(pos, pos + total)];
      pos := pos + total;
    }
    assert epos + [] == epos;
    r := Some(epos);
  }
}
