/** The index file beside a partition: one 44-byte record per slot, 36 bytes of id and a
    big-endian 64-bit size, all zeros where the slot is free. */
module IdxFile {
  import opened Varint

  const ID_SIZE: nat := 36
  const RECORD: nat := 44

  type Id = s: seq<byte> | |s| == ID_SIZE witness seq(ID_SIZE, i => 0)

  datatype IdxBlock = IdxBlock(id: Id, size: nat, offset: nat)
  {
    /** The slot a block occupies. */
    function Slot(): nat { offset / RECORD }
  }

  // ----- records -----

  predicate Zeros(s: seq<byte>)
  {
    forall i :: 0 <= i < |s| ==> s[i] == 0
  }

  function Power(k: nat): nat
  {
    if k == 0 then 1 else 256 * Power(k - 1)
  }

  /** The last k bytes of n, most significant first. */
  function BigEndian(n: nat, k: nat): (r: seq<byte>)
    ensures |r| == k
  {
    if k == 0 then [] else BigEndian(n / 256, k - 1) + [(n % 256) as byte]
  }

  function Number(s: seq<byte>): nat
  {
    if s == [] then 0 else 256 * Number(s[..|s| - 1]) + s[|s| - 1] as nat
  }

  lemma {:induction false} NumberBigEndian(n: nat, k: nat)
    ensures n < Power(k) ==> Number(BigEndian(n, k)) == n
  {
    if k > 0 && n < Power(k) {
      NumberBigEndian(n / 256, k - 1);
      assert BigEndian(n, k)[..k - 1] == BigEndian(n / 256, k - 1);
    }
  }

  lemma Power8()
    ensures Power(8) == TWO_64
  {
    assert Power(1) == 256 && Power(2) == 65536 && Power(3) == 16777216 && Power(4) == 4294967296;
    assert Power(5) == 1099511627776 && Power(6) == 281474976710656;
    assert Power(7) == 72057594037927936;
  }

  function Marshal(b: IdxBlock): (r: seq<byte>)
    ensures |r| == RECORD
  {
    b.id + BigEndian(b.size, 8)
  }

  /** The bytes of a record: the id, then the size in eight bytes, the last the lowest. */
  lemma RecordSample(id: Id, offset: nat)
    ensures Marshal(IdxBlock(id, 4 * 1024 * 1024 + 258, offset)) == id + [0, 0, 0, 0, 0, 64, 1, 2]
  {
    hide BigEndian;
    BigEndianLow(4194562, 7, 16385, 2);
    BigEndianLow(16385, 6, 64, 1);
    BigEndianLow(64, 5, 0, 64);
    BigEndianZero(5);
    assert BigEndian(0, 5) == [0, 0, 0, 0, 0];
    assert BigEndian(64, 6) == [0, 0, 0, 0, 0, 64];
    assert BigEndian(16385, 7) == [0, 0, 0, 0, 0, 64, 1];
  }

  lemma BigEndianLow(n: nat, k: nat, high: nat, low: byte)
    requires n == 256 * high + low
    ensures BigEndian(n, k + 1) == BigEndian(high, k) + [low]
  {
  }

  lemma {:induction false} BigEndianZero(k: nat)
    ensures |BigEndian(0, k)| == k && Zeros(BigEndian(0, k))
  {
    if k > 0 {
      BigEndianZero(k - 1);
    }
  }

  function Unmarshal(record: seq<byte>, offset: nat): IdxBlock
    requires |record| == RECORD
  {
    IdxBlock(record[..ID_SIZE], Number(record[ID_SIZE..]), offset)
  }

  /** A record reads back as its block, and is not taken for a free slot. */
  lemma MarshalRoundTrip(b: IdxBlock)
    requires b.size < TWO_64
    ensures Unmarshal(Marshal(b), b.offset) == b
    ensures !Zeros(b.id) ==> !Zeros(Marshal(b))
  {
    NumberBigEndian(b.size, 8);
    Power8();
    assert Marshal(b)[..ID_SIZE] == b.id && Marshal(b)[ID_SIZE..] == BigEndian(b.size, 8);
    if !Zeros(b.id) {
      var i :| 0 <= i < |b.id| && b.id[i] != 0;
      assert Marshal(b)[i] != 0;
    }
  }

  // ----- the file -----

  /** WriteAt inside the file. */
  function Splice(file: seq<byte>, at: nat, data: seq<byte>): (r: seq<byte>)
    requires at + |data| <= |file|
    ensures |r| == |file|
  {
    file[..at] + data + file[at + |data|..]
  }

  function Record(file: seq<byte>, n: nat): (r: seq<byte>)
    requires (n + 1) * RECORD <= |file|
    ensures |r| == RECORD
  {
    file[n * RECORD..(n + 1) * RECORD]
  }

  lemma SpliceRecord(file: seq<byte>, n: nat, data: seq<byte>, m: nat)
    requires (n + 1) * RECORD <= |file| && (m + 1) * RECORD <= |file| && |data| == RECORD
    ensures Record(Splice(file, n * RECORD, data), m) == if m == n then data else Record(file, m)
  {
    var r := Splice(file, n * RECORD, data);
    forall i | 0 <= i < RECORD ensures Record(r, m)[i] == (if m == n then data else Record(file, m))[i] {
      assert Record(r, m)[i] == r[m * RECORD + i];
    }
  }

  /** What Load finds in the first n records; a later record of an id replaces an earlier. */
  function Loaded(file: seq<byte>, n: nat): map<Id, IdxBlock>
    requires n * RECORD <= |file|
  {
    if n == 0 then map[]
    else
      var record := Record(file, n - 1);
      if Zeros(record) then Loaded(file, n - 1)
      else
        var b := Unmarshal(record, (n - 1) * RECORD);
        Loaded(file, n - 1)[b.id := b]
  }

  class IdxFile {
    var file: seq<byte>

    /** A preallocated file for `count` slots. */
    constructor (count: nat)
      ensures |file| == count * RECORD && Zeros(file)
    {
      file := seq(count * RECORD, i => 0);
    }

    /** Read record after record until the end of the file. */
    method Load() returns (blocks: map<Id, IdxBlock>)
      ensures blocks == Loaded(file, |file| / RECORD)
    {
      blocks := map[];
      var offset := 0;
      ghost var n := 0;
      while offset + RECORD <= |file|
        invariant offset == n * RECORD <= |file|
        invariant blocks == Loaded(file, n)
        decreases |file| - offset
      {
        var data := file[offset..offset + RECORD];
        assert data == Record(file, n);
        var free := IsZeros(data);
        if !free {
          var block := Unmarshal(data, offset);
          blocks := blocks[block.id := block];
        }
        offset := offset + RECORD;
        n := n + 1;
      }
    }

    /** The records of these slots are replaced, in any order. */
    method Write(blocks: map<nat, IdxBlock>)
      requires forall n :: n in blocks ==> (n + 1) * RECORD <= |file|
      modifies this
      ensures |file| == |old(file)|
      ensures forall m: nat :: (m + 1) * RECORD <= |file| ==>
                Record(file, m) == if m in blocks then Marshal(blocks[m]) else Record(old(file), m)
    {
      hide Marshal, Splice;
      var rest := blocks.Keys;
      while rest != {}
        invariant rest <= blocks.Keys && |file| == |old(file)|
        invariant forall m: nat :: (m + 1) * RECORD <= |file| ==>
                    Record(file, m) == if m in blocks && m !in rest then Marshal(blocks[m]) else Record(old(file), m)
      {
        var n :| n in rest;
        ghost var before := file;
        file := Splice(file, n * RECORD, Marshal(blocks[n]));
        forall m: nat | (m + 1) * RECORD <= |file|
          ensures Record(file, m) == if m == n then Marshal(blocks[n]) else Record(before, m)
        {
          SpliceRecord(before, n, Marshal(blocks[n]), m);
        }
        rest := rest - {n};
      }
    }

    /** One slot, zeroed byte by byte. */
    method EraseSlot(n: nat)
      requires (n + 1) * RECORD <= |file|
      modifies this
      ensures |file| == |old(file)|
      ensures forall m: nat :: (m + 1) * RECORD <= |file| && m != n ==> Record(file, m) == Record(old(file), m)
      ensures Zeros(Record(file, n))
    {
      var pos, end := n * RECORD, (n + 1) * RECORD;
      while pos < end
        invariant n * RECORD <= pos <= end && |file| == |old(file)|
        invariant forall i :: 0 <= i < |file| ==> file[i] == if n * RECORD <= i < pos then 0 else old(file)[i]
      {
        file := file[pos := 0];
        pos := pos + 1;
      }
    }

    /** The listed slots, zeroed. */
    method Erase(blocks: seq<nat>)
      requires forall i :: 0 <= i < |blocks| ==> (blocks[i] + 1) * RECORD <= |file|
      modifies this
      ensures |file| == |old(file)|
      ensures forall m: nat :: (m + 1) * RECORD <= |file| && m !in blocks ==> Record(file, m) == Record(old(file), m)
      ensures forall m: nat :: (m + 1) * RECORD <= |file| && m in blocks ==> Zeros(Record(file, m))
    {
      var i := 0;
      while i < |blocks|
        invariant 0 <= i <= |blocks| && |file| == |old(file)|
        invariant forall m: nat :: (m + 1) * RECORD <= |file| && m !in blocks[..i] ==>
                    Record(file, m) == Record(old(file), m)
        invariant forall m: nat :: (m + 1) * RECORD <= |file| && m in blocks[..i] ==> Zeros(Record(file, m))
      {
        EraseSlot(blocks[i]);
        i := i + 1;
      }
    }
  }

  /** isBytesAllZeros. */
  method IsZeros(data: seq<byte>) returns (r: bool)
    ensures r <==> Zeros(data)
  {
    var i := 0;
    while i < |data|
      invariant 0 <= i <= |data| && Zeros(data[..i])
    {
      if data[i] != 0 {
        return false;
      }
      i := i + 1;
    }
    r := true;
  }
}
