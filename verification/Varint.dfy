/** Bytes, and the base-128 varints shared by the segment framing of the write-ahead
    log and by the protobuf wire format. */
module Varint {

  type byte = x: int | 0 <= x < 256

  const TWO_31 := 0x8000_0000
  const TWO_32 := 0x1_0000_0000
  const TWO_63 := 0x8000_0000_0000_0000
  const TWO_64 := 0x1_0000_0000_0000_0000

  /** Longest byte slice the models talk about: the 48-bit address space of a Go process. */
  const MAX_SLICE := 0x1_0000_0000_0000

  /** A varint takes at most ten bytes: shifts 0, 7, ..., 63. */
  const MAX_VARINT := 10

  /** Little-endian groups of seven bits, every group but the last with its high bit set. */
  function Put(v: nat): (s: seq<byte>)
    ensures |s| >= 1
  {
    if v < 128 then [v] else [128 + v % 128] + Put(v / 128)
  }

  datatype Decoded = Short | Overflow | Done(value: nat, len: nat)

  /** The decoding loop before any truncation to a machine width: at most `limit` bytes are
      read, running over the limit is noticed before running out of input. */
  function Raw(s: seq<byte>, limit: nat): (r: Decoded)
    ensures r.Done? ==> 1 <= r.len <= |s| && r.len <= limit
  {
    if limit == 0 then Overflow
    else if s == [] then Short
    else if s[0] < 128 then Done(s[0], 1)
    else match Raw(s[1..], limit - 1)
      case Done(v, n) => Done(s[0] - 128 + 128 * v, n + 1)
      case other => other
  }

  /** Go's `binary.Uvarint`: the value and the bytes read, or a count that is not positive. */
  function Uvarint(s: seq<byte>): (nat, int)
  {
    match Raw(s, MAX_VARINT)
    case Done(v, n) => if v < TWO_64 then (v, n as int) else (0, 0 - n as int)
    case Overflow => if |s| > MAX_VARINT then (0, -(MAX_VARINT + 1)) else (0, 0)
    case Short => (0, 0)
  }

  lemma {:induction false} RawPut(v: nat, rest: seq<byte>, limit: nat)
    requires |Put(v)| <= limit
    ensures Raw(Put(v) + rest, limit) == Done(v, |Put(v)|)
  {
    if v < 128 {
    } else {
      RawPut(v / 128, rest, limit - 1);
      assert (Put(v) + rest)[1..] == Put(v / 128) + rest;
    }
  }

  /** A varint cut short anywhere is recognised as incomplete. */
  lemma {:induction false} RawCut(v: nat, j: nat, limit: nat)
    requires j < |Put(v)| <= limit
    ensures Raw(Put(v)[..j], limit) == Short
  {
    if v < 128 || j == 0 {
    } else {
      RawCut(v / 128, j - 1, limit - 1);
      assert Put(v)[..j][1..] == Put(v / 128)[..j - 1];
    }
  }

  /** Decoding looks only at the bytes it consumes. */
  lemma {:induction false} RawLocal(s: seq<byte>, t: seq<byte>, limit: nat)
    requires Raw(s, limit).Done?
    ensures Raw(s[..Raw(s, limit).len] + t, limit) == Raw(s, limit)
  {
    if s[0] < 128 {
    } else {
      RawLocal(s[1..], t, limit - 1);
      var n := Raw(s, limit).len;
      assert (s[..n] + t)[1..] == s[1..][..n - 1] + t;
    }
  }

  function Pow128(k: nat): (p: nat)
    ensures p >= 1
  {
    if k == 0 then 1 else 128 * Pow128(k - 1)
  }

  /** No encoding of a value is shorter than the one written for it. */
  lemma {:induction false} RawLength(s: seq<byte>, limit: nat)
    requires Raw(s, limit).Done?
    ensures |Put(Raw(s, limit).value)| <= Raw(s, limit).len
  {
    if s[0] >= 128 {
      RawLength(s[1..], limit - 1);
    }
  }

  lemma {:induction false} PutMonotone(a: nat, b: nat)
    requires a <= b
    ensures |Put(a)| <= |Put(b)|
  {
    if a >= 128 {
      PutMonotone(a / 128, b / 128);
    }
  }

  lemma {:induction false} PutLength(v: nat, k: nat)
    requires k >= 1 && v < Pow128(k)
    ensures |Put(v)| <= k
  {
    if v >= 128 {
      assert k > 1;
      PutLength(v / 128, k - 1);
    }
  }

  lemma PutLength64(v: nat)
    requires v < TWO_64
    ensures |Put(v)| <= MAX_VARINT
  {
    assert Pow128(10) == 128 * (128 * (128 * (128 * (128 * Pow128(5)))));
    assert Pow128(5) == 128 * (128 * (128 * (128 * (128 * Pow128(0)))));
    PutLength(v, 10);
  }

  /** Go's `bits.Len64`: the number of bits needed to write x. */
  function BitLength(x: nat): nat
  {
    if x == 0 then 0 else 1 + BitLength(x / 2)
  }

  /** The size the generated code reserves for a varint: `(bits.Len64(x|1) + 6) / 7`. */
  function Sov(x: nat): nat
  {
    (BitLength(if x % 2 == 0 then x + 1 else x) + 6) / 7
  }

  lemma BitLengthStep(x: nat)
    requires x >= 8
    ensures BitLength(x) == 3 + BitLength(x / 8)
  {
    assert BitLength(x) == 1 + BitLength(x / 2);
    assert BitLength(x / 2) == 1 + BitLength(x / 2 / 2);
    assert BitLength(x / 2 / 2) == 1 + BitLength(x / 2 / 2 / 2);
    assert x / 2 / 2 / 2 == x / 8;
  }

  lemma BitLengthShift(x: nat)
    requires x >= 128
    ensures BitLength(x) == 7 + BitLength(x / 128)
  {
    BitLengthStep(x);
    BitLengthStep(x / 8);
    assert x / 8 / 8 == x / 64 && x / 64 / 2 == x / 128;
    assert BitLength(x / 64) == 1 + BitLength(x / 64 / 2);
  }

  lemma BitLengthSmall(x: nat)
    requires 1 <= x < 128
    ensures 1 <= BitLength(x) <= 7
  {
    if x >= 8 {
      BitLengthStep(x);
      if x >= 64 {
        BitLengthStep(x / 8);
      } else {
        BitLengthTiny(x / 8);
      }
    } else {
      BitLengthTiny(x);
    }
  }

  lemma BitLengthTiny(x: nat)
    requires 1 <= x < 8
    ensures 1 <= BitLength(x) <= 3
  {
    assert BitLength(x) == 1 + BitLength(x / 2);
    assert x / 2 > 0 ==> BitLength(x / 2) == 1 + BitLength(x / 2 / 2);
  }

  /** x|1 has as many bits as x once x is not zero. */
  lemma BitLengthOdd(x: nat)
    requires x >= 1 && x % 2 == 0
    ensures BitLength(x + 1) == BitLength(x)
  {
    assert (x + 1) / 2 == x / 2;
  }

  /** The reserved size is exactly the number of bytes the encoder emits. */
  lemma {:induction false} SovIsLength(x: nat)
    ensures Sov(x) == |Put(x)|
  {
    if x == 0 {
      assert BitLength(1) == 1;
    } else {
      if x % 2 == 0 { BitLengthOdd(x); }
      assert Sov(x) == (BitLength(x) + 6) / 7;
      if x < 128 {
        BitLengthSmall(x);
      } else {
        SovIsLength(x / 128);
        if (x / 128) % 2 == 0 { BitLengthOdd(x / 128); }
        BitLengthShift(x);
      }
    }
  }
}
