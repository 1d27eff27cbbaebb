/** The loops of the generated entry code: a marshaller that fills its buffer from the back,
    and a parser that moves a cursor over any byte string. */
module EntryMarshal {
  import opened Varint
  import opened EntryCodec
  import WireFormat

  // ----- reading -----

  /** The two field widths. */
  predicate Width(modulus: nat)
  {
    modulus == TWO_32 || modulus == TWO_64
  }

  /** What is left of a number in a field. */
  function Low(v: nat, modulus: nat): nat
    requires Width(modulus)
  {
    v % modulus
  }

  lemma ModAdd(a: nat, b: nat, m: nat)
    requires Width(m)
    ensures (Low(a, m) + b) % m == Low(a + b, m)
  {
  }

  /** What the loop has read so far, put in front of what is still to come. */
  function Resume(acc: nat, k: nat, rest: Decoded): Decoded
  {
    match rest
    case Done(v, n) => Done(acc + Pow128(k) * v, n + k)
    case other => other
  }

  /** What the k-th byte of a varint contributes. */
  function Group(k: nat, b: byte): nat { Pow128(k) * (b % 128) }

  lemma ResumeStep(acc: nat, k: nat, b: nat, rest: Decoded)
    ensures rest.Done? ==>
              Resume(acc, k, Done(b + 128 * rest.value, rest.len + 1)) == Resume(acc + Pow128(k) * b, k + 1, rest)
  {
    if rest.Done? {
      assert Pow128(k + 1) * rest.value == Pow128(k) * (128 * rest.value);
      assert Pow128(k) * (b + 128 * rest.value) == Pow128(k) * b + Pow128(k) * (128 * rest.value);
    }
  }

  /** One more byte: the group it adds, and what is still to come. */
  lemma NextByte(s: seq<byte>, i: nat, k: nat, acc: nat, group: nat)
    requires i < |s| && k < MAX_VARINT && group == Group(k, s[i])
    ensures Resume(acc, k, Raw(s[i..], MAX_VARINT - k))
         == if s[i] < 128 then Done(acc + group, k + 1)
            else Resume(acc + group, k + 1, Raw(s[i + 1..], MAX_VARINT - k - 1))
  {
    assert s[i..][1..] == s[i + 1..];
    ResumeStep(acc, k, s[i] % 128, Raw(s[i + 1..], MAX_VARINT - k - 1));
  }

  /** k bytes from `start` on have been read, and stand for acc. */
  ghost predicate Reading(s: seq<byte>, start: nat, k: nat, acc: nat)
  {
    && start + k <= |s| && k <= MAX_VARINT
    && Raw(s[start..], MAX_VARINT) == Resume(acc, k, Raw(s[start + k..], MAX_VARINT - k))
  }

  lemma ReadingStart(s: seq<byte>, start: nat)
    requires start <= |s|
    ensures Reading(s, start, 0, 0)
  {
    assert forall d: Decoded :: Resume(0, 0, d) == d;
  }

  lemma ReadingNext(s: seq<byte>, start: nat, k: nat, acc: nat, group: nat)
    requires Reading(s, start, k, acc) && start + k < |s| && k < MAX_VARINT && group == Group(k, s[start + k])
    ensures s[start + k] < 128 ==> Number(s, start) == Ok((acc + group, start + k + 1))
    ensures s[start + k] >= 128 ==> Reading(s, start, k + 1, acc + group)
  {
    NextByte(s, start + k, k, acc, group);
  }

  lemma ReadingStops(s: seq<byte>, start: nat, k: nat, acc: nat)
    requires Reading(s, start, k, acc)
    ensures k == MAX_VARINT ==> Number(s, start) == Err(IntOverflow)
    ensures k < MAX_VARINT && start + k == |s| ==> Number(s, start) == Err(UnexpectedEOF)
  {
  }

  /** The varint loop shared by all fields, for a field of `modulus` values: bits shifted out
      of the field are lost. Or-ing in groups of bits that do not overlap is adding them. */
  method DecodeVarint(s: seq<byte>, start: nat, modulus: nat) returns (r: Result<(nat, nat)>)
    requires start <= |s| && Width(modulus)
    ensures r == match Number(s, start) case Err(e) => Err(e) case Ok((v, j)) => Ok((Low(v, modulus), j))
  {
    hide Number, Reading, Group;
    var i, x, k: nat := start, 0, 0;
    ghost var acc: nat := 0;
    ReadingStart(s, start);
    while true
      invariant start <= i <= |s| && i == start + k && k <= MAX_VARINT
      invariant x == Low(acc, modulus) && Reading(s, start, k, acc)
      decreases |s| - i
    {
      if k >= MAX_VARINT {
        ReadingStops(s, start, k, acc);
        return Err(IntOverflow);
      }
      if i >= |s| {
        ReadingStops(s, start, k, acc);
        return Err(UnexpectedEOF);
      }
      var b := s[i];
      var group := Group(k, b);
      ReadingNext(s, start, k, acc, group);
      ModAdd(acc, group, modulus);
      x := (x + group) % modulus;
      acc := acc + group;
      i := i + 1;
      k := k + 1;
      if b < 128 {
        return Ok((x, i));
      }
    }
  }

  /** A length and the range of positions it spans, which may end beyond the input. */
  method ReadLength(s: seq<byte>, j: nat) returns (r: Result<(nat, nat)>)
    requires j <= |s|
    ensures r == match Number(s, j)
                 case Err(x) => Err(x)
                 case Ok((v, k)) =>
                   if Signed64(v) < 0 then Err(InvalidLength)
                   else match Advance(k, Signed64(v))
                     case Err(x) => Err(x)
                     case Ok(end) => Ok((k, end))
  {
    var len := DecodeVarint(s, j, TWO_64);
    if len.Err? {
      return Err(len.error);
    }
    var (v, k) := len.value;
    if v >= TWO_63 {
      return Err(InvalidLength);
    }
    if k + v >= TWO_63 {
      return Err(InvalidLength);
    }
    r := Ok((k, k + v));
  }

  /** The switch of skipControl. */
  method SkipByType(s: seq<byte>, j: nat, wireType: nat, depth: nat) returns (r: Result<(nat, nat)>)
    requires j <= |s| < MAX_SLICE && wireType < 8
    ensures r == SkipBody(s, j, wireType, depth)
  {
    var next, deep := j, depth;
    match wireType {
      case 0 =>
        var x := DecodeVarint(s, j, TWO_64);
        if x.Err? {
          return Err(x.error);
        }
        next := x.value.1;
      case 1 =>
        next := j + 8;
      case 2 =>
        var x := ReadLength(s, j);
        if x.Err? {
          return Err(x.error);
        }
        next := x.value.1;
      case 3 =>
        deep := depth + 1;
      case 4 =>
        if depth == 0 {
          return Err(UnexpectedEndOfGroup);
        }
        deep := depth - 1;
      case 5 =>
        next := j + 4;
      case _ =>
        return Err(IllegalWireType);
    }
    if next >= TWO_63 {
      return Err(InvalidLength);
    }
    r := Ok((next, deep));
  }

  /** The low three bits of a tag. */
  method DecodeWireType(s: seq<byte>, i: nat) returns (r: Result<(nat, nat)>)
    requires i <= |s|
    ensures r == match Number(s, i) case Err(e) => Err(e) case Ok((v, j)) => Ok((v % 8, j))
  {
    var tag := DecodeVarint(s, i, TWO_64);
    if tag.Err? {
      return Err(tag.error);
    }
    LowBits(Number(s, i).value.0);
    r := Ok((tag.value.0 % 8, tag.value.1));
  }

  lemma LowBits(v: nat)
    ensures v % TWO_64 % 8 == v % 8
  {
  }

  /** One turn of the loop of skipControl. */
  method SkipOne(s: seq<byte>, i: nat, depth: nat) returns (r: Result<(nat, nat)>)
    requires i < |s| < MAX_SLICE
    ensures r == SkipItem(s, i, depth)
  {
    var tag := DecodeWireType(s, i);
    if tag.Err? {
      return Err(tag.error);
    }
    r := SkipByType(s, tag.value.1, tag.value.0, depth);
  }

  /** skipControl: terminates on every byte string, since every item it accepts advances,
      through nested groups too. */
  method SkipControl(s: seq<byte>) returns (r: Result<nat>)
    requires |s| < MAX_SLICE
    ensures r == Skip(s)
    ensures forall item :: WireFormat.Good(item) && WireFormat.Wire(item) <= s ==> r == Ok(|WireFormat.Wire(item)|)
    ensures r.Ok? && r.value <= |s| ==>
              exists item :: WireFormat.Good(item) && WireFormat.Wire(item) == s[..r.value]
  {
    hide WireFormat.Good, WireFormat.Wire;
    WireFormat.SkipMeans(s);
    var i, depth := 0, 0;
    while i < |s|
      invariant Skip(s) == SkipFrom(s, i, depth)
      decreases |s| - i
    {
      var item := SkipOne(s, i, depth);
      if item.Err? {
        return Err(item.error);
      }
      i, depth := item.value.0, item.value.1;
      if depth == 0 {
        return Ok(i);
      }
    }
    r := Err(UnexpectedEOF);
  }

  /** The default branch: keep the bytes of a field no one knows. */
  method ReadUnknown(s: seq<byte>, i: nat, e: Entry) returns (r: Result<(Entry, nat)>)
    requires i < |s| < MAX_SLICE
    ensures r == match Skip(s[i..])
                 case Err(x) => Err(x)
                 case Ok(n) =>
                   match Advance(i, n)
                   case Err(x) => Err(x)
                   case Ok(end) =>
                     if end > |s| then Err(UnexpectedEOF) else Ok((e.(unknown := e.unknown + s[i..end]), end))
  {
    var skippy := SkipControl(s[i..]);
    if skippy.Err? {
      return Err(skippy.error);
    }
    if i + skippy.value >= TWO_63 {
      return Err(InvalidLength);
    }
    if i + skippy.value > |s| {
      return Err(UnexpectedEOF);
    }
    r := Ok((e.(unknown := e.unknown + s[i..i + skippy.value]), i + skippy.value));
  }

  /** A varint field, truncated to its own width. */
  method ReadNumber(s: seq<byte>, j: nat, field: int, e: Entry) returns (r: Result<(Entry, nat)>)
    requires j <= |s| && field in {1, 2, 3, 5}
    ensures r == match Number(s, j) case Err(x) => Err(x) case Ok((v, k)) => Ok((SetNumber(e, field, v), k))
  {
    var x := DecodeVarint(s, j, if field == 1 || field == 5 then TWO_64 else TWO_32);
    if x.Err? {
      return Err(x.error);
    }
    var (v, k) := x.value;
    var next := if field == 1 then e.(index := v)
                else if field == 2 then e.(term := v)
                else if field == 3 then e.(typ := if v >= TWO_31 then v - TWO_32 else v)
                else e.(timestamp := if v >= TWO_63 then v - TWO_64 else v);
    r := Ok((next, k));
  }

  /** The tag of a field: its number, its wire type and the cursor behind it. */
  method ReadTag(s: seq<byte>, i: nat) returns (r: Result<(int, nat, nat)>)
    requires i <= |s|
    ensures r == match Number(s, i) case Err(x) => Err(x) case Ok((wire, j)) => Ok((FieldNumber(wire), wire % 8, j))
  {
    hide Number;
    var tag := DecodeVarint(s, i, TWO_64);
    if tag.Err? {
      return Err(tag.error);
    }
    var (wire, j) := tag.value;
    var low := wire / 8 % TWO_32;
    var field := if low >= TWO_31 then low - TWO_32 else low;
    r := Ok((field, wire % 8, j));
  }

  /** The data field, behind its tag. */
  method ReadData(s: seq<byte>, j: nat, e: Entry) returns (r: Result<(Entry, nat)>)
    requires j <= |s| < MAX_SLICE
    ensures r == match Number(s, j)
                 case Err(x) => Err(x)
                 case Ok((v, k)) =>
                   if Signed64(v) < 0 then Err(InvalidLength)
                   else match Advance(k, Signed64(v))
                     case Err(x) => Err(x)
                     case Ok(end) => if end > |s| then Err(UnexpectedEOF) else Ok((e.(data := s[k..end]), end))
  {
    hide Number;
    var d := ReadLength(s, j);
    if d.Err? {
      return Err(d.error);
    }
    if d.value.1 > |s| {
      return Err(UnexpectedEOF);
    }
    r := Ok((e.(data := s[d.value.0..d.value.1]), d.value.1));
  }

  /** One turn of the loop of Entry.Unmarshal. */
  method ReadField(s: seq<byte>, i: nat, e: Entry) returns (r: Result<(Entry, nat)>)
    requires i < |s| < MAX_SLICE
    ensures r == Field(s, i, e)
  {
    hide Number, Skip, Word, SetNumber, FieldNumber;
    var tag := ReadTag(s, i);
    if tag.Err? {
      return Err(tag.error);
    }
    var (field, wireType, j) := tag.value;
    if wireType == 4 {
      return Err(EndGroupForNonGroup);
    }
    if field <= 0 {
      return Err(IllegalTag);
    }
    if field == 4 {
      if wireType != 2 {
        return Err(WrongWireType);
      }
      r := ReadData(s, j, e);
    } else if field == 99 {
      if wireType != 5 {
        return Err(WrongWireType);
      }
      if j + 4 > |s| {
        return Err(UnexpectedEOF);
      }
      r := Ok((e.(version := Word(s[j..j + 4])), j + 4));
    } else if field == 1 || field == 2 || field == 3 || field == 5 {
      if wireType != 0 {
        return Err(WrongWireType);
      }
      r := ReadNumber(s, j, field, e);
    } else {
      r := ReadUnknown(s, i, e);
    }
  }

  /** Entry.Unmarshal: total on byte strings; every field it accepts moves the cursor. */
  method Unmarshal(s: seq<byte>) returns (r: Result<Entry>)
    requires |s| < MAX_SLICE
    ensures r == Parse(s)
    ensures forall items :: WireFormat.AllGood(items) && WireFormat.WireAll(items) == s ==>
              r == WireFormat.TookAll(EMPTY, items)
    ensures r.Ok? ==> exists items ::
              WireFormat.AllGood(items) && WireFormat.WireAll(items) == s && r == WireFormat.TookAll(EMPTY, items)
  {
    hide WireFormat.AllGood, WireFormat.WireAll, WireFormat.TookAll;
    WireFormat.ParseMeans(s);
    var i, e := 0, EMPTY;
    while i < |s|
      invariant 0 <= i <= |s|
      invariant Parse(s) == ParseFrom(s, i, e)
      decreases |s| - i
    {
      var f := ReadField(s, i, e);
      if f.Err? {
        return Err(f.error);
      }
      e, i := f.value.0, f.value.1;
    }
    r := Ok(e);
  }

  // ----- writing, from the back -----

  /** A buffer that held `before`, filled from the back with `done`. */
  function Filled(before: seq<byte>, done: seq<byte>): seq<byte>
    requires |done| <= |before|
  {
    before[..|before| - |done|] + done
  }

  lemma FilledMore(before: seq<byte>, done: seq<byte>, field: seq<byte>, now: seq<byte>)
    requires |field| + |done| <= |before| == |now|
    requires now[..|now| - |done| - |field|] == Filled(before, done)[..|now| - |done| - |field|]
    requires now[|now| - |done| - |field|..|now| - |done|] == field
    requires now[|now| - |done|..] == Filled(before, done)[|now| - |done|..]
    ensures now == Filled(before, field + done)
  {
    var i, j := |now| - |done|, |now| - |done| - |field|;
    assert now == now[..j] + now[j..i] + now[i..];
    assert Filled(before, done)[i..] == done;
    assert Filled(before, done)[..j] == before[..j];
  }

  /** copy(dAtA[i-len(data):], data). */
  method PutBytes(a: array<byte>, i: nat, data: seq<byte>, ghost before: seq<byte>, ghost done: seq<byte>)
    returns (j: nat)
    requires |data| + |done| <= |before| == a.Length && i == a.Length - |done| && a[..] == Filled(before, done)
    modifies a
    ensures j == i - |data| && a[..] == Filled(before, data + done)
  {
    j := i - |data|;
    var k := 0;
    while k < |data|
      invariant 0 <= k <= |data|
      invariant a[j..j + k] == data[..k]
      invariant a[..j] == old(a[..j]) && a[i..] == old(a[i..])
    {
      a[j + k] := data[k];
      assert a[j..j + k + 1] == a[j..j + k] + [data[k]];
      k := k + 1;
    }
    FilledMore(before, done, data, a[..]);
  }

  lemma PutUnfold(head: seq<byte>, v: nat)
    requires v >= 128
    ensures head + [v % 128 + 128] + Put(v / 128) == head + Put(v)
  {
  }

  /** encodeVarintControl: the reserved size leaves exactly the room the digits need. */
  method EncodeVarint(a: array<byte>, i: nat, x: nat, ghost before: seq<byte>, ghost done: seq<byte>)
    returns (base: nat)
    requires |Put(x)| + |done| <= |before| == a.Length && i == a.Length - |done| && a[..] == Filled(before, done)
    modifies a
    ensures base == i - |Put(x)| && a[..] == Filled(before, Put(x) + done)
  {
    SovIsLength(x);
    var offset := i - Sov(x);
    base := offset;
    var v := x;
    while v >= 128
      invariant base <= offset && offset + |Put(v)| == i
      invariant a[base..offset] + Put(v) == Put(x)
      invariant a[..base] == old(a[..base]) && a[i..] == old(a[i..])
      decreases v
    {
      ghost var head := a[base..offset];
      PutUnfold(head, v);
      a[offset] := v % 128 + 128;
      assert a[base..offset + 1] == head + [v % 128 + 128];
      v := v / 128;
      offset := offset + 1;
    }
    ghost var head := a[base..offset];
    a[offset] := v;
    assert a[base..i] == head + [v];
    FilledMore(before, done, Put(x), a[..]);
  }

  method PutByte(a: array<byte>, i: nat, b: byte, ghost before: seq<byte>, ghost done: seq<byte>) returns (j: nat)
    requires 1 + |done| <= |before| == a.Length && i == a.Length - |done| && a[..] == Filled(before, done)
    modifies a
    ensures j == i - 1 && a[..] == Filled(before, [b] + done)
  {
    j := i - 1;
    a[j] := b;
    FilledMore(before, done, [b], a[..]);
  }

  /** A number with its tag, unless it is zero. */
  method PutVarintField(a: array<byte>, i: nat, tag: byte, v: nat, ghost before: seq<byte>, ghost done: seq<byte>)
    returns (j: nat)
    requires |VarintField(tag, v)| + |done| <= |before| == a.Length
    requires i == a.Length - |done| && a[..] == Filled(before, done)
    modifies a
    ensures j == i - |VarintField(tag, v)| && a[..] == Filled(before, VarintField(tag, v) + done)
  {
    j := i;
    if v != 0 {
      j := EncodeVarint(a, j, v, before, done);
      j := PutByte(a, j, tag, before, Put(v) + done);
      assert [tag] + (Put(v) + done) == VarintField(tag, v) + done;
    } else {
      assert [] + done == done;
    }
  }

  method PutDataField(a: array<byte>, i: nat, data: seq<byte>, ghost before: seq<byte>, ghost done: seq<byte>)
    returns (j: nat)
    requires |DataField(data)| + |done| <= |before| == a.Length
    requires i == a.Length - |done| && a[..] == Filled(before, done)
    modifies a
    ensures j == i - |DataField(data)| && a[..] == Filled(before, DataField(data) + done)
  {
    j := i;
    if |data| > 0 {
      j := PutBytes(a, j, data, before, done);
      j := EncodeVarint(a, j, |data|, before, data + done);
      j := PutByte(a, j, 0x22, before, Put(|data|) + (data + done));
      Regroup([0x22], Put(|data|), data, done);
    } else {
      assert [] + done == done;
    }
  }

  method PutVersionField(a: array<byte>, i: nat, word: nat, ghost before: seq<byte>, ghost done: seq<byte>)
    returns (j: nat)
    requires word < TWO_32
    requires |VersionField(word)| + |done| <= |before| == a.Length
    requires i == a.Length - |done| && a[..] == Filled(before, done)
    modifies a
    ensures j == i - |VersionField(word)| && a[..] == Filled(before, VersionField(word) + done)
  {
    j := i;
    if !FloatIsZero(word) {
      j := PutBytes(a, j, LittleEndian(word), before, done);
      j := PutByte(a, j, 0x06, before, LittleEndian(word) + done);
      j := PutByte(a, j, 0x9d, before, [0x06] + (LittleEndian(word) + done));
      VersionShape(LittleEndian(word), done);
    } else {
      assert [] + done == done;
    }
  }

  lemma VersionShape(word: seq<byte>, rest: seq<byte>)
    ensures [0x9d] + ([0x06] + (word + rest)) == [0x9d, 0x06] + word + rest
  {
  }

  /** The parts of an encoded entry, last to first. */
  ghost function Part6(e: Entry): seq<byte>
    requires InRange(e)
  {
    VersionField(e.version) + e.unknown
  }

  ghost function Part5(e: Entry): seq<byte>
    requires InRange(e)
  {
    VarintField(0x28, Unsigned64(e.timestamp)) + Part6(e)
  }

  ghost function Part4(e: Entry): seq<byte>
    requires InRange(e)
  {
    DataField(e.data) + Part5(e)
  }

  ghost function Part3(e: Entry): seq<byte>
    requires InRange(e)
  {
    VarintField(0x18, Unsigned64(e.typ)) + Part4(e)
  }

  ghost function Part2(e: Entry): seq<byte>
    requires InRange(e)
  {
    VarintField(0x10, e.term) + Part3(e)
  }

  lemma PartSizes(e: Entry)
    requires InRange(e)
    ensures |e.unknown| <= |Part6(e)| <= |Part5(e)| <= |Part4(e)| <= |Part3(e)| <= |Part2(e)| <= |Encode(e)|
    ensures Encode(e) == VarintField(0x08, e.index) + Part2(e)
  {
  }

  /** The fields from the data on. */
  method MarshalLater(e: Entry, a: array<byte>, ghost before: seq<byte>) returns (i: nat)
    requires InRange(e) && |Part4(e)| <= a.Length && a[..] == before
    modifies a
    ensures i == a.Length - |Part4(e)| && a[..] == Filled(before, Part4(e))
  {
    PartSizes(e);
    assert Filled(before, []) == before && e.unknown + [] == e.unknown;
    i := PutBytes(a, a.Length, e.unknown, before, []);
    i := PutVersionField(a, i, e.version, before, e.unknown);
    i := PutVarintField(a, i, 0x28, Unsigned64(e.timestamp), before, Part6(e));
    i := PutDataField(a, i, e.data, before, Part5(e));
  }

  /** Entry.MarshalToSizedBuffer: fields from last to first, each in front of the others;
      exactly the last Size() bytes of the buffer are filled. */
  method MarshalToSizedBuffer(e: Entry, a: array<byte>) returns (n: nat)
    requires InRange(e) && Size(e) <= a.Length
    modifies a
    ensures n == Size(e)
    ensures a[..] == old(a[..])[..a.Length - n] + Encode(e)
  {
    SizeIsLength(e);
    PartSizes(e);
    ghost var before := a[..];
    var i := MarshalLater(e, a, before);
    i := PutVarintField(a, i, 0x18, Unsigned64(e.typ), before, Part4(e));
    i := PutVarintField(a, i, 0x10, e.term, before, Part3(e));
    i := PutVarintField(a, i, 0x08, e.index, before, Part2(e));
    n := a.Length - i;
  }

  /** Entry.Marshal. */
  method Marshal(e: Entry) returns (bytes: seq<byte>)
    requires InRange(e)
    ensures |bytes| == Size(e)
    ensures Unknown(e.unknown) && |bytes| < MAX_SLICE ==> Parse(bytes) == Ok(Canonical(e))
    ensures bytes == Encode(e)
  {
    var size := Size(e);
    var buffer := new byte[size];
    var n := MarshalToSizedBuffer(e, buffer);
    bytes := buffer[..n];
    assert bytes == buffer[..];
    if Unknown(e.unknown) && |bytes| < MAX_SLICE {
      RoundTripCanonical(e);
    }
  }
}
