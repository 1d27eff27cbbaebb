/** The protobuf wire format of a replicated log entry: what the generated marshaller emits,
    what the generated parser accepts, and how the two fit together. */
module EntryCodec {
  import opened Varint

  datatype Entry = Entry(
    index: int, term: int, typ: int, data: seq<byte>, timestamp: int, version: int, unknown: seq<byte>)

  /** Machine ranges: uint64 index, uint32 term, int32 type, int64 timestamp, the float
      version as its 32-bit pattern. */
  predicate InRange(e: Entry)
  {
    && 0 <= e.index < TWO_64 && 0 <= e.term < TWO_32
    && -TWO_31 <= e.typ < TWO_31 && -TWO_63 <= e.timestamp < TWO_63
    && 0 <= e.version < TWO_32
    && |e.data| < MAX_SLICE
  }

  const EMPTY := Entry(0, 0, 0, [], 0, 0, [])

  /** The bit pattern of -0.0, which compares equal to zero. */
  const NEGATIVE_ZERO := TWO_31

  predicate FloatIsZero(word: int)
  {
    word == 0 || word == NEGATIVE_ZERO
  }

  /** uint64(x) of a signed value. */
  function Unsigned64(x: int): nat
    requires -TWO_63 <= x < TWO_63
  {
    if x < 0 then x + TWO_64 else x
  }

  function Signed32(x: nat): int
  {
    var w := x % TWO_32;
    if w >= TWO_31 then w - TWO_32 else w
  }

  function Signed64(x: nat): int
  {
    var w := x % TWO_64;
    if w >= TWO_63 then w - TWO_64 else w
  }

  // ----- what is written -----

  function VarintField(tag: byte, v: nat): seq<byte>
  {
    if v == 0 then [] else [tag] + Put(v)
  }

  function DataField(data: seq<byte>): seq<byte>
  {
    if data == [] then [] else [0x22] + (Put(|data|) + data)
  }

  function LittleEndian(word: nat): (s: seq<byte>)
    requires word < TWO_32
    ensures |s| == 4
  {
    [word % 256, word / 256 % 256, word / 256 / 256 % 256, word / 256 / 256 / 256]
  }

  function VersionField(word: nat): seq<byte>
    requires word < TWO_32
  {
    if FloatIsZero(word) then [] else [0x9d, 0x06] + LittleEndian(word)
  }

  function Encode(e: Entry): seq<byte>
    requires InRange(e)
  {
    VarintField(0x08, e.index) + (VarintField(0x10, e.term) + (VarintField(0x18, Unsigned64(e.typ))
    + (DataField(e.data) + (VarintField(0x28, Unsigned64(e.timestamp)) + (VersionField(e.version) + e.unknown)))))
  }

  /** Entry.Size. */
  function Size(e: Entry): nat
    requires InRange(e)
  {
    (if e.index != 0 then 1 + Sov(e.index) else 0)
    + (if e.term != 0 then 1 + Sov(e.term) else 0)
    + (if e.typ != 0 then 1 + Sov(Unsigned64(e.typ)) else 0)
    + (if |e.data| > 0 then 1 + |e.data| + Sov(|e.data|) else 0)
    + (if e.timestamp != 0 then 1 + Sov(Unsigned64(e.timestamp)) else 0)
    + (if !FloatIsZero(e.version) then 6 else 0)
    + |e.unknown|
  }

  lemma UnsignedZero(x: int)
    requires -TWO_63 <= x < TWO_63
    ensures Unsigned64(x) == 0 <==> x == 0
  {
  }

  lemma FieldLengths(tag: byte, v: nat, data: seq<byte>, word: nat)
    requires word < TWO_32
    ensures |VarintField(tag, v)| == if v == 0 then 0 else 1 + Sov(v)
    ensures |DataField(data)| == if data == [] then 0 else 1 + |data| + Sov(|data|)
    ensures |VersionField(word)| == if FloatIsZero(word) then 0 else 6
  {
    hide Put, Sov, FloatIsZero, LittleEndian;
    SovIsLength(v);
    SovIsLength(|data|);
  }

  /** The separately computed size is the length of what is written. */
  lemma SizeIsLength(e: Entry)
    requires InRange(e)
    ensures |Encode(e)| == Size(e)
  {
    hide VarintField, DataField, VersionField, Sov, FloatIsZero, Unsigned64;
    UnsignedZero(e.typ);
    UnsignedZero(e.timestamp);
    FieldLengths(0x08, e.index, e.data, e.version);
    FieldLengths(0x10, e.term, [], 0);
    FieldLengths(0x18, Unsigned64(e.typ), [], 0);
    FieldLengths(0x28, Unsigned64(e.timestamp), [], 0);
  }

  // ----- what is read -----

  datatype Error =
    | IntOverflow | UnexpectedEOF | InvalidLength | UnexpectedEndOfGroup
    | EndGroupForNonGroup | IllegalTag | WrongWireType | IllegalWireType

  datatype Result<+T> = Ok(value: T) | Err(error: Error)

  /** A varint at position i, before truncation, and the position after it. */
  function Number(s: seq<byte>, i: nat): (r: Result<(nat, nat)>)
    requires i <= |s|
    ensures r.Ok? ==> i < r.value.1 <= |s|
  {
    match Raw(s[i..], MAX_VARINT)
    case Done(v, n) => Ok((v, i + n))
    case Overflow => Err(IntOverflow)
    case Short => Err(UnexpectedEOF)
  }

  /** Adding a length to a cursor in 64-bit arithmetic: None once it turns negative. */
  function Advance(i: nat, n: nat): (r: Result<nat>)
    ensures r.Ok? ==> r.value == i + n < TWO_63
  {
    if i + n < TWO_63 then Ok(i + n) else Err(InvalidLength)
  }

  /** The item after a tag: the cursor and group depth behind it. */
  function SkipBody(s: seq<byte>, j: nat, wireType: nat, depth: nat): (r: Result<(nat, nat)>)
    requires j <= |s| && wireType < 8
    ensures r.Ok? ==> j <= r.value.0
  {
    match wireType
    case 0 => (match Number(s, j) case Err(e) => Err(e) case Ok((_, k)) => Ok((k, depth)))
    case 1 => AdvanceTo(j, 8, depth)
    case 2 =>
      (match Number(s, j)
       case Err(e) => Err(e)
       case Ok((v, k)) => if Signed64(v) < 0 then Err(InvalidLength) else AdvanceTo(k, Signed64(v), depth))
    case 3 => Ok((j, depth + 1))
    case 4 => if depth == 0 then Err(UnexpectedEndOfGroup) else Ok((j, depth - 1))
    case 5 => AdvanceTo(j, 4, depth)
    case _ => Err(IllegalWireType)
  }

  /** One item of skipControl, tag included. */
  function SkipItem(s: seq<byte>, i: nat, depth: nat): (r: Result<(nat, nat)>)
    requires i < |s|
    ensures r.Ok? ==> i < r.value.0
  {
    match Number(s, i)
    case Err(e) => Err(e)
    case Ok((wire, j)) => SkipBody(s, j, wire % 8, depth)
  }

  function AdvanceTo(i: nat, n: nat, depth: nat): (r: Result<(nat, nat)>)
    ensures r.Ok? ==> r.value == (i + n, depth) && i + n < TWO_63
  {
    match Advance(i, n)
    case Err(e) => Err(e)
    case Ok(k) => Ok((k, depth))
  }

  /** skipControl from a cursor and a group depth. */
  function SkipFrom(s: seq<byte>, i: nat, depth: nat): (r: Result<nat>)
    ensures r.Ok? ==> r.value > i
    decreases if i < |s| then |s| - i else 0
  {
    if i >= |s| then Err(UnexpectedEOF)
    else match SkipItem(s, i, depth)
      case Err(e) => Err(e)
      case Ok((k, d)) => if d == 0 then Ok(k) else SkipFrom(s, k, d)
  }

  function Skip(s: seq<byte>): (r: Result<nat>)
    ensures r.Ok? ==> r.value > 0
  {
    SkipFrom(s, 0, 0)
  }

  predicate KnownField(n: int)
  {
    1 <= n <= 5 || n == 99
  }

  /** Field number and wire type of a tag. */
  function FieldNumber(wire: nat): int
  {
    Signed32(wire % TWO_64 / 8)
  }

  function Word(s: seq<byte>): nat
    requires |s| == 4
  {
    s[0] as int + 256 * (s[1] as int) + 65536 * (s[2] as int) + 16777216 * (s[3] as int)
  }

  /** The value of a varint field of the entry. */
  function SetNumber(e: Entry, field: int, v: nat): Entry
  {
    match field
    case 1 => e.(index := v % TWO_64)
    case 2 => e.(term := v % TWO_32)
    case 3 => e.(typ := Signed32(v))
    case _ => e.(timestamp := Signed64(v))
  }

  /** One field of Entry.Unmarshal at position i, with the entry so far. */
  function Field(s: seq<byte>, i: nat, e: Entry): (r: Result<(Entry, nat)>)
    requires i < |s|
    ensures r.Ok? ==> i < r.value.1 <= |s|
  {
    match Number(s, i)
    case Err(x) => Err(x)
    case Ok((wire, j)) =>
      var field := FieldNumber(wire);
      var wireType := wire % 8;
      if wireType == 4 then Err(EndGroupForNonGroup)
      else if field <= 0 then Err(IllegalTag)
      else if field == 4 then
        if wireType != 2 then Err(WrongWireType)
        else (match Number(s, j)
          case Err(x) => Err(x)
          case Ok((v, k)) =>
            if Signed64(v) < 0 then Err(InvalidLength)
            else match Advance(k, Signed64(v))
              case Err(x) => Err(x)
              case Ok(end) => if end > |s| then Err(UnexpectedEOF) else Ok((e.(data := s[k..end]), end)))
      else if field == 99 then
        if wireType != 5 then Err(WrongWireType)
        else if j + 4 > |s| then Err(UnexpectedEOF)
        else Ok((e.(version := Word(s[j..j + 4])), j + 4))
      else if KnownField(field) then
        if wireType != 0 then Err(WrongWireType)
        else (match Number(s, j) case Err(x) => Err(x) case Ok((v, k)) => Ok((SetNumber(e, field, v), k)))
      else
        match Skip(s[i..])
        case Err(x) => Err(x)
        case Ok(n) =>
          match Advance(i, n)
          case Err(x) => Err(x)
          case Ok(end) => if end > |s| then Err(UnexpectedEOF) else Ok((e.(unknown := e.unknown + s[i..end]), end))
  }

  /** Entry.Unmarshal from position i, with the entry so far. */
  function ParseFrom(s: seq<byte>, i: nat, e: Entry): Result<Entry>
    requires i <= |s|
    decreases |s| - i
  {
    if i == |s| then Ok(e)
    else match Field(s, i, e)
      case Err(x) => Err(x)
      case Ok((e', j)) => ParseFrom(s, j, e')
  }

  function Parse(s: seq<byte>): Result<Entry>
  {
    ParseFrom(s, 0, EMPTY)
  }

  // ----- round trip -----

  /** Fields no current reader knows: a series of skippable items with other field numbers. */
  predicate Unknown(u: seq<byte>)
    decreases |u|
  {
    u == [] ||
    (match UnknownField(u)
     case Err(_) => false
     case Ok(n) => Unknown(u[n..]))
  }

  function UnknownField(u: seq<byte>): (r: Result<nat>)
    requires u != []
    ensures r.Ok? ==> 0 < r.value <= |u|
  {
    match Number(u, 0)
    case Err(x) => Err(x)
    case Ok((wire, _)) =>
      if wire % 8 == 4 || FieldNumber(wire) <= 0 || KnownField(FieldNumber(wire)) then Err(IllegalTag)
      else match Skip(u)
        case Err(x) => Err(x)
        case Ok(n) => if n <= |u| then Ok(n) else Err(UnexpectedEOF)
  }

  lemma NumberAt(s: seq<byte>, i: nat, v: nat, rest: seq<byte>)
    requires i <= |s| && s[i..] == Put(v) + rest && v < TWO_64
    ensures Number(s, i) == Ok((v, i + |Put(v)|)) && s[i + |Put(v)|..] == rest
  {
    PutLength64(v);
    RawPut(v, rest, MAX_VARINT);
    assert s[i + |Put(v)|..] == s[i..][|Put(v)|..];
  }

  /** A one-byte tag. */
  lemma TagAt(s: seq<byte>, i: nat, tag: byte, rest: seq<byte>)
    requires i < |s| && s[i..] == [tag] + rest && tag < 128
    ensures Number(s, i) == Ok((tag, i + 1)) && s[i + 1..] == rest && FieldNumber(tag) == tag / 8
  {
    assert Put(tag) == [tag];
    NumberAt(s, i, tag, rest);
  }

  lemma ParseStep(s: seq<byte>, i: nat, e: Entry, next: Entry, j: nat)
    requires i < |s| && Field(s, i, e) == Ok((next, j))
    ensures j <= |s| && ParseFrom(s, i, e) == ParseFrom(s, j, next)
  {
  }

  lemma NumberFieldStep(s: seq<byte>, i: nat, k: nat, field: nat, v: nat, e: Entry)
    requires field in {1, 2, 3, 5} && i + 1 < |s|
    requires Number(s, i) == Ok((8 * field, i + 1)) && FieldNumber(8 * field) == field && Number(s, i + 1) == Ok((v, k))
    ensures Field(s, i, e) == Ok((SetNumber(e, field, v), k))
  {
  }

  lemma VarintFieldRead(s: seq<byte>, i: nat, field: nat, v: nat, rest: seq<byte>, e: Entry, next: Entry)
    returns (j: nat)
    requires field in {1, 2, 3, 5} && v < TWO_64
    requires i <= |s| && s[i..] == VarintField(8 * field, v) + rest
    requires next == if v == 0 then e else SetNumber(e, field, v)
    ensures j <= |s| && s[j..] == rest && ParseFrom(s, i, e) == ParseFrom(s, j, next)
  {
    hide ParseFrom, Field, Number, Put, SetNumber;
    if v == 0 {
      j := i;
    } else {
      assert s[i..] == [8 * field] + (Put(v) + rest);
      TagAt(s, i, 8 * field, Put(v) + rest);
      NumberAt(s, i + 1, v, rest);
      j := i + 1 + |Put(v)|;
      NumberFieldStep(s, i, j, field, v, e);
      ParseStep(s, i, e, next, j);
    }
  }

  lemma DataFieldStep(s: seq<byte>, i: nat, k: nat, data: seq<byte>, rest: seq<byte>, e: Entry)
    requires i < |s| < MAX_SLICE && i + 1 <= k <= |s|
    requires Number(s, i) == Ok((0x22, i + 1)) && Number(s, i + 1) == Ok((|data|, k)) && s[k..] == data + rest
    ensures Field(s, i, e) == Ok((e.(data := data), k + |data|)) && s[k + |data|..] == rest
  {
    hide Number, Skip, Word, SetNumber;
    assert FieldNumber(0x22) == 4;
    assert s[k..k + |data|] == s[k..][..|data|] == data;
    assert s[k + |data|..] == s[k..][|data|..];
  }

  lemma Regroup(a: seq<byte>, b: seq<byte>, c: seq<byte>, d: seq<byte>)
    ensures a + (b + c) + d == a + (b + (c + d))
  {
  }

  lemma DataFieldRead(s: seq<byte>, i: nat, data: seq<byte>, rest: seq<byte>, e: Entry) returns (j: nat)
    requires |s| < MAX_SLICE && |data| < MAX_SLICE && e.data == []
    requires i <= |s| && s[i..] == DataField(data) + rest
    ensures j <= |s| && s[j..] == rest && ParseFrom(s, i, e) == ParseFrom(s, j, e.(data := data))
  {
    hide Field, ParseFrom, Number, Put;
    if data == [] {
      j := i;
    } else {
      Regroup([0x22], Put(|data|), data, rest);
      TagAt(s, i, 0x22, Put(|data|) + (data + rest));
      NumberAt(s, i + 1, |data|, data + rest);
      var k := i + 1 + |Put(|data|)|;
      DataFieldStep(s, i, k, data, rest, e);
      j := k + |data|;
      ParseStep(s, i, e, e.(data := data), j);
    }
  }

  lemma WordRoundTrip(word: nat)
    requires word < TWO_32
    ensures Word(LittleEndian(word)) == word
  {
    var a := word / 256;
    var b := a / 256;
    var c := b / 256;
    assert word == 256 * a + word % 256 && a == 256 * b + a % 256 && b == 256 * c + b % 256;
  }

  lemma VersionTag(s: seq<byte>, i: nat, rest: seq<byte>)
    requires i <= |s| && s[i..] == [0x9d, 0x06] + rest
    ensures Number(s, i) == Ok((797, i + 2)) && s[i + 2..] == rest && FieldNumber(797) == 99
  {
    assert Put(797) == [128 + 797 % 128] + Put(6);
    assert Put(797) == [0x9d, 0x06];
    NumberAt(s, i, 797, rest);
  }

  lemma VersionFieldRead(s: seq<byte>, i: nat, word: nat, rest: seq<byte>, e: Entry) returns (j: nat)
    requires word < TWO_32
    requires i <= |s| && s[i..] == VersionField(word) + rest
    ensures j <= |s| && s[j..] == rest
    ensures ParseFrom(s, i, e) == ParseFrom(s, j, if FloatIsZero(word) then e else e.(version := word))
  {
    if FloatIsZero(word) {
      j := i;
    } else {
      assert s[i..] == [0x9d, 0x06] + (LittleEndian(word) + rest);
      VersionTag(s, i, LittleEndian(word) + rest);
      assert s[i + 2..i + 6] == s[i + 2..][..4] == LittleEndian(word);
      assert s[i + 6..] == s[i + 2..][4..];
      WordRoundTrip(word);
      j := i + 6;
    }
  }

  lemma UnknownStep(s: seq<byte>, i: nat, e: Entry, n: nat)
    requires i < |s| < MAX_SLICE && UnknownField(s[i..]) == Ok(n)
    ensures Field(s, i, e) == Ok((e.(unknown := e.unknown + s[i..i + n]), i + n))
  {
    assert s[i..][0..] == s[i..];
  }

  lemma UnknownHead(u: seq<byte>) returns (n: nat)
    requires u != [] && Unknown(u)
    ensures UnknownField(u) == Ok(n) && 0 < n <= |u| && Unknown(u[n..])
  {
    n := UnknownField(u).value;
  }

  /** The entry with more unknown bytes. */
  function WithUnknown(e: Entry, u: seq<byte>): Entry
  {
    e.(unknown := e.unknown + u)
  }

  lemma WithUnknownTwice(e: Entry, u: seq<byte>, n: nat)
    requires n <= |u|
    ensures WithUnknown(WithUnknown(e, u[..n]), u[n..]) == WithUnknown(e, u)
  {
    assert e.unknown + u[..n] + u[n..] == e.unknown + u;
  }

  lemma UnknownParse(s: seq<byte>, i: nat, e: Entry, u: seq<byte>, n: nat)
    requires i < |s| < MAX_SLICE && s[i..] == u && UnknownField(u) == Ok(n)
    ensures ParseFrom(s, i, e) == ParseFrom(s, i + n, WithUnknown(e, u[..n]))
  {
    hide ParseFrom, Field;
    assert s[i..i + n] == u[..n];
    UnknownStep(s, i, e, n);
    ParseStep(s, i, e, WithUnknown(e, u[..n]), i + n);
  }

  /** The first of some unknown fields is read, and unknown fields are left. */
  lemma UnknownFirst(s: seq<byte>, i: nat, e: Entry, u: seq<byte>) returns (n: nat)
    requires i < |s| < MAX_SLICE && s[i..] == u && Unknown(u)
    ensures 0 < n <= |u| && Unknown(u[n..]) && s[i + n..] == u[n..]
    ensures ParseFrom(s, i, e) == ParseFrom(s, i + n, WithUnknown(e, u[..n]))
  {
    n := UnknownHead(u);
    UnknownParse(s, i, e, u, n);
    assert s[i + n..] == u[n..];
  }

  /** From i on there are only unknown fields, and they are gathered into the entry. */
  predicate Gathers(s: seq<byte>, i: nat, e: Entry, u: seq<byte>)
  {
    i <= |s| && ParseFrom(s, i, e) == Ok(WithUnknown(e, u))
  }

  lemma ParseEnd(s: seq<byte>, i: nat, e: Entry)
    requires i <= |s| && s[i..] == []
    ensures Gathers(s, i, e, [])
  {
    assert i == |s|;
    assert e.unknown + [] == e.unknown;
  }

  lemma GathersFirst(s: seq<byte>, i: nat, e: Entry, u: seq<byte>, n: nat)
    requires i + n <= |s| && n <= |u| && ParseFrom(s, i, e) == ParseFrom(s, i + n, WithUnknown(e, u[..n]))
    requires Gathers(s, i + n, WithUnknown(e, u[..n]), u[n..])
    ensures Gathers(s, i, e, u)
  {
    WithUnknownTwice(e, u, n);
  }

  /** The first of some unknown fields is read, and the rest decides. */
  lemma UnknownNext(s: seq<byte>, i: nat, e: Entry, u: seq<byte>) returns (n: nat)
    requires i < |s| < MAX_SLICE && s[i..] == u && Unknown(u)
    ensures 0 < n <= |u| && Unknown(u[n..]) && s[i + n..] == u[n..]
    ensures Gathers(s, i + n, WithUnknown(e, u[..n]), u[n..]) ==> Gathers(s, i, e, u)
  {
    n := UnknownFirst(s, i, e, u);
    if Gathers(s, i + n, WithUnknown(e, u[..n]), u[n..]) {
      GathersFirst(s, i, e, u, n);
    }
  }

  lemma {:induction false} UnknownRead(s: seq<byte>, i: nat, e: Entry, u: seq<byte>)
    requires |s| < MAX_SLICE && i <= |s| && s[i..] == u && Unknown(u)
    ensures Gathers(s, i, e, u)
    decreases |u|
  {
    hide *;
    if u == [] {
      ParseEnd(s, i, e);
    } else {
      var n := UnknownNext(s, i, e, u);
      UnknownRead(s, i + n, WithUnknown(e, u[..n]), u[n..]);
    }
  }

  /** The entry a reader gets back: as written, except that -0.0 comes back as +0.0. */
  function Canonical(e: Entry): Entry
  {
    e.(version := if FloatIsZero(e.version) then 0 else e.version)
  }

  lemma IndexRead(s: seq<byte>, i: nat, v: nat, rest: seq<byte>, e: Entry) returns (j: nat)
    requires v < TWO_64 && e.index == 0 && i <= |s| && s[i..] == VarintField(0x08, v) + rest
    ensures j <= |s| && s[j..] == rest && ParseFrom(s, i, e) == ParseFrom(s, j, e.(index := v))
  {
    j := VarintFieldRead(s, i, 1, v, rest, e, e.(index := v));
  }

  lemma TermRead(s: seq<byte>, i: nat, v: nat, rest: seq<byte>, e: Entry) returns (j: nat)
    requires v < TWO_32 && e.term == 0 && i <= |s| && s[i..] == VarintField(0x10, v) + rest
    ensures j <= |s| && s[j..] == rest && ParseFrom(s, i, e) == ParseFrom(s, j, e.(term := v))
  {
    j := VarintFieldRead(s, i, 2, v, rest, e, e.(term := v));
  }

  lemma TypeRead(s: seq<byte>, i: nat, v: int, rest: seq<byte>, e: Entry) returns (j: nat)
    requires -TWO_31 <= v < TWO_31 && e.typ == 0 && i <= |s| && s[i..] == VarintField(0x18, Unsigned64(v)) + rest
    ensures j <= |s| && s[j..] == rest && ParseFrom(s, i, e) == ParseFrom(s, j, e.(typ := v))
  {
    j := VarintFieldRead(s, i, 3, Unsigned64(v), rest, e, e.(typ := v));
  }

  lemma TimestampRead(s: seq<byte>, i: nat, v: int, rest: seq<byte>, e: Entry) returns (j: nat)
    requires -TWO_63 <= v < TWO_63 && e.timestamp == 0 && i <= |s| && s[i..] == VarintField(0x28, Unsigned64(v)) + rest
    ensures j <= |s| && s[j..] == rest && ParseFrom(s, i, e) == ParseFrom(s, j, e.(timestamp := v))
  {
    j := VarintFieldRead(s, i, 5, Unsigned64(v), rest, e, e.(timestamp := v));
  }

  /** The three leading numbers. */
  lemma NumbersRead(e: Entry, s: seq<byte>, rest: seq<byte>) returns (i: nat)
    requires InRange(e)
    requires s == VarintField(0x08, e.index)
                  + (VarintField(0x10, e.term) + (VarintField(0x18, Unsigned64(e.typ)) + rest))
    ensures i <= |s| && s[i..] == rest
    ensures ParseFrom(s, 0, EMPTY) == ParseFrom(s, i, EMPTY.(index := e.index, term := e.term, typ := e.typ))
  {
    assert s[0..] == s;
    i := IndexRead(s, 0, e.index, VarintField(0x10, e.term) + (VarintField(0x18, Unsigned64(e.typ)) + rest), EMPTY);
    i := TermRead(s, i, e.term, VarintField(0x18, Unsigned64(e.typ)) + rest, EMPTY.(index := e.index));
    i := TypeRead(s, i, e.typ, rest, EMPTY.(index := e.index, term := e.term));
  }

  lemma RoundTripCanonical(e: Entry)
    requires InRange(e) && Unknown(e.unknown) && |Encode(e)| < MAX_SLICE
    ensures Parse(Encode(e)) == Ok(Canonical(e))
  {
    hide ParseFrom, VarintField, DataField, VersionField;
    var s := Encode(e);
    var numbers := EMPTY.(index := e.index, term := e.term, typ := e.typ);
    var i := NumbersRead(e, s, DataField(e.data) + Tail(e));
    i := DataRead(e, s, i, numbers);
    i := TailRead(e, s, i, numbers.(data := e.data));
    assert WithUnknown(Canonical(e).(unknown := []), e.unknown) == Canonical(e);
    UnknownRead(s, i, Canonical(e).(unknown := []), e.unknown);
  }

  /** The encoding from the timestamp on. */
  function Tail(e: Entry): seq<byte>
    requires InRange(e)
  {
    VarintField(0x28, Unsigned64(e.timestamp)) + (VersionField(e.version) + e.unknown)
  }

  lemma DataRead(e: Entry, s: seq<byte>, i: nat, so: Entry) returns (j: nat)
    requires InRange(e) && i <= |s| < MAX_SLICE && s[i..] == DataField(e.data) + Tail(e) && so.data == []
    ensures j <= |s| && s[j..] == Tail(e)
    ensures ParseFrom(s, i, so) == ParseFrom(s, j, so.(data := e.data))
  {
    j := DataFieldRead(s, i, e.data, Tail(e), so);
  }

  lemma TailRead(e: Entry, s: seq<byte>, i: nat, so: Entry) returns (j: nat)
    requires InRange(e) && i <= |s| < MAX_SLICE && s[i..] == Tail(e)
    requires so == Canonical(e).(timestamp := 0, version := 0, unknown := [])
    ensures j <= |s| && s[j..] == e.unknown
    ensures ParseFrom(s, i, so) == ParseFrom(s, j, Canonical(e).(unknown := []))
  {
    j := TimestampRead(s, i, e.timestamp, VersionField(e.version) + e.unknown, so);
    j := VersionFieldRead(s, j, e.version, e.unknown, so.(timestamp := e.timestamp));
  }

  /** Unmarshal undoes Marshal, exactly for the versions that are not -0.0. */
  lemma {:induction false} RoundTrip(e: Entry)
    requires InRange(e) && Unknown(e.unknown) && |Encode(e)| < MAX_SLICE
    ensures Parse(Encode(e)) == Ok(e) <==> e.version != NEGATIVE_ZERO
  {
    RoundTripCanonical(e);
  }

  // ----- whatever parses, round-trips -----

  lemma NumberLocal(s: seq<byte>, i: nat, n: nat, t: seq<byte>)
    requires i <= |s| && Number(s, i).Ok? && Number(s, i).value.1 <= n <= |s|
    ensures i <= |s[..n] + t| && Number(s[..n] + t, i) == Number(s, i)
  {
    var len := Number(s, i).value.1 - i;
    RawLocal(s[i..], s[i + len..n] + t, MAX_VARINT);
    assert (s[..n] + t)[i..] == s[i..][..len] + (s[i + len..n] + t);
  }

  lemma SkipItemLocal(s: seq<byte>, i: nat, depth: nat, n: nat, t: seq<byte>)
    requires i < |s| && SkipItem(s, i, depth).Ok? && SkipItem(s, i, depth).value.0 <= n <= |s|
    ensures i < |s[..n] + t| && SkipItem(s[..n] + t, i, depth) == SkipItem(s, i, depth)
  {
    NumberLocal(s, i, n, t);
    var (wire, j) := Number(s, i).value;
    if wire % 8 == 0 || wire % 8 == 2 {
      NumberLocal(s, j, n, t);
    }
  }

  /** Skipping looks only at the bytes it skips. */
  lemma {:induction false} SkipLocal(s: seq<byte>, i: nat, depth: nat, n: nat, t: seq<byte>)
    requires SkipFrom(s, i, depth) == Ok(n) && n <= |s|
    ensures SkipFrom(s[..n] + t, i, depth) == Ok(n)
    decreases |s| - i
  {
    SkipItemLocal(s, i, depth, n, t);
    var (k, d) := SkipItem(s, i, depth).value;
    if d != 0 {
      SkipLocal(s, k, d, n, t);
    }
  }

  lemma UnknownFieldLocal(u: seq<byte>, n: nat, t: seq<byte>)
    requires u != [] && UnknownField(u) == Ok(n)
    ensures UnknownField(u[..n] + t) == Ok(n)
  {
    SkipLocal(u, 0, 0, n, t);
    SkipTag(u);
    NumberLocal(u, 0, n, t);
  }

  /** What is skipped includes its tag. */
  lemma SkipTag(u: seq<byte>)
    requires u != [] && Skip(u).Ok?
    ensures Number(u, 0).Ok? && Number(u, 0).value.1 <= Skip(u).value
  {
    var (k, d) := SkipItem(u, 0, 0).value;
    assert Number(u, 0).value.1 <= k;
  }

  /** An unknown field in front of unknown fields. */
  lemma UnknownCons(a: seq<byte>, n: nat, b: seq<byte>)
    requires a != [] && UnknownField(a) == Ok(n) && Unknown(a[n..] + b)
    ensures Unknown(a + b)
  {
    hide UnknownField;
    UnknownFieldLocal(a, n, a[n..] + b);
    assert a + b == a[..n] + (a[n..] + b);
    assert (a + b)[n..] == a[n..] + b;
  }

  lemma {:induction false} UnknownConcat(a: seq<byte>, b: seq<byte>)
    requires Unknown(a) && Unknown(b)
    ensures Unknown(a + b)
    decreases |a|
  {
    if a == [] {
      assert a + b == b;
    } else {
      var n := UnknownHead(a);
      UnknownConcat(a[n..], b);
      UnknownCons(a, n, b);
    }
  }

  lemma UnknownOne(u: seq<byte>, n: nat)
    requires u != [] && UnknownField(u) == Ok(n)
    ensures Unknown(u[..n])
  {
    UnknownFieldLocal(u, n, []);
    assert u[..n] + [] == u[..n];
    assert u[..n][n..] == [];
  }

  lemma WordInRange(s: seq<byte>)
    requires |s| == 4
    ensures 0 <= Word(s) < TWO_32
  {
  }

  lemma KnownFieldKeeps(s: seq<byte>, i: nat, e: Entry)
    requires i < |s| < MAX_SLICE && Field(s, i, e).Ok? && InRange(e)
    requires KnownField(FieldNumber(Number(s, i).value.0))
    ensures InRange(Field(s, i, e).value.0) && Field(s, i, e).value.0.unknown == e.unknown
  {
    var (wire, j) := Number(s, i).value;
    if FieldNumber(wire) == 99 {
      WordInRange(s[j..j + 4]);
    }
  }

  lemma UnknownFieldKeeps(s: seq<byte>, i: nat, e: Entry)
    requires i < |s| < MAX_SLICE && Field(s, i, e).Ok?
    requires !KnownField(FieldNumber(Number(s, i).value.0))
    ensures exists c :: Unknown(c) && Field(s, i, e).value.0 == WithUnknown(e, c)
  {
    var u := s[i..];
    assert u[0..] == u;
    var n := Skip(u).value;
    assert UnknownField(u) == Ok(n);
    UnknownOne(u, n);
    assert s[i..i + n] == u[..n];
  }

  lemma FieldKeeps(s: seq<byte>, i: nat, e: Entry)
    requires i < |s| < MAX_SLICE && Field(s, i, e).Ok? && InRange(e) && Unknown(e.unknown)
    ensures InRange(Field(s, i, e).value.0) && Unknown(Field(s, i, e).value.0.unknown)
  {
    if KnownField(FieldNumber(Number(s, i).value.0)) {
      KnownFieldKeeps(s, i, e);
    } else {
      UnknownFieldKeeps(s, i, e);
      var c :| Unknown(c) && Field(s, i, e).value.0 == WithUnknown(e, c);
      UnknownConcat(e.unknown, c);
    }
  }

  lemma {:induction false} ParseKeeps(s: seq<byte>, i: nat, e: Entry)
    requires i <= |s| < MAX_SLICE && ParseFrom(s, i, e).Ok? && InRange(e) && Unknown(e.unknown)
    ensures InRange(ParseFrom(s, i, e).value) && Unknown(ParseFrom(s, i, e).value.unknown)
    decreases |s| - i
  {
    if i < |s| {
      FieldKeeps(s, i, e);
      var (next, j) := Field(s, i, e).value;
      ParseStep(s, i, e, next, j);
      ParseKeeps(s, j, next);
    }
  }

  // ----- how long what was read is when written -----

  /** A negative type is written on ten bytes, but may have been read from five. */
  function TypCost(typ: int): int
    requires -TWO_63 <= typ < TWO_63
  {
    |VarintField(0x18, Unsigned64(typ))| - if typ < 0 then 5 else 0
  }

  /** The length of the encoding, not counting those bytes. */
  function Cost(e: Entry): int
    requires InRange(e)
  {
    |VarintField(0x08, e.index)| + |VarintField(0x10, e.term)| + TypCost(e.typ) + |DataField(e.data)|
    + |VarintField(0x28, Unsigned64(e.timestamp))| + |VersionField(e.version)| + |e.unknown|
  }

  lemma CostIsLength(e: Entry)
    requires InRange(e)
    ensures |Encode(e)| == Cost(e) + if e.typ < 0 then 5 else 0
  {
    hide VarintField, DataField, VersionField, Unsigned64;
  }

  /** A number takes at least as many bytes as its truncation is written on. */
  lemma NumberCost(s: seq<byte>, i: nat, v: nat, w: nat, tag: byte)
    requires i <= |s| && Number(s, i).Ok? && v == Number(s, i).value.0 && w <= v
    ensures |Put(w)| <= Number(s, i).value.1 - i && |VarintField(tag, w)| <= 1 + Number(s, i).value.1 - i
  {
    hide Put, Raw;
    RawLength(s[i..], MAX_VARINT);
    PutMonotone(w, v);
  }

  lemma LargeIsLong(v: nat)
    requires v >= TWO_31
    ensures |Put(v)| >= 5
  {
    assert |Put(v / 128 / 128 / 128 / 128)| >= 1;
    assert |Put(v / 128 / 128 / 128)| >= 2;
    assert |Put(v / 128 / 128)| >= 3;
    assert |Put(v / 128)| >= 4;
  }

  lemma TypNumberCost(s: seq<byte>, i: nat, v: nat)
    requires i <= |s| && Number(s, i).Ok? && v == Number(s, i).value.0
    ensures -TWO_63 <= Signed32(v) < TWO_63 && 0 <= TypCost(Signed32(v)) <= 1 + Number(s, i).value.1 - i
  {
    hide Put, Raw, Number;
    if Signed32(v) < 0 {
      LargeIsLong(v);
      NumberCost(s, i, v, v, 0x18);
      PutLength64(Unsigned64(Signed32(v)));
      LargeIsLong(Unsigned64(Signed32(v)));
    } else {
      NumberCost(s, i, v, Signed32(v), 0x18);
    }
  }

  lemma TypCostPositive(typ: int)
    requires -TWO_63 <= typ < TWO_63
    ensures TypCost(typ) >= 0
  {
    hide Put;
    if typ < 0 {
      LargeIsLong(Unsigned64(typ));
    }
  }

  /** Reading a field pays for writing it. */
  lemma FieldCost(s: seq<byte>, i: nat, e: Entry)
    requires i < |s| < MAX_SLICE && InRange(e) && Field(s, i, e).Ok? && InRange(Field(s, i, e).value.0)
    ensures Cost(Field(s, i, e).value.0) <= Cost(e) + Field(s, i, e).value.1 - i
  {
    hide Put, Raw, Number, VarintField, VersionField, TypCost, Skip, Unsigned64, Signed64, Signed32, Word, DataField;
    var (wire, j) := Number(s, i).value;
    var field := FieldNumber(wire);
    TypCostPositive(e.typ);
    if field == 4 {
      DataCost(s, j);
    } else if field == 99 {
      LongTag(s, i);
      VersionCost(Word(s[j..j + 4]));
    } else if KnownField(field) {
      KnownCost(s, j, e, field);
    }
  }

  lemma DataCost(s: seq<byte>, j: nat)
    requires j <= |s| < MAX_SLICE && Number(s, j).Ok? && 0 <= Signed64(Number(s, j).value.0)
    requires Number(s, j).value.1 + Signed64(Number(s, j).value.0) <= |s|
    ensures var (v, k) := Number(s, j).value;
            |DataField(s[k..k + Signed64(v)])| <= 1 + k + Signed64(v) - j
  {
    hide Put, Raw, Number;
    var (v, k) := Number(s, j).value;
    NumberCost(s, j, v, Signed64(v), 0x22);
  }

  lemma LongTag(s: seq<byte>, i: nat)
    requires i <= |s| && Number(s, i).Ok? && FieldNumber(Number(s, i).value.0) == 99
    ensures Number(s, i).value.1 >= i + 2
  {
    hide Raw;
    assert Put(792) == [152, 6];
    NumberCost(s, i, Number(s, i).value.0, 792, 0x08);
  }

  lemma VersionCost(word: nat)
    requires word < TWO_32
    ensures |VersionField(word)| <= 6
  {
  }

  lemma KnownCost(s: seq<byte>, j: nat, e: Entry, field: int)
    requires j <= |s| && Number(s, j).Ok? && KnownField(field) && field != 4 && field != 99 && InRange(e)
    requires InRange(SetNumber(e, field, Number(s, j).value.0))
    ensures Cost(SetNumber(e, field, Number(s, j).value.0)) <= Cost(e) + 1 + Number(s, j).value.1 - j
  {
    hide Put, Raw, Number, VarintField, VersionField, DataField, TypCost;
    var v := Number(s, j).value.0;
    TypCostPositive(e.typ);
    match field {
      case 1 => NumberCost(s, j, v, v % TWO_64, 0x08);
      case 2 => NumberCost(s, j, v, v % TWO_32, 0x10);
      case 3 => TypNumberCost(s, j, v);
      case _ => NumberCost(s, j, v, v % TWO_64, 0x28);
    }
  }

  lemma {:induction false} ParseCost(s: seq<byte>, i: nat, e: Entry)
    requires i <= |s| < MAX_SLICE && ParseFrom(s, i, e).Ok? && InRange(e) && Unknown(e.unknown)
    ensures InRange(ParseFrom(s, i, e).value) && Cost(ParseFrom(s, i, e).value) <= Cost(e) + |s| - i
    decreases |s| - i
  {
    hide Field, Cost, Unknown;
    if i < |s| {
      FieldKeeps(s, i, e);
      FieldCost(s, i, e);
      var (next, j) := Field(s, i, e).value;
      ParseStep(s, i, e, next, j);
      ParseCost(s, j, next);
    }
  }

  /** What was read is at most five bytes longer when written again. */
  lemma ReadLength(s: seq<byte>)
    requires |s| < MAX_SLICE && Parse(s).Ok?
    ensures InRange(Parse(s).value) && |Encode(Parse(s).value)| <= |s| + 5
  {
    assert Cost(EMPTY) == 0;
    hide ParseFrom, Cost, Encode;
    ParseCost(s, 0, EMPTY);
    CostIsLength(Parse(s).value);
  }

  /** Any entry read from any bytes, unknown fields included, survives being written and
      read again; only within five bytes of the largest slice it may not fit one. */
  lemma Reparse(s: seq<byte>)
    requires |s| < MAX_SLICE && Parse(s).Ok?
    ensures InRange(Parse(s).value) && |Encode(Parse(s).value)| <= |s| + 5
    ensures |Encode(Parse(s).value)| < MAX_SLICE ==> Parse(Encode(Parse(s).value)) == Ok(Canonical(Parse(s).value))
  {
    ParseKeeps(s, 0, EMPTY);
    ReadLength(s);
    var e := Parse(s).value;
    if |Encode(e)| < MAX_SLICE {
      RoundTripCanonical(e);
    }
  }
}
