/** The protobuf wire format by itself, without a parser: items, the bytes they are written on,
    and what they make of an entry. The skipper and the parser of EntryCodec accept exactly
    these bytes and read exactly this meaning. */
module WireFormat {
  import opened Varint
  import opened EntryCodec

  // ----- numbers -----

  /** A number as it may be written, not only on the fewest bytes. */
  predicate IsVarint(b: seq<byte>)
  {
    1 <= |b| <= 10 && b[|b| - 1] < 128 && forall i :: 0 <= i < |b| - 1 ==> b[i] >= 128
  }

  /** Seven bits of each byte, the lowest first. */
  function Value(b: seq<byte>): nat
  {
    if b == [] then 0 else b[0] % 128 + 128 * Value(b[1..])
  }

  /** Bytes, the lowest first. */
  function Little(b: seq<byte>): nat
  {
    if b == [] then 0 else b[0] + 256 * Little(b[1..])
  }

  /** What is read where such a number is written, ... */
  lemma {:induction false} RawReads(b: seq<byte>, rest: seq<byte>, limit: nat)
    requires IsVarint(b) && |b| <= limit
    ensures Raw(b + rest, limit) == Done(Value(b), |b|)
  {
    if |b| == 1 {
      assert Value(b[1..]) == 0;
    } else {
      RawReads(b[1..], rest, limit - 1);
      assert (b + rest)[1..] == b[1..] + rest;
    }
  }

  /** ... and nothing else is read as one. */
  lemma {:induction false} RawWritten(s: seq<byte>, limit: nat)
    requires Raw(s, limit).Done? && limit <= 10
    ensures IsVarint(s[..Raw(s, limit).len]) && Value(s[..Raw(s, limit).len]) == Raw(s, limit).value
  {
    if s[0] < 128 {
      assert s[..1][1..] == [];
    } else {
      RawWritten(s[1..], limit - 1);
      var n := Raw(s, limit).len;
      assert s[..n][1..] == s[1..][..n - 1];
    }
  }

  lemma NumberReads(s: seq<byte>, i: nat, b: seq<byte>, rest: seq<byte>)
    requires i <= |s| && s[i..] == b + rest && IsVarint(b)
    ensures Number(s, i) == Ok((Value(b), i + |b|))
    ensures i + |b| <= |s| && s[i + |b|..] == rest
  {
    Reads(s, i, b + rest, b, rest);
    Dropped(s, i, b, rest);
  }

  lemma Reads(s: seq<byte>, i: nat, t: seq<byte>, b: seq<byte>, rest: seq<byte>)
    requires i <= |s| && s[i..] == t && IsVarint(b) && t == b + rest
    ensures Number(s, i) == Ok((Value(b), i + |b|))
  {
    RawReads(b, rest, MAX_VARINT);
  }

  lemma Dropped(s: seq<byte>, i: nat, a: seq<byte>, rest: seq<byte>)
    requires i <= |s| && s[i..] == a + rest
    ensures i + |a| <= |s| && s[i + |a|..] == rest
  {
    assert |s[i..]| == |a| + |rest|;
    assert s[i + |a|..] == s[i..][|a|..];
  }

  lemma Taken(s: seq<byte>, i: nat, a: seq<byte>, rest: seq<byte>)
    requires i <= |s| && s[i..] == a + rest
    ensures i + |a| <= |s| && s[i..i + |a|] == a
  {
    assert |s[i..]| == |a| + |rest|;
    assert s[i..i + |a|] == s[i..][..|a|];
  }

  lemma NumberWritten(s: seq<byte>, i: nat) returns (b: seq<byte>)
    requires i <= |s| && Number(s, i).Ok?
    ensures b == s[i..Number(s, i).value.1] && IsVarint(b)
    ensures Number(s, i) == Ok((Value(b), i + |b|)) && s[i..] == b + s[i + |b|..]
  {
    RawWritten(s[i..], MAX_VARINT);
    b := s[i..Number(s, i).value.1];
    assert b == s[i..][..|b|];
  }

  // ----- items -----

  datatype Item =
    | Num(tag: seq<byte>, digits: seq<byte>)
    | Eight(tag: seq<byte>, bytes: seq<byte>)
    | Block(tag: seq<byte>, length: seq<byte>, payload: seq<byte>)
    | Group(tag: seq<byte>, items: Items, end: seq<byte>)
    | Four(tag: seq<byte>, bytes: seq<byte>)

  datatype Items = Nothing | Then(first: Item, rest: Items)

  /** The lowest three bits of a tag. */
  function WireType(item: Item): nat
  {
    match item
    case Num(_, _) => 0
    case Eight(_, _) => 1
    case Block(_, _, _) => 2
    case Group(_, _, _) => 3
    case Four(_, _) => 5
  }

  predicate Good(item: Item)
  {
    && IsVarint(item.tag) && item.tag[0] % 8 == WireType(item)
    && match item
       case Num(_, digits) => IsVarint(digits)
       case Eight(_, bytes) => |bytes| == 8
       case Block(_, length, payload) => IsVarint(length) && Value(length) % TWO_64 == |payload|
       case Group(_, items, end) => AllGood(items) && IsVarint(end) && end[0] % 8 == 4
       case Four(_, bytes) => |bytes| == 4
  }

  predicate AllGood(items: Items)
  {
    items.Then? ==> Good(items.first) && AllGood(items.rest)
  }

  /** The bytes of an item: a block includes its payload, a group all it holds and its end. */
  function Wire(item: Item): seq<byte>
  {
    item.tag +
    match item
    case Num(_, digits) => digits
    case Eight(_, bytes) => bytes
    case Block(_, length, payload) => length + payload
    case Group(_, items, end) => WireAll(items) + end
    case Four(_, bytes) => bytes
  }

  function WireAll(items: Items): seq<byte>
  {
    match items
    case Nothing => []
    case Then(first, rest) => Wire(first) + WireAll(rest)
  }

  lemma TagType(b: seq<byte>)
    requires IsVarint(b)
    ensures Value(b) % 8 == b[0] % 8
  {
    assert Value(b) == b[0] % 128 + 128 * Value(b[1..]);
  }

  // ----- skipping -----

  /** Where the loop of the skipper stands after reading some bytes at a depth. */
  function Onward(s: seq<byte>, i: nat, depth: nat): Result<nat>
  {
    if depth == 0 then Ok(i) else SkipFrom(s, i, depth)
  }

  /** The loop reads a tag and what follows it directly. */
  lemma SkipTagged(s: seq<byte>, i: nat, depth: nat, tag: seq<byte>, rest: seq<byte>)
    requires i <= |s| && s[i..] == tag + rest && IsVarint(tag)
    ensures i < |s| && s[i + |tag|..] == rest && i + |tag| <= |s| && Value(tag) % 8 == tag[0] % 8
    ensures SkipFrom(s, i, depth) ==
            match SkipBody(s, i + |tag|, tag[0] % 8, depth)
            case Err(e) => Err(e)
            case Ok((k, d)) => Onward(s, k, d)
  {
    hide Number, Value, SkipBody;
    NumberReads(s, i, tag, rest);
    Dropped(s, i, tag, rest);
    TagType(tag);
  }

  lemma Regrouped(a: seq<byte>, b: seq<byte>, c: seq<byte>)
    ensures a + b + c == a + (b + c)
  {
  }

  /** An item in front of any bytes: exactly its bytes are skipped, at every depth. */
  lemma {:induction false} SkipsItem(s: seq<byte>, i: nat, depth: nat, item: Item, rest: seq<byte>)
    requires Good(item) && i <= |s| < TWO_63 && s[i..] == Wire(item) + rest
    ensures i + |Wire(item)| <= |s| && s[i + |Wire(item)|..] == rest
    ensures SkipFrom(s, i, depth) == Onward(s, i + |Wire(item)|, depth)
    decreases item
  {
    hide SkipFrom, SkipBody, Onward, Number;
    var body := Wire(item)[|item.tag|..];
    assert Wire(item) == item.tag + body;
    Regrouped(item.tag, body, rest);
    SkipTagged(s, i, depth, item.tag, body + rest);
    assert s[i + |Wire(item)|..] == s[i..][|Wire(item)|..];
    if item.Group? {
      SkipsGroup(s, i + |item.tag|, depth, item, rest);
    } else {
      SkipsPlain(s, i + |item.tag|, depth, item, rest);
    }
  }

  lemma SkipsPlain(s: seq<byte>, j: nat, depth: nat, item: Item, rest: seq<byte>)
    requires Good(item) && !item.Group? && j <= |s| < TWO_63 && s[j..] == Wire(item)[|item.tag|..] + rest
    ensures SkipBody(s, j, WireType(item), depth) == Ok((j + |Wire(item)| - |item.tag|, depth))
  {
    match item {
      case Num(_, digits) =>
        assert Wire(item)[|item.tag|..] == digits;
        NumberReads(s, j, digits, rest);
      case Block(_, length, payload) =>
        assert Wire(item)[|item.tag|..] == length + payload;
        Regrouped(length, payload, rest);
        NumberReads(s, j, length, payload + rest);
      case _ =>
    }
  }

  lemma {:induction false} SkipsGroup(s: seq<byte>, j: nat, depth: nat, item: Item, rest: seq<byte>)
    requires Good(item) && item.Group? && j <= |s| < TWO_63 && s[j..] == Wire(item)[|item.tag|..] + rest
    ensures SkipBody(s, j, 3, depth) == Ok((j, depth + 1))
    ensures Onward(s, j, depth + 1) == Onward(s, j + |Wire(item)| - |item.tag|, depth)
    decreases item, 0
  {
    hide SkipFrom, Number;
    var inside := WireAll(item.items);
    assert Wire(item)[|item.tag|..] == inside + item.end;
    Regrouped(inside, item.end, rest);
    SkipsAll(s, j, depth + 1, item.items, item.end + rest);
    SkipTagged(s, j + |inside|, depth + 1, item.end, rest);
  }

  /** Items inside a group. */
  lemma {:induction false} SkipsAll(s: seq<byte>, i: nat, depth: nat, items: Items, rest: seq<byte>)
    requires AllGood(items) && i <= |s| < TWO_63 && s[i..] == WireAll(items) + rest && depth > 0
    ensures i + |WireAll(items)| <= |s| && s[i + |WireAll(items)|..] == rest
    ensures SkipFrom(s, i, depth) == SkipFrom(s, i + |WireAll(items)|, depth)
    decreases items
  {
    hide SkipFrom, Wire, Good;
    if items.Then? {
      Regrouped(Wire(items.first), WireAll(items.rest), rest);
      SkipsItem(s, i, depth, items.first, WireAll(items.rest) + rest);
      SkipsAll(s, i + |Wire(items.first)|, depth, items.rest, rest);
    } else {
      assert WireAll(items) + rest == rest;
    }
  }

  // ----- what was skipped -----

  /** The item behind a tag that opens and closes nothing. */
  lemma PlainWritten(s: seq<byte>, i: nat, tag: seq<byte>, depth: nat, k: nat) returns (item: Item)
    requires IsVarint(tag) && i + |tag| <= |s| < TWO_63 && s[i..] == tag + s[i + |tag|..]
    requires tag[0] % 8 != 3 && tag[0] % 8 != 4
    requires SkipBody(s, i + |tag|, tag[0] % 8, depth) == Ok((k, depth)) && k <= |s|
    ensures Good(item) && item.tag == tag && i + |tag| <= k && Wire(item) == s[i..k]
  {
    hide Value, IsVarint, Number;
    var j := i + |tag|;
    VarintLength(tag);
    Taken(s, i, tag, s[j..]);
    Joined(s, i, j, k);
    match tag[0] % 8 {
      case 0 =>
        var b := NumberWritten(s, j);
        item := Num(tag, b);
      case 1 => item := Eight(tag, s[j..k]);
      case 2 =>
        var b := NumberWritten(s, j);
        assert s[j..k] == b + s[j + |b|..k];
        item := Block(tag, b, s[j + |b|..k]);
      case _ => item := Four(tag, s[j..k]);
    }
  }

  /** A step of the loop that succeeds. */
  lemma Stepped(s: seq<byte>, i: nat, depth: nat, n: nat) returns (tag: seq<byte>, k: nat, d: nat)
    requires i <= |s| < TWO_63 && SkipFrom(s, i, depth) == Ok(n)
    ensures IsVarint(tag) && i + |tag| <= |s| && s[i..] == tag + s[i + |tag|..] && i + |tag| <= k <= n
    ensures SkipBody(s, i + |tag|, tag[0] % 8, depth) == Ok((k, d)) && Onward(s, k, d) == Ok(n)
  {
    hide Value, IsVarint;
    tag := NumberWritten(s, i);
    TagType(tag);
    var r := SkipItem(s, i, depth).value;
    k, d := r.0, r.1;
  }

  lemma Joined(s: seq<byte>, i: nat, j: nat, k: nat)
    requires i <= j <= k <= |s|
    ensures s[i..k] == s[i..j] + s[j..k]
  {
  }

  /** What the loop reads up to the end of an open group: items, and the end. */
  lemma {:induction false} Closes(s: seq<byte>, i: nat, depth: nat, n: nat)
    returns (items: Items, end: seq<byte>, k: nat)
    requires i <= |s| < TWO_63 && depth > 0 && SkipFrom(s, i, depth) == Ok(n) && n <= |s|
    ensures AllGood(items) && IsVarint(end) && end[0] % 8 == 4
    ensures i < k <= n && s[i..k] == WireAll(items) + end && Onward(s, k, depth - 1) == Ok(n)
    decreases |s| - i
  {
    hide SkipFrom, IsVarint;
    var tag, at, d := Stepped(s, i, depth, n);
    var j := i + |tag|;
    VarintLength(tag);
    assert s[i..j] == s[i..][..|tag|] == tag;
    if tag[0] % 8 == 4 {
      items, end, k := Nothing, tag, j;
    } else {
      var item, next;
      if tag[0] % 8 == 3 {
        var inner, inner', k' := Closes(s, j, depth + 1, n);
        item, next := Group(tag, inner, inner'), k';
        Joined(s, i, j, k');
      } else {
        item := PlainWritten(s, i, tag, depth, at);
        next := at;
      }
      var rest;
      rest, end, k := Closes(s, next, depth, n);
      items := Then(item, rest);
      Joined(s, i, next, k);
      Regrouped(Wire(item), WireAll(rest), end);
    }
  }

  lemma VarintLength(b: seq<byte>)
    requires IsVarint(b)
    ensures |b| > 0
  {
  }

  lemma Skipped(s: seq<byte>, n: nat) returns (item: Item)
    requires |s| < TWO_63 && Skip(s) == Ok(n) && n <= |s|
    ensures Good(item) && Wire(item) == s[..n]
  {
    hide SkipFrom, IsVarint;
    var tag, at, d := Stepped(s, 0, 0, n);
    VarintLength(tag);
    assert s[0..] == s && s[..|tag|] == tag;
    if tag[0] % 8 == 3 {
      var items, end, k := Closes(s, |tag|, 1, n);
      item := Group(tag, items, end);
      Joined(s, 0, |tag|, n);
    } else {
      item := PlainWritten(s, 0, tag, 0, at);
    }
    assert s[0..n] == s[..n];
  }

  /** The skipper skips an item, the whole of it and nothing else. */
  lemma SkipIff(s: seq<byte>, n: nat)
    requires n <= |s| < TWO_63
    ensures Skip(s) == Ok(n) <==> exists item :: Good(item) && Wire(item) == s[..n]
  {
    if Skip(s) == Ok(n) {
      var item := Skipped(s, n);
    }
    if item :| Good(item) && Wire(item) == s[..n] {
      assert s[0..] == s == Wire(item) + s[n..];
      SkipsItem(s, 0, 0, item, s[n..]);
    }
  }

  // ----- what a message means -----

  /** The number a tag is for, on 32 bits. */
  function FieldOf(item: Item): int
  {
    Signed32(Value(item.tag) % TWO_64 / 8)
  }

  /** What an item does to an entry. A later field replaces an earlier one; the bytes of a field
      that is not the entry's own are kept whole. */
  function Took(e: Entry, item: Item): Result<Entry>
  {
    match FieldOf(item)
    case 1 => if item.Num? then Ok(e.(index := Value(item.digits) % TWO_64)) else Err(WrongWireType)
    case 2 => if item.Num? then Ok(e.(term := Value(item.digits) % TWO_32)) else Err(WrongWireType)
    case 3 => if item.Num? then Ok(e.(typ := Signed32(Value(item.digits)))) else Err(WrongWireType)
    case 4 => if item.Block? then Ok(e.(data := item.payload)) else Err(WrongWireType)
    case 5 => if item.Num? then Ok(e.(timestamp := Signed64(Value(item.digits)))) else Err(WrongWireType)
    case 99 => if item.Four? then Ok(e.(version := Little(item.bytes))) else Err(WrongWireType)
    case n => if n <= 0 then Err(IllegalTag) else Ok(e.(unknown := e.unknown + Wire(item)))
  }

  function TookAll(e: Entry, items: Items): Result<Entry>
    decreases items
  {
    match items
    case Nothing => Ok(e)
    case Then(first, rest) =>
      match Took(e, first)
      case Err(x) => Err(x)
      case Ok(next) => TookAll(next, rest)
  }

  lemma LittleWord(b: seq<byte>)
    requires |b| == 4
    ensures Little(b) == Word(b)
  {
    assert b[1..][1..] == b[2..] && b[2..][1..] == b[3..] && b[3..][1..] == [];
    assert Little(b[3..]) == b[3];
    assert Little(b[2..]) == b[2] as int + 256 * (b[3] as int);
    assert Little(b[1..]) == b[1] as int + 256 * (b[2] as int + 256 * (b[3] as int));
  }

  /** The parser at a tag. */
  lemma FieldTagged(s: seq<byte>, i: nat, tag: seq<byte>, rest: seq<byte>)
    requires i <= |s| && s[i..] == tag + rest && IsVarint(tag)
    ensures i + |tag| <= |s| && s[i + |tag|..] == rest && |tag| > 0
    ensures Number(s, i) == Ok((Value(tag), i + |tag|)) && Value(tag) % 8 == tag[0] % 8
  {
    NumberReads(s, i, tag, rest);
    TagType(tag);
  }

  /** The parser takes from an item what the item means. */
  lemma FieldTakes(s: seq<byte>, i: nat, e: Entry, item: Item, rest: seq<byte>)
    requires Good(item) && i <= |s| < MAX_SLICE && s[i..] == Wire(item) + rest
    ensures i < i + |Wire(item)| <= |s| && s[i + |Wire(item)|..] == rest
    ensures Field(s, i, e) ==
            match Took(e, item) case Err(x) => Err(x) case Ok(next) => Ok((next, i + |Wire(item)|))
  {
    hide Field, Took, Wire, Number, Skip;
    TagOf(item);
    Dropped(s, i, Wire(item), rest);
    FieldTaken(s, i, e, item, rest);
  }

  lemma TagOf(item: Item)
    requires Good(item)
    ensures |item.tag| > 0 && |Wire(item)| > 0 && item.tag <= Wire(item)
  {
  }

  lemma FieldTaken(s: seq<byte>, i: nat, e: Entry, item: Item, rest: seq<byte>)
    requires Good(item) && i < |s| < MAX_SLICE && s[i..] == Wire(item) + rest
    ensures Field(s, i, e) ==
            match Took(e, item) case Err(x) => Err(x) case Ok(next) => Ok((next, i + |Wire(item)|))
  {
    hide Field, Took, Number, Skip;
    var body := Wire(item)[|item.tag|..];
    assert Wire(item) == item.tag + body;
    Regrouped(item.tag, body, rest);
    FieldTagged(s, i, item.tag, body + rest);
    if KnownField(FieldOf(item)) {
      KnownTaken(s, i, e, item, rest);
    } else if FieldOf(item) > 0 {
      ForeignTaken(s, i, e, item, rest);
    } else {
      NothingTaken(s, i, e, item);
    }
  }

  lemma NothingTaken(s: seq<byte>, i: nat, e: Entry, item: Item)
    requires Good(item) && i < |s| && FieldOf(item) <= 0 && Number(s, i) == Ok((Value(item.tag), i + |item.tag|))
    requires Value(item.tag) % 8 == item.tag[0] % 8
    ensures Field(s, i, e) == Err(IllegalTag) && Took(e, item) == Err(IllegalTag)
  {
    hide Number, Skip;
  }

  lemma ForeignTaken(s: seq<byte>, i: nat, e: Entry, item: Item, rest: seq<byte>)
    requires Good(item) && i < |s| < MAX_SLICE && s[i..] == Wire(item) + rest
    requires FieldOf(item) > 0 && !KnownField(FieldOf(item))
    requires Number(s, i) == Ok((Value(item.tag), i + |item.tag|)) && Value(item.tag) % 8 == item.tag[0] % 8
    ensures Took(e, item).Ok? && Field(s, i, e) == Ok((Took(e, item).value, i + |Wire(item)|))
  {
    hide Number, SkipFrom, Wire, Value;
    var u := s[i..];
    assert u[0..] == u;
    SkipsItem(u, 0, 0, item, rest);
    Taken(s, i, Wire(item), rest);
  }

  lemma KnownTaken(s: seq<byte>, i: nat, e: Entry, item: Item, rest: seq<byte>)
    requires Good(item) && i < |s| < MAX_SLICE && KnownField(FieldOf(item))
    requires i + |item.tag| <= |s| && s[i + |item.tag|..] == Wire(item)[|item.tag|..] + rest
    requires Number(s, i) == Ok((Value(item.tag), i + |item.tag|)) && Value(item.tag) % 8 == item.tag[0] % 8
    ensures Field(s, i, e) ==
            match Took(e, item) case Err(x) => Err(x) case Ok(next) => Ok((next, i + |Wire(item)|))
  {
    hide Number, Skip, Value, IsVarint, Word, Little;
    var j := i + |item.tag|;
    match item {
      case Num(_, digits) =>
        assert Wire(item)[|item.tag|..] == digits;
        NumberReads(s, j, digits, rest);
      case Block(_, length, payload) =>
        assert Wire(item)[|item.tag|..] == length + payload;
        Regrouped(length, payload, rest);
        NumberReads(s, j, length, payload + rest);
        Taken(s, j + |length|, payload, rest);
      case Four(_, bytes) =>
        assert Wire(item)[|item.tag|..] == bytes;
        Taken(s, j, bytes, rest);
        LittleWord(bytes);
      case _ =>
    }
  }

  /** Parsing the bytes of a message gives its meaning. */
  lemma {:induction false} ParseTakes(s: seq<byte>, i: nat, e: Entry, items: Items)
    requires AllGood(items) && i <= |s| < MAX_SLICE && s[i..] == WireAll(items)
    ensures ParseFrom(s, i, e) == TookAll(e, items)
    decreases items
  {
    hide Field, Took, Wire, Good;
    if items.Then? {
      FieldTakes(s, i, e, items.first, WireAll(items.rest));
      if Took(e, items.first).Ok? {
        ParseTakes(s, i + |Wire(items.first)|, Took(e, items.first).value, items.rest);
      }
    } else {
      assert i == |s|;
    }
  }

  /** A field that is read was written as an item. */
  lemma FieldWritten(s: seq<byte>, i: nat, e: Entry) returns (item: Item)
    requires i < |s| < MAX_SLICE && Field(s, i, e).Ok?
    ensures Good(item) && Wire(item) == s[i..Field(s, i, e).value.1]
  {
    hide Value, IsVarint, Word, Good, Wire;
    var tag := NumberWritten(s, i);
    TagType(tag);
    VarintLength(tag);
    var k := Field(s, i, e).value.1;
    if KnownField(FieldNumber(Value(tag))) {
      item := KnownWritten(s, i, e, tag);
    } else {
      item := Skipped(s[i..], k - i);
      assert s[i..][..k - i] == s[i..k];
    }
  }

  lemma KnownWritten(s: seq<byte>, i: nat, e: Entry, tag: seq<byte>) returns (item: Item)
    requires i < |s| < MAX_SLICE && Field(s, i, e).Ok? && IsVarint(tag) && KnownField(FieldNumber(Value(tag)))
    requires Number(s, i) == Ok((Value(tag), i + |tag|)) && Value(tag) % 8 == tag[0] % 8
    requires i + |tag| <= |s| && s[i..] == tag + s[i + |tag|..]
    ensures Good(item) && Wire(item) == s[i..Field(s, i, e).value.1]
  {
    hide Value, IsVarint, Word, Number, Skip;
    var j, k := i + |tag|, Field(s, i, e).value.1;
    Taken(s, i, tag, s[j..]);
    Joined(s, i, j, k);
    if FieldNumber(Value(tag)) == 4 {
      var b := NumberWritten(s, j);
      Joined(s, j, j + |b|, k);
      item := Block(tag, b, s[j + |b|..k]);
    } else if FieldNumber(Value(tag)) == 99 {
      item := Four(tag, s[j..k]);
    } else {
      var b := NumberWritten(s, j);
      item := Num(tag, b);
    }
  }

  lemma {:induction false} ParseWritten(s: seq<byte>, i: nat, e: Entry) returns (items: Items)
    requires i <= |s| < MAX_SLICE && ParseFrom(s, i, e).Ok?
    ensures AllGood(items) && s[i..] == WireAll(items)
    decreases |s| - i
  {
    hide Field, Wire, Good;
    if i == |s| {
      items := Nothing;
    } else {
      var (next, j) := Field(s, i, e).value;
      ParseStep(s, i, e, next, j);
      var item := FieldWritten(s, i, e);
      var rest := ParseWritten(s, j, next);
      items := Then(item, rest);
      assert s[i..] == s[i..j] + s[j..];
    }
  }

  /** The parser of entries: a byte string is read as an entry exactly when it is the bytes of
      a message that means this entry. */
  lemma ParseIff(s: seq<byte>, e: Entry)
    requires |s| < MAX_SLICE
    ensures Parse(s) == Ok(e) <==>
              exists items :: AllGood(items) && WireAll(items) == s && TookAll(EMPTY, items) == Ok(e)
  {
    hide ParseFrom, AllGood, WireAll, TookAll;
    assert s[0..] == s;
    if Parse(s) == Ok(e) {
      var items := ParseWritten(s, 0, EMPTY);
      ParseTakes(s, 0, EMPTY, items);
    }
    if items :| AllGood(items) && WireAll(items) == s && TookAll(EMPTY, items) == Ok(e) {
      ParseTakes(s, 0, EMPTY, items);
    }
  }

  // ----- fields of others -----

  /** Items that are not the entry's own. */
  predicate Foreign(items: Items)
  {
    items.Then? ==>
      && Good(items.first) && FieldOf(items.first) > 0 && !KnownField(FieldOf(items.first)) && Foreign(items.rest)
  }

  function Append(a: Items, b: Items): Items
  {
    match a
    case Nothing => b
    case Then(first, rest) => Then(first, Append(rest, b))
  }

  lemma {:induction false} AppendWire(a: Items, b: Items)
    requires AllGood(a) && AllGood(b)
    ensures AllGood(Append(a, b)) && WireAll(Append(a, b)) == WireAll(a) + WireAll(b)
  {
    hide Good, Wire;
    if a.Then? {
      AppendWire(a.rest, b);
      Regrouped(Wire(a.first), WireAll(a.rest), WireAll(b));
    }
  }

  lemma {:induction false} AppendTakes(e: Entry, a: Items, b: Items)
    requires TookAll(e, a).Ok?
    ensures TookAll(e, Append(a, b)) == TookAll(TookAll(e, a).value, b)
    decreases a
  {
    hide Took;
    if a.Then? {
      AppendTakes(Took(e, a.first).value, a.rest, b);
    }
  }

  lemma {:induction false} ForeignTakes(e: Entry, items: Items)
    requires Foreign(items)
    ensures AllGood(items) && TookAll(e, items) == Ok(e.(unknown := e.unknown + WireAll(items)))
    decreases items
  {
    hide Good, Wire, FieldOf;
    if items.Then? {
      var next := e.(unknown := e.unknown + Wire(items.first));
      ForeignTakes(next, items.rest);
      Regrouped(e.unknown, Wire(items.first), WireAll(items.rest));
    } else {
      assert e.unknown + [] == e.unknown;
    }
  }

  /** An entry followed by any items of others, nested groups included: the entry is read as
      written, and exactly the bytes of those items are kept. */
  lemma EntryThenItems(e: Entry, items: Items)
    requires InRange(e) && e.unknown == [] && Foreign(items) && |Encode(e) + WireAll(items)| < MAX_SLICE
    ensures Parse(Encode(e) + WireAll(items)) == Ok(Canonical(e).(unknown := WireAll(items)))
  {
    hide ParseFrom, WireAll, AllGood, TookAll, Foreign, Encode;
    var own, s := Encode(e), Encode(e) + WireAll(items);
    assert own[0..] == own && s[0..] == s;
    RoundTripCanonical(e);
    var fields := ParseWritten(own, 0, EMPTY);
    ParseTakes(own, 0, EMPTY, fields);
    ForeignTakes(Canonical(e), items);
    AppendWire(fields, items);
    AppendTakes(EMPTY, fields, items);
    ParseTakes(s, 0, EMPTY, Append(fields, items));
    assert [] + WireAll(items) == WireAll(items);
  }

  lemma ForeignFirst(u: seq<byte>, n: nat) returns (item: Item)
    requires u != [] && |u| < TWO_63 && UnknownField(u) == Ok(n)
    ensures Good(item) && FieldOf(item) > 0 && !KnownField(FieldOf(item)) && Wire(item) == u[..n]
  {
    hide SkipFrom, Value, IsVarint, Good, Wire;
    item := Skipped(u, n);
    assert u[0..] == u == Wire(item) + u[n..];
    TagOf(item);
    TagOfPart(u, item);
  }

  lemma TagOfPart(u: seq<byte>, item: Item)
    requires Good(item) && Wire(item) <= u
    ensures u != [] && Number(u, 0) == Ok((Value(item.tag), |item.tag|))
  {
    hide Number, Value;
    TagOf(item);
    assert u[0..] == u == item.tag + u[|item.tag|..];
    NumberReads(u, 0, item.tag, u[|item.tag|..]);
  }

  lemma {:induction false} UnknownWritten(u: seq<byte>) returns (items: Items)
    requires |u| < TWO_63 && Unknown(u)
    ensures Foreign(items) && WireAll(items) == u
    decreases |u|
  {
    hide UnknownField, Good, Wire, FieldOf;
    if u == [] {
      items := Nothing;
    } else {
      var n := UnknownHead(u);
      var first := ForeignFirst(u, n);
      var rest := UnknownWritten(u[n..]);
      items := Then(first, rest);
    }
  }

  lemma {:induction false} UnknownOfItems(items: Items)
    requires Foreign(items) && |WireAll(items)| < TWO_63
    ensures Unknown(WireAll(items))
    decreases items
  {
    hide Good, Wire, SkipFrom, Number, Value;
    if items.Then? {
      var u := WireAll(items);
      UnknownOfItems(items.rest);
      TagOf(items.first);
      assert u[0..] == u && Wire(items.first) <= u;
      TagOfPart(u, items.first);
      TagTypeOf(items.first);
      SkipsItem(u, 0, 0, items.first, WireAll(items.rest));
      assert u[|Wire(items.first)|..] == WireAll(items.rest);
    }
  }

  lemma TagTypeOf(item: Item)
    requires Good(item)
    ensures Value(item.tag) % 8 != 4
  {
    TagType(item.tag);
  }

  /** The unknown fields of the round trip are the bytes of items of others. */
  lemma UnknownIff(u: seq<byte>)
    requires |u| < TWO_63
    ensures Unknown(u) <==> exists items :: Foreign(items) && WireAll(items) == u
  {
    if Unknown(u) {
      var items := UnknownWritten(u);
    }
    if items :| Foreign(items) && WireAll(items) == u {
      UnknownOfItems(items);
    }
  }

  // ----- for the loops -----

  lemma SkipMeans(s: seq<byte>)
    requires |s| < TWO_63
    ensures forall item :: Good(item) && Wire(item) <= s ==> Skip(s) == Ok(|Wire(item)|)
    ensures Skip(s).Ok? && Skip(s).value <= |s| ==> exists item :: Good(item) && Wire(item) == s[..Skip(s).value]
  {
    hide Good, Wire, Skip;
    forall item | Good(item) && Wire(item) <= s ensures Skip(s) == Ok(|Wire(item)|) {
      assert s[..|Wire(item)|] == Wire(item);
      SkipIff(s, |Wire(item)|);
    }
    if Skip(s).Ok? && Skip(s).value <= |s| {
      SkipIff(s, Skip(s).value);
    }
  }

  lemma ParseMeans(s: seq<byte>)
    requires |s| < MAX_SLICE
    ensures forall items :: AllGood(items) && WireAll(items) == s ==> Parse(s) == TookAll(EMPTY, items)
    ensures Parse(s).Ok? ==> exists items :: AllGood(items) && WireAll(items) == s && Parse(s) == TookAll(EMPTY, items)
  {
    hide ParseFrom, AllGood, WireAll, TookAll;
    assert s[0..] == s;
    forall items | AllGood(items) && WireAll(items) == s ensures Parse(s) == TookAll(EMPTY, items) {
      ParseTakes(s, 0, EMPTY, items);
    }
    if Parse(s).Ok? {
      ParseIff(s, Parse(s).value);
    }
  }

  // ----- samples -----

  /** An unknown string is kept with its payload, which is not read as fields. */
  lemma {:induction false} UnknownStringKept()
    ensures Parse([0x32, 2, 8, 5]) == Ok(EMPTY.(unknown := [0x32, 2, 8, 5]))
  {
    hide ParseFrom, Encode;
    var items := Then(Block([0x32], [2], [8, 5]), Nothing);
    StringItem(items);
    EmptyBytes();
    EntryThenItems(EMPTY, items);
    assert [] + WireAll(items) == WireAll(items);
  }

  lemma StringItem(items: Items)
    requires items == Then(Block([0x32], [2], [8, 5]), Nothing)
    ensures Foreign(items) && WireAll(items) == [0x32, 2, 8, 5]
  {
    assert Value([0x32]) == 50 && Value([2]) == 2;
    assert Wire(items.first) == [0x32] + ([2] + [8, 5]);
    assert WireAll(items) == Wire(items.first) + [];
  }

  lemma EmptyBytes()
    ensures Encode(EMPTY) == [] && InRange(EMPTY) && Canonical(EMPTY) == EMPTY
  {
  }

  /** An entry with every field, byte by byte. */
  lemma {:induction false} EntryBytes()
    ensures Encode(Entry(300, 2, -1, [7, 9], 5, 0x3f80_0000, [])) ==
            [0x08, 0xac, 0x02] + ([0x10, 0x02]
            + ([0x18, 0xff, 0xff, 0xff, 0xff, 0xff, 0xff, 0xff, 0xff, 0xff, 0x01]
               + ([0x22, 0x02, 0x07, 0x09] + ([0x28, 0x05] + ([0x9d, 0x06, 0x00, 0x00, 0x80, 0x3f] + [])))))
  {
    hide VarintField, DataField, VersionField, Unsigned64;
    FieldBytes();
  }

  lemma FieldBytes()
    ensures VarintField(0x08, 300) == [0x08, 0xac, 0x02] && VarintField(0x10, 2) == [0x10, 0x02]
    ensures VarintField(0x18, Unsigned64(-1)) ==
            [0x18, 0xff, 0xff, 0xff, 0xff, 0xff, 0xff, 0xff, 0xff, 0xff, 0x01]
    ensures DataField([7, 9]) == [0x22, 0x02, 0x07, 0x09] && VarintField(0x28, Unsigned64(5)) == [0x28, 0x05]
    ensures VersionField(0x3f80_0000) == [0x9d, 0x06, 0x00, 0x00, 0x80, 0x3f]
  {
    hide Put, LittleEndian, VarintField;
    SmallFields();
    MinusOneField();
    assert LittleEndian(0x3f80_0000) == [0x00, 0x00, 0x80, 0x3f] by {
      VersionBytes();
    }
    PutSmall(2);
  }

  lemma PutSmall(v: byte)
    requires v < 128
    ensures Put(v) == [v]
  {
  }

  lemma SmallFields()
    ensures VarintField(0x08, 300) == [0x08, 0xac, 0x02] && VarintField(0x10, 2) == [0x10, 0x02]
    ensures VarintField(0x28, 5) == [0x28, 0x05]
  {
    assert Put(300) == [0xac] + Put(2);
  }

  lemma MinusOneField()
    ensures VarintField(0x18, Unsigned64(-1)) ==
            [0x18, 0xff, 0xff, 0xff, 0xff, 0xff, 0xff, 0xff, 0xff, 0xff, 0x01]
  {
    hide Put;
    PutOfMinusOne();
  }

  lemma VersionBytes()
    ensures LittleEndian(0x3f80_0000) == [0x00, 0x00, 0x80, 0x3f]
  {
  }

  lemma PutOfMinusOne()
    ensures Unsigned64(-1) == 0xffff_ffff_ffff_ffff
    ensures Put(0xffff_ffff_ffff_ffff) == [0xff, 0xff, 0xff, 0xff, 0xff, 0xff, 0xff, 0xff, 0xff, 0x01]
  {
    assert Put(0xff) == [0xff, 0x01];
    assert Put(0x7fff) == [0xff] + Put(0xff);
    assert Put(0x3f_ffff) == [0xff] + Put(0x7fff);
    assert Put(0x1fff_ffff) == [0xff] + Put(0x3f_ffff);
    assert Put(0xf_ffff_ffff) == [0xff] + Put(0x1fff_ffff);
    assert Put(0x7ff_ffff_ffff) == [0xff] + Put(0xf_ffff_ffff);
    assert Put(0x3_ffff_ffff_ffff) == [0xff] + Put(0x7ff_ffff_ffff);
    assert Put(0x1ff_ffff_ffff_ffff) == [0xff] + Put(0x3_ffff_ffff_ffff);
  }
}
