/** The file names behind LogDirectory.FileName: twenty zero-padded digits and a suffix.
    Reading a name back gives the file it was made for, and directory order is index order. */
module SegmentNames {
  import opened Varint
  import opened Framing
  import opened LogDirectory

  const WIDTH := 20

  function Pow10(n: nat): (p: nat)
    ensures p >= 1
  {
    if n == 0 then 1 else 10 * Pow10(n - 1)
  }

  function Digit(d: nat): char
    requires d < 10
  {
    '0' + d as char
  }

  /** The last n decimal digits of i. */
  function Pad(i: nat, n: nat): (s: string)
    ensures |s| == n
  {
    if n == 0 then "" else Pad(i / 10, n - 1) + [Digit(i % 10)]
  }

  /** segmentName and the suffixes of the two truncation marks. */
  function Render(n: FileName): string
  {
    match n
    case Seg(i) => Pad(i, WIDTH)
    case End(i) => Pad(i, WIDTH) + ".END"
    case Start(i) => Pad(i, WIDTH) + ".START"
    case Temp => "TEMP"
  }

  lemma {:induction false} PadZero(n: nat)
    ensures Pad(0, n) == seq(n, _ => '0')
  {
    if n > 0 {
      PadZero(n - 1);
      assert seq(n, _ => '0') == seq(n - 1, _ => '0') + ['0'];
    }
  }

  /** The names of segment 203 and of its marks. */
  lemma NameSample()
    ensures Render(Seg(203)) == "00000000000000000203"
    ensures Render(Start(203)) == "00000000000000000203.START" && Render(End(203)) == "00000000000000000203.END"
    ensures Render(Temp) == "TEMP"
  {
    PadZero(17);
    assert Pad(2, 18) == Pad(0, 17) + "2";
    assert Pad(20, 19) == Pad(2, 18) + "0";
    assert Pad(203, 20) == Pad(20, 19) + "3";
    assert seq(17, _ => '0') == "00000000000000000";
  }

  predicate AllDigits(s: string)
  {
    forall k :: 0 <= k < |s| ==> '0' <= s[k] <= '9'
  }

  function Value(s: string): nat
    requires AllDigits(s)
  {
    if s == "" then 0 else 10 * Value(s[..|s| - 1]) + (s[|s| - 1] - '0') as nat
  }

  /** What `load` makes of a directory entry; None for a name it skips. */
  function Parse(name: string): Option<FileName>
  {
    if |name| < WIDTH then None
    else if !AllDigits(name[..WIDTH]) then None
    else
      var index := Value(name[..WIDTH]);
      if index >= TWO_64 || index == 0 then None
      else if |name| == 20 then Some(Seg(index))
      else if |name| == 26 && name[20..] == ".START" then Some(Start(index))
      else if |name| == 24 && name[20..] == ".END" then Some(End(index))
      else None
  }

  // ----- reading names back -----

  lemma DigitAdded(s: string, d: nat)
    requires AllDigits(s) && d < 10
    ensures AllDigits(s + [Digit(d)]) && Value(s + [Digit(d)]) == 10 * Value(s) + d
  {
    var longer := s + [Digit(d)];
    assert longer[..|longer| - 1] == s;
  }

  lemma NoDigits()
    ensures AllDigits("") && Value("") == 0
  {
  }

  lemma {:induction false} PadDigits(i: nat, n: nat)
    requires i < Pow10(n)
    ensures AllDigits(Pad(i, n)) && Value(Pad(i, n)) == i
  {
    hide Digit, Value, AllDigits;
    if n > 0 {
      PadDigits(i / 10, n - 1);
      DigitAdded(Pad(i / 10, n - 1), i % 10);
    } else {
      NoDigits();
    }
  }

  lemma {:induction false} ValuePad(s: string)
    requires AllDigits(s)
    ensures Value(s) < Pow10(|s|) && Pad(Value(s), |s|) == s
    decreases |s|
  {
    if s != "" {
      var init := s[..|s| - 1];
      ValuePad(init);
      var d := (s[|s| - 1] - '0') as nat;
      var v := Value(s);
      assert v == 10 * Value(init) + d && d < 10;
      LastDigit(v, Value(init), d, |s|);
      assert s == init + [s[|s| - 1]];
    }
  }

  lemma LastDigit(v: nat, rest: nat, d: nat, n: nat)
    requires v == 10 * rest + d && d < 10 && n > 0
    ensures Pad(v, n) == Pad(rest, n - 1) + [Digit(d)] && (rest < Pow10(n - 1) ==> v < Pow10(n))
  {
  }

  lemma Pow10Bounds()
    ensures TWO_64 < Pow10(WIDTH)
  {
    assert Pow10(5) == 100000;
    assert Pow10(10) == 100000 * Pow10(5) by { Pow10Five(5); }
    assert Pow10(15) == 100000 * Pow10(10) by { Pow10Five(10); }
    assert Pow10(20) == 100000 * Pow10(15) by { Pow10Five(15); }
  }

  lemma Pow10Five(n: nat)
    ensures Pow10(n + 5) == 100000 * Pow10(n)
  {
    assert Pow10(n + 5) == 10 * Pow10(n + 4);
    assert Pow10(n + 4) == 10 * Pow10(n + 3);
    assert Pow10(n + 3) == 10 * Pow10(n + 2);
    assert Pow10(n + 2) == 10 * Pow10(n + 1);
    assert Pow10(n + 1) == 10 * Pow10(n);
  }

  function Suffix(n: FileName): string
  {
    match n
    case Seg(_) => ""
    case End(_) => ".END"
    case Start(_) => ".START"
    case Temp => ""
  }

  lemma ParseRendered(n: FileName)
    requires Relevant(n) && n.index < TWO_64
    ensures Parse(Render(n)) == Some(n)
  {
    hide Pad, Value, Pow10;
    Pow10Bounds();
    PadDigits(n.index, WIDTH);
    var name := Pad(n.index, WIDTH) + Suffix(n);
    assert Render(n) == name;
    assert name[..WIDTH] == Pad(n.index, WIDTH);
    assert name[20..] == Suffix(n);
  }

  lemma RenderParsed(name: string)
    requires Parse(name).Some?
    ensures Render(Parse(name).value) == name
  {
    hide Pad, Value, AllDigits, Pow10;
    var digits := name[..WIDTH];
    ValuePad(digits);
    assert name == digits + name[20..];
    assert |name| == 20 ==> name[20..] == "";
  }

  /** Names and files correspond one to one: a name reads as `n` exactly when it is the name
      rendered for `n`. */
  lemma ParseIffRender(name: string, n: FileName)
    requires Relevant(n) && n.index < TWO_64
    ensures Parse(name) == Some(n) <==> name == Render(n)
  {
    ParseRendered(n);
    if Parse(name) == Some(n) {
      RenderParsed(name);
    }
  }

  // ----- directory order -----

  /** Lexicographic order, as directory listings use it. */
  predicate Less(a: string, b: string)
  {
    if b == "" then false
    else if a == "" then true
    else a[0] < b[0] || (a[0] == b[0] && Less(a[1..], b[1..]))
  }

  lemma {:induction false} LessPrefix(p: string, a: string, b: string)
    ensures Less(p + a, p + b) <==> Less(a, b)
  {
    if p == "" {
      assert p + a == a && p + b == b;
    } else {
      assert (p + a)[1..] == p[1..] + a && (p + b)[1..] == p[1..] + b;
      LessPrefix(p[1..], a, b);
    }
  }

  /** A difference inside strings of one length decides whatever follows. */
  lemma {:induction false} LessExtend(p: string, q: string, a: string, b: string)
    requires |p| == |q| && Less(p, q)
    ensures Less(p + a, q + b)
  {
    assert (p + a)[1..] == p[1..] + a && (q + b)[1..] == q[1..] + b;
    if p[0] == q[0] {
      LessExtend(p[1..], q[1..], a, b);
    }
  }

  lemma {:induction false} PadLess(i: nat, j: nat, n: nat)
    requires i < j < Pow10(n)
    ensures Less(Pad(i, n), Pad(j, n))
  {
    if i / 10 < j / 10 {
      PadLess(i / 10, j / 10, n - 1);
      LessExtend(Pad(i / 10, n - 1), Pad(j / 10, n - 1), [Digit(i % 10)], [Digit(j % 10)]);
    } else {
      assert i / 10 == j / 10 && i % 10 < j % 10;
      LessPrefix(Pad(i / 10, n - 1), [Digit(i % 10)], [Digit(j % 10)]);
    }
  }

  lemma {:induction false} LessAsymmetric(a: string, b: string)
    requires Less(a, b)
    ensures !Less(b, a)
  {
    if a != "" && a[0] == b[0] {
      LessAsymmetric(a[1..], b[1..]);
    }
  }

  lemma {:induction false} LessIrreflexive(a: string)
    ensures !Less(a, a)
  {
    if a != "" {
      LessIrreflexive(a[1..]);
    }
  }

  lemma RankLess(a: FileName, b: FileName)
    requires Relevant(a) && Relevant(b) && a.index < TWO_64 && b.index < TWO_64 && Rank(a) < Rank(b)
    ensures Less(Render(a), Render(b))
  {
    Pow10Bounds();
    var p, q := Pad(a.index, WIDTH), Pad(b.index, WIDTH);
    assert Render(a) == p + Suffix(a) && Render(b) == q + Suffix(b);
    if a.index < b.index {
      PadLess(a.index, b.index, WIDTH);
      LessExtend(p, q, Suffix(a), Suffix(b));
    } else {
      assert a.index == b.index;
      assert Less("", ".END") && Less("", ".START");
      assert ".END"[1..] == "END" && ".START"[1..] == "START";
      assert Less(".END", ".START");
      LessPrefix(p, Suffix(a), Suffix(b));
    }
  }

  /** The order of the names is the order LogDirectory.Rank puts the files in. */
  lemma NameOrder(a: FileName, b: FileName)
    requires Relevant(a) && Relevant(b) && a.index < TWO_64 && b.index < TWO_64
    ensures Less(Render(a), Render(b)) <==> Rank(a) < Rank(b)
  {
    if Rank(a) < Rank(b) {
      RankLess(a, b);
    } else if Rank(b) < Rank(a) {
      RankLess(b, a);
    } else {
      SameRank(a, b);
    }
    LessOrder(Render(a), Render(b), Rank(a), Rank(b));
  }

  lemma SameRank(a: FileName, b: FileName)
    requires Relevant(a) && Relevant(b) && Rank(a) == Rank(b)
    ensures a == b
  {
  }

  lemma LessOrder(x: string, y: string, a: int, b: int)
    requires (a < b ==> Less(x, y)) && (b < a ==> Less(y, x)) && (a == b ==> x == y)
    ensures Less(x, y) <==> a < b
  {
    if b < a {
      LessAsymmetric(y, x);
    } else if a == b {
      LessIrreflexive(x);
    }
  }

  // ----- the listing -----

  /** A file of a log has an index of 64 bits. */
  predicate Real(n: FileName)
  {
    Relevant(n) && n.index < TWO_64
  }

  /** The files `load` keeps of a listing of names: those it can read, in order. */
  function Kept(raw: seq<string>): seq<FileName>
  {
    if raw == [] then [] else
      var n := Parse(raw[|raw| - 1]);
      Kept(raw[..|raw| - 1]) + if n.None? then [] else [n.value]
  }

  ghost predicate Sorted(raw: seq<string>)
  {
    forall i, j :: 0 <= i < j < |raw| ==> Less(raw[i], raw[j])
  }

  /** The directory of the file system that `d` stands for: the files of the log under their
      rendered names, anything else under names that do not read as such. */
  ghost predicate Pictures(d: Disk, dir: map<string, seq<byte>>)
  {
    && (forall n :: n in d && Relevant(n) ==> Real(n))
    && (forall n :: Real(n) ==> (n in d <==> Render(n) in dir))
    && (forall n :: Real(n) && n in d ==> d[n] == dir[Render(n)])
  }

  lemma ParsedReal(name: string)
    requires Parse(name).Some?
    ensures Real(Parse(name).value)
  {
  }

  lemma {:induction false} KeptNames(raw: seq<string>, n: FileName)
    ensures n in Kept(raw) <==> Real(n) && Render(n) in raw
  {
    hide Parse, Render;
    if raw != [] {
      var last := raw[|raw| - 1];
      KeptNames(raw[..|raw| - 1], n);
      assert Render(n) in raw <==> Render(n) in raw[..|raw| - 1] || Render(n) == last;
      if Real(n) {
        ParseIffRender(last, n);
      }
      if Parse(last).Some? {
        ParsedReal(last);
      }
    }
  }

  lemma {:induction false} KeptAscend(raw: seq<string>)
    requires Sorted(raw)
    ensures Ascending(Kept(raw))
  {
    hide Parse, Render, Rank, Less;
    if raw != [] {
      var m := |raw| - 1;
      KeptAscend(raw[..m]);
      if Parse(raw[m]).Some? {
        LastIsGreatest(raw, Parse(raw[m]).value);
      }
    }
  }

  lemma LastIsGreatest(raw: seq<string>, n: FileName)
    requires Sorted(raw) && raw != [] && Parse(raw[|raw| - 1]) == Some(n)
    ensures var before := Kept(raw[..|raw| - 1]);
            forall k :: 0 <= k < |before| ==> Rank(before[k]) < Rank(n)
  {
    hide Parse, Render, Rank, Less, Kept;
    var m := |raw| - 1;
    ParsedReal(raw[m]);
    ParseIffRender(raw[m], n);
    var before := Kept(raw[..m]);
    forall k | 0 <= k < |before| ensures Rank(before[k]) < Rank(n) {
      KeptNames(raw[..m], before[k]);
      var i :| 0 <= i < m && raw[i] == Render(before[k]);
      assert Less(raw[i], raw[m]);
      NameOrder(before[k], n);
    }
  }

  /** Sorting the names of a directory and reading them gives exactly the listing the log
      works with. */
  lemma ListingOfNames(d: Disk, dir: map<string, seq<byte>>, raw: seq<string>)
    requires Pictures(d, dir) && Sorted(raw) && forall s :: s in raw <==> s in dir
    ensures IsListing(d, Kept(raw))
    ensures forall names :: IsListing(d, names) ==> names == Kept(raw)
  {
    hide Render, Ascending, Sorted, Kept;
    KeptAscend(raw);
    forall n ensures n in Kept(raw) <==> n in d && Relevant(n) {
      KeptNames(raw, n);
    }
    forall names | IsListing(d, names) ensures names == Kept(raw) {
      AscendingUnique(names, Kept(raw));
    }
  }
}
