/** The jump consistent hash that picks a node for a key. Floating-point arithmetic enters
    only through `fl`, any monotone rounding that is exact on integers up to 2^53 and on
    multiples of 2^31 with at most 32 significant bits: float64 is one, exact real arithmetic
    another, and every result holds for all of them. */
module JumpHash {
  import opened Varint

  const TWO_33 := 0x2_0000_0000
  const TWO_53 := 0x20_0000_0000_0000
  const MULTIPLIER := 2862933555777941757

  /** Multiplication by name: facts about products come from the lemmas below only. */
  function Mul(a: real, b: real): real { a * b }

  function Scaled(m: int): real { Mul(m as real, TWO_31 as real) }

  ghost predicate Rounding(fl: real -> real)
  {
    && (forall x: real, y: real :: x <= y ==> fl(x) <= fl(y))
    && (forall x: real :: 0.0 <= x <= TWO_53 as real && x == x.Floor as real ==> fl(x) == x)
    && (forall m: int :: 0 <= m < TWO_32 ==> fl(Scaled(m)) == Scaled(m))
  }

  /** The linear congruential step, on 64 bits. */
  function NextKey(key: nat): (r: nat)
    ensures r < TWO_64
  {
    (key * MULTIPLIER + 1) % TWO_64
  }

  const INVERSE := 16133697096952638549

  /** The key before a step. */
  function PrevKey(key: nat): (r: nat)
    ensures r < TWO_64
  {
    ((key + TWO_64 - 1) * INVERSE) % TWO_64
  }

  lemma ModOf(x: nat, t: int)
    requires x < TWO_64
    ensures (x + TWO_64 * t) % TWO_64 == x
  {
  }

  /** The key step is a bijection of the 64-bit words: no key is lost, ... */
  lemma {:induction false} PrevNext(key: nat)
    requires key < TWO_64
    ensures PrevKey(NextKey(key)) == key
  {
    var q := (key * MULTIPLIER + 1) / TWO_64;
    var next := NextKey(key);
    assert next == key * MULTIPLIER + 1 - TWO_64 * q;
    var t := key * 2503948805982125087 + (1 - q) * INVERSE;
    assert (next + TWO_64 - 1) * INVERSE == key + TWO_64 * t;
    ModOf(key, t);
  }

  /** ... and none is missed. */
  lemma {:induction false} NextPrev(key: nat)
    requires key < TWO_64
    ensures NextKey(PrevKey(key)) == key
  {
    var prev := PrevKey(key);
    var q := ((key + TWO_64 - 1) * INVERSE) / TWO_64;
    assert prev == (key + TWO_64 - 1) * INVERSE - TWO_64 * q;
    var t := (key + TWO_64 - 1) * 2503948805982125087 + 1 - q * MULTIPLIER;
    assert prev * MULTIPLIER + 1 == key + TWO_64 * t;
    ModOf(key, t);
  }

  /** The divisor: the top 31 bits of the key, plus one. */
  function Divisor(key: nat): (r: nat)
    requires key < TWO_64
    ensures 1 <= r <= TWO_31
  {
    key / TWO_33 + 1
  }

  lemma MulUp(a: real, b: real)
    requires a >= 0.0 && b >= 1.0
    ensures Mul(a, b) >= a
  {
    assert a * (b - 1.0) >= 0.0;
    assert a * b == a * (b - 1.0) + a;
  }

  lemma MulBelow(a: real, b: real)
    requires b > 0.0 && a < 1.0
    ensures Mul(a, b) < b
  {
    assert (1.0 - a) * b > 0.0;
    assert a * b == b - (1.0 - a) * b;
  }

  lemma MulMonotone(a: real, b: real, c: real)
    requires a >= 0.0 && b <= c
    ensures Mul(a, b) <= Mul(a, c)
  {
    assert a * (c - b) >= 0.0;
    assert a * c == a * (c - b) + a * b;
  }

  lemma MulQuotient(a: real, d: real)
    requires d > 0.0
    ensures Mul(a / d, d) == a && (a >= 0.0 ==> a / d >= 0.0)
  {
  }

  lemma QuotientAtLeastOne(a: real, d: real)
    requires a >= d > 0.0
    ensures a / d >= 1.0
  {
    MulQuotient(a, d);
    if a / d < 1.0 {
      MulBelow(a / d, d);
    }
  }

  lemma QuotientAtMost(a: real, d: real)
    requires a >= 0.0 && d >= 1.0
    ensures a / d <= a
  {
    MulQuotient(a, d);
    MulUp(a / d, d);
  }

  lemma RatioInside(fl: real -> real, d: nat)
    requires Rounding(fl) && 1 <= d <= TWO_31
    ensures 1.0 <= fl(TWO_31 as real / d as real) <= TWO_31 as real
  {
    QuotientAtLeastOne(TWO_31 as real, d as real);
    QuotientAtMost(TWO_31 as real, d as real);
    Exact(fl, 1);
    Exact(fl, TWO_31);
    Between(fl, 1.0, TWO_31 as real / d as real, TWO_31 as real);
  }

  /** Rounding stays between values it is exact on. */
  lemma Between(fl: real -> real, lo: real, x: real, hi: real)
    requires Rounding(fl) && lo <= x <= hi && fl(lo) == lo && fl(hi) == hi
    ensures lo <= fl(x) <= hi
  {
  }

  lemma Exact(fl: real -> real, k: nat)
    requires Rounding(fl) && k < TWO_32
    ensures fl(k as real) == k as real && fl(Scaled(k)) == Scaled(k)
  {
    assert (k as real).Floor == k;
  }

  lemma ProductRange(k: nat, ratio: real)
    requires 1.0 <= ratio <= TWO_31 as real
    ensures k as real <= Mul(k as real, ratio) <= Scaled(k)
  {
    MulUp(k as real, ratio);
    MulMonotone(k as real, ratio, TWO_31 as real);
  }

  function RoundedProduct(fl: real -> real, k: nat, ratio: real): (x: real)
    requires Rounding(fl) && k < TWO_32 && 1.0 <= ratio <= TWO_31 as real
    ensures k as real <= x <= Scaled(k)
  {
    ProductRange(k, ratio);
    Exact(fl, k);
    Between(fl, k as real, Mul(k as real, ratio), Scaled(k));
    fl(Mul(k as real, ratio))
  }

  function Ratio(fl: real -> real, key: nat): (r: real)
    requires Rounding(fl) && key < TWO_64
    ensures 1.0 <= r <= TWO_31 as real
  {
    RatioInside(fl, Divisor(key));
    fl(TWO_31 as real / Divisor(key) as real)
  }

  /** The probe after b. It lies beyond b, so the probe sequence strictly increases, and it
      fits a signed 64-bit integer. */
  function NextProbe(fl: real -> real, b: nat, key: nat): (j: int)
    requires Rounding(fl) && b < TWO_32 - 1 && key < TWO_64
    ensures b < j < TWO_63
  {
    Fits64(b + 1, RoundedProduct(fl, b + 1, Ratio(fl, key)));
    RoundedProduct(fl, b + 1, Ratio(fl, key)).Floor
  }

  lemma Fits64(k: nat, x: real)
    requires k < TWO_32 && k as real <= x <= Scaled(k)
    ensures k <= x.Floor < TWO_63
  {
    assert Scaled(k) == (k * TWO_31) as real;
    assert x.Floor <= k * TWO_31;
  }

  /** The last probe below n, from a state of the loop on. Neither the keys nor the probes
      depend on n. */
  function Jump(fl: real -> real, key: nat, b: int, j: int, n: int): int
    requires Rounding(fl) && n < TWO_32 && j >= 0
    decreases n - j
  {
    if j < n then
      var key' := NextKey(key);
      Jump(fl, key', j, NextProbe(fl, j, key'), n)
    else b
  }

  function Index(fl: real -> real, key: nat, n: int): int
    requires Rounding(fl) && n < TWO_32
  {
    Jump(fl, key, -1, 0, n)
  }

  lemma {:induction false} JumpRange(fl: real -> real, key: nat, b: int, j: int, n: int)
    requires Rounding(fl) && n < TWO_32 && j >= 0
    ensures if j < n then j <= Jump(fl, key, b, j, n) < n else Jump(fl, key, b, j, n) == b
    decreases n - j
  {
    if j < n {
      var key' := NextKey(key);
      JumpRange(fl, key', j, NextProbe(fl, j, key'), n);
    }
  }

  /** The index is one of the nodes. */
  lemma {:induction false} IndexInRange(fl: real -> real, key: nat, n: int)
    requires Rounding(fl) && 0 < n < TWO_32
    ensures 0 <= Index(fl, key, n) < n
  {
    JumpRange(fl, key, -1, 0, n);
  }

  lemma {:induction false} JumpConsistent(fl: real -> real, key: nat, b: int, j: int, n: int, m: int)
    requires Rounding(fl) && n <= m < TWO_32 && j >= 0
    ensures Jump(fl, key, b, j, m) == Jump(fl, key, b, j, n) || n <= Jump(fl, key, b, j, m) < m
    decreases n - j
  {
    if j < n {
      var key' := NextKey(key);
      JumpConsistent(fl, key', j, NextProbe(fl, j, key'), n, m);
    } else {
      JumpRange(fl, key, b, j, m);
    }
  }

  /** Adding nodes moves a key only to one of the new nodes. */
  lemma {:induction false} GrowingMovesOnlyToNew(fl: real -> real, key: nat, n: int, m: int)
    requires Rounding(fl) && 0 < n <= m < TWO_32
    ensures Index(fl, key, m) == Index(fl, key, n) || n <= Index(fl, key, m) < m
    ensures m == n + 1 ==> Index(fl, key, m) == Index(fl, key, n) || Index(fl, key, m) == n
  {
    JumpConsistent(fl, key, -1, 0, n, m);
  }

  /** Removing the last nodes moves only the keys that were on them. */
  lemma {:induction false} ShrinkingMovesOnlyLost(fl: real -> real, key: nat, n: int, m: int)
    requires Rounding(fl) && 0 < n <= m < TWO_32
    ensures Index(fl, key, m) < n ==> Index(fl, key, n) == Index(fl, key, m)
  {
    JumpConsistent(fl, key, -1, 0, n, m);
  }

  // ----- how keys spread, in exact arithmetic -----

  function Same(x: real): real { x }

  lemma SameRounds()
    ensures Rounding(Same)
  {
  }

  lemma FloorQuotient(a: nat, d: nat)
    requires d > 0
    ensures (a as real / d as real).Floor == a / d
  {
    var q, r := a / d, a % d;
    MulQuotient(r as real, d as real);
    assert a as real == q as real * d as real + r as real;
    assert a as real / d as real == q as real + r as real / d as real;
    if r as real / d as real >= 1.0 {
      MulUp(d as real, r as real / d as real);
    }
  }

  /** The probe after b is (b + 1) * 2^31 divided by the divisor. */
  lemma ExactProbe(b: nat, key: nat)
    requires b < TWO_32 - 1 && key < TWO_64
    ensures Rounding(Same)
    ensures NextProbe(Same, b, key) == (b + 1) * TWO_31 / Divisor(key)
  {
    SameRounds();
    var d, k := Divisor(key), b + 1;
    assert Mul(k as real, TWO_31 as real / d as real) == (k * TWO_31) as real / d as real;
    FloorQuotient(k * TWO_31, d);
  }

  lemma QuotientIff(a: nat, d: nat, m: nat)
    requires d > 0
    ensures a / d >= m <==> d * m <= a
  {
    var q := a / d;
    assert d * q <= a < d * (q + 1);
    if q >= m {
      assert d * q >= d * m;
    } else {
      assert d * m >= d * (q + 1);
    }
  }

  /** A key goes on beyond m exactly when its divisor is small enough. */
  lemma ProbeBeyond(b: nat, key: nat, m: nat)
    requires b < TWO_32 - 1 && key < TWO_64
    ensures Rounding(Same)
    ensures NextProbe(Same, b, key) > m <==> Divisor(key) * (m + 1) <= (b + 1) * TWO_31
  {
    ExactProbe(b, key);
    QuotientIff((b + 1) * TWO_31, Divisor(key), m + 1);
  }

  /** The divisors that send a key from b to node n or beyond. */
  ghost function Reaching(b: nat, n: nat): set<nat>
  {
    set d: nat | 1 <= d <= TWO_31 && d * n <= (b + 1) * TWO_31
  }

  /** Those that send it to node n itself. */
  ghost function Arriving(b: nat, n: nat): set<nat>
  {
    Reaching(b, n) - Reaching(b, n + 1)
  }

  predicate Within(d: nat, x: nat)
  {
    1 <= d <= x
  }

  ghost function UpTo(x: nat): set<nat>
  {
    set d: nat | d <= x && Within(d, x)
  }

  lemma {:induction false} UpToSize(x: nat)
    ensures |UpTo(x)| == x
  {
    if x == 0 {
      assert UpTo(0) == {};
    } else {
      UpToSize(x - 1);
      assert UpTo(x) == UpTo(x - 1) + {x};
    }
  }

  lemma AtMostAll(b: nat, n: nat, d: nat)
    requires n > b && d * n <= (b + 1) * TWO_31
    ensures d <= TWO_31
  {
    assert d * (n - (b + 1)) >= 0;
    assert (d - TWO_31) * (b + 1) == d * (b + 1) - TWO_31 * (b + 1) <= 0;
  }

  lemma ReachingIff(b: nat, n: nat, d: nat)
    requires n > b
    ensures d in Reaching(b, n) <==> d in UpTo((b + 1) * TWO_31 / n)
  {
    var k := (b + 1) * TWO_31;
    QuotientIff(k, n, d);
    assert n * d == d * n;
    if d * n <= k {
      AtMostAll(b, n, d);
    }
  }

  lemma ReachingSize(b: nat, n: nat)
    requires n > b
    ensures Reaching(b, n) <= UpTo(TWO_31)
    ensures Reaching(b, n) == UpTo((b + 1) * TWO_31 / n) && |Reaching(b, n)| == (b + 1) * TWO_31 / n
  {
    forall d: nat ensures d in Reaching(b, n) <==> d in UpTo((b + 1) * TWO_31 / n) {
      ReachingIff(b, n, d);
    }
    UpToSize((b + 1) * TWO_31 / n);
  }

  lemma ReachingLess(b: nat, n: nat)
    ensures Reaching(b, n + 1) <= Reaching(b, n)
  {
    forall d | d in Reaching(b, n + 1) ensures d in Reaching(b, n) {
      assert d * (n + 1) == d * n + d;
    }
  }

  /** When a node is added to n nodes, the keys of node b move to it on exactly so many of the
      divisors that left them at b: one in n + 1, as nearly as whole numbers allow. */
  lemma MoversCount(b: nat, n: nat)
    requires n > b
    ensures |Arriving(b, n)| == (b + 1) * TWO_31 / n - (b + 1) * TWO_31 / (n + 1)
    ensures |Reaching(b, n)| - n <= (n + 1) * |Arriving(b, n)| <= |Reaching(b, n)| + n
  {
    hide Reaching, UpTo;
    var k := (b + 1) * TWO_31;
    ReachingSize(b, n);
    ReachingSize(b, n + 1);
    ReachingLess(b, n);
    assert Reaching(b, n) == Arriving(b, n) + Reaching(b, n + 1);
    NearlyOneIn(k, n);
  }

  lemma NearlyOneIn(k: nat, n: nat)
    requires n > 0
    ensures k / n - n <= (n + 1) * (k / n - k / (n + 1)) <= k / n + n
  {
    var x, y := k / n, k / (n + 1);
    assert k == x * n + k % n && k == y * (n + 1) + k % (n + 1);
    assert (n + 1) * (x - y) == x * n + x - y * (n + 1);
  }

  /** What it means for a key at node b of n nodes: it stays there or moves to the new node, and
      it moves exactly when the next divisor is one of those. */
  lemma MovesIff(key: nat, from: int, b: nat, n: nat)
    requires b < n < TWO_32 - 1
    ensures Rounding(Same)
    ensures NextProbe(Same, b, NextKey(key)) >= n <==> Divisor(NextKey(key)) in Reaching(b, n)
    ensures Divisor(NextKey(key)) in Reaching(b, n) ==>
              && Jump(Same, key, from, b, n) == b
              && Jump(Same, key, from, b, n + 1) == if Divisor(NextKey(key)) in Arriving(b, n) then n else b
  {
    hide NextKey, Divisor, NextProbe, Rounding;
    var next := NextKey(key);
    ProbeBeyond(b, next, n - 1);
    ProbeBeyond(b, next, n);
    var j := NextProbe(Same, b, next);
    if j == n {
      JumpAt(next, n, n + 1);
    }
  }

  /** A probe at the last node ends there. */
  lemma JumpAt(key: nat, j: nat, n: nat)
    requires Rounding(Same) && n < TWO_32 && j + 1 == n
    ensures forall from :: Jump(Same, key, from, j, n) == j
  {
    forall from ensures Jump(Same, key, from, j, n) == j {
      JumpRange(Same, key, from, j, n);
    }
  }

  /** The 64-bit keys whose next divisor is one of these. */
  ghost function KeysOf(divisors: set<nat>): set<nat>
  {
    set key: nat | key < TWO_64 && Divisor(NextKey(key)) in divisors
  }

  ghost function Before(lo: nat, hi: nat): set<nat>
  {
    set r: nat | lo <= r < hi :: PrevKey(r)
  }

  lemma {:induction false} BeforeSize(lo: nat, hi: nat)
    requires lo <= hi <= TWO_64
    ensures |Before(lo, hi)| == hi - lo
    decreases hi - lo
  {
    hide PrevKey, NextKey;
    if lo == hi {
      assert Before(lo, hi) == {};
    } else {
      BeforeSize(lo, hi - 1);
      assert Before(lo, hi) == Before(lo, hi - 1) + {PrevKey(hi - 1)};
      if PrevKey(hi - 1) in Before(lo, hi - 1) {
        var r: nat :| lo <= r < hi - 1 && PrevKey(r) == PrevKey(hi - 1);
        NextPrev(r);
        NextPrev(hi - 1);
      }
    }
  }

  /** Every divisor comes from equally many keys. */
  lemma KeysOfOne(d: nat)
    requires 1 <= d <= TWO_31
    ensures |KeysOf({d})| == TWO_33
  {
    hide PrevKey, NextKey;
    var lo, hi := (d - 1) * TWO_33, d * TWO_33;
    forall key: nat ensures key in KeysOf({d}) <==> key in Before(lo, hi) {
      if key in KeysOf({d}) {
        PrevNext(key);
        assert lo <= NextKey(key) < hi;
      }
      if key in Before(lo, hi) {
        var r: nat :| lo <= r < hi && PrevKey(r) == key;
        NextPrev(r);
      }
    }
    assert KeysOf({d}) == Before(lo, hi);
    BeforeSize(lo, hi);
  }

  lemma {:induction false} KeysOfSize(divisors: set<nat>)
    requires divisors <= UpTo(TWO_31)
    ensures |KeysOf(divisors)| == TWO_33 * |divisors|
    decreases divisors
  {
    hide NextKey, Divisor;
    if divisors == {} {
      assert KeysOf(divisors) == {};
    } else {
      var d :| d in divisors;
      var rest := divisors - {d};
      KeysOfSize(rest);
      KeysOfOne(d);
      assert KeysOf(divisors) == KeysOf(rest) + KeysOf({d});
      assert KeysOf(rest) !! KeysOf({d});
    }
  }

  lemma Spread(stay: nat, move: nat, n: nat, x: nat, y: nat)
    requires stay == TWO_33 * x && move == TWO_33 * y && x - n <= (n + 1) * y <= x + n
    ensures stay - n * TWO_33 <= (n + 1) * move <= stay + n * TWO_33
  {
    assert (n + 1) * move == TWO_33 * ((n + 1) * y);
  }

  /** Of all keys that the probe from b leaves on b among n nodes, those that move when a node
      is added are one in n + 1, up to n * 2^33 of 2^64. */
  lemma KeysMoving(b: nat, n: nat)
    requires n > b
    ensures |KeysOf(Reaching(b, n))| == TWO_33 * ((b + 1) * TWO_31 / n)
    ensures var stay, move := |KeysOf(Reaching(b, n))|, |KeysOf(Arriving(b, n))|;
            stay - n * TWO_33 <= (n + 1) * move <= stay + n * TWO_33
  {
    hide Reaching, UpTo, KeysOf;
    MoversCount(b, n);
    ReachingSize(b, n);
    KeysOfSize(Reaching(b, n));
    KeysOfSize(Arriving(b, n));
    Spread(|KeysOf(Reaching(b, n))|, |KeysOf(Arriving(b, n))|, n, |Reaching(b, n)|, |Arriving(b, n)|);
  }

  lemma JumpsOn(key: nat, from: int, b: nat, next: nat, j: nat, n: nat)
    requires b < n < TWO_32 && next < TWO_64 && NextKey(key) == next && (b + 1) * TWO_31 / Divisor(next) == j
    ensures Rounding(Same) && Jump(Same, key, from, b, n) == Jump(Same, next, b, j, n)
  {
    hide NextKey, Divisor, NextProbe, Rounding;
    ExactProbe(b, next);
  }

  /** A key followed through its probes: 0, 2, 3, 8 and then beyond a hundred nodes. */
  lemma {:induction false} SampleIndex()
    ensures Rounding(Same) && Index(Same, 3, 100) == 8
  {
    hide Jump, NextProbe, Rounding;
    var a, b, c, d := 8588800667333825272, 16835445614176583449, 8478220943449820086, 1604421673667867359;
    JumpsOn(3, -1, 0, a, 2, 100);
    JumpsOn(a, 0, 2, b, 3, 100);
    JumpsOn(b, 2, 3, c, 8, 100);
    JumpsOn(c, 3, 8, d, 103, 100);
    JumpRange(Same, d, 8, 103, 100);
  }

  /** ConsistentIndex, from the hashed key on; -1 when there are no nodes. */
  method ConsistentIndex(fl: real -> real, hash: nat, nodesCount: int) returns (index: int)
    requires Rounding(fl) && hash < TWO_64 && nodesCount < TWO_32
    ensures index == Index(fl, hash, nodesCount)
    ensures if nodesCount > 0 then 0 <= index < nodesCount else index == -1
  {
    var key: nat, b: int, j: int := hash, -1, 0;
    while j < nodesCount
      invariant j >= 0 && key < TWO_64 && b < j
      invariant Jump(fl, key, b, j, nodesCount) == Index(fl, hash, nodesCount)
      decreases nodesCount - j
    {
      b := j;
      key := NextKey(key);
      j := NextProbe(fl, b, key);
    }
    index := b;
    if nodesCount > 0 {
      IndexInRange(fl, hash, nodesCount);
    }
  }
}
