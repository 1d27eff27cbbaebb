/** What sort.Slice promises, and that distinct keys leave it no choice. */
module Sorting {

  predicate Ordered<T>(items: seq<T>, key: T -> int)
  {
    forall i, j :: 0 <= i < j < |items| ==> key(items[i]) <= key(items[j])
  }

  /** r is items put in ascending order of key, ties in any order. */
  ghost predicate SortOf<T>(r: seq<T>, items: seq<T>, key: T -> int)
  {
    multiset(r) == multiset(items) && Ordered(r, key)
  }

  method SortBy<T(==)>(items: seq<T>, key: T -> int) returns (r: seq<T>)
    ensures SortOf(r, items, key)
  {
    r := [];
    var i := 0;
    while i < |items|
      invariant 0 <= i <= |items|
      invariant multiset(r) == multiset(items[..i]) && Ordered(r, key)
    {
      assert items[..i + 1] == items[..i] + [items[i]];
      r := Insert(r, items[i], key);
      i := i + 1;
    }
    assert items[..i] == items;
  }

  method Insert<T(==)>(sorted: seq<T>, x: T, key: T -> int) returns (r: seq<T>)
    requires Ordered(sorted, key)
    ensures multiset(r) == multiset(sorted) + multiset{x} && Ordered(r, key)
  {
    var k := |sorted|;
    while k > 0 && key(sorted[k - 1]) > key(x)
      invariant 0 <= k <= |sorted|
      invariant forall i :: k <= i < |sorted| ==> key(sorted[i]) > key(x)
    {
      k := k - 1;
    }
    r := sorted[..k] + [x] + sorted[k..];
    InsertKeepsItems(sorted, x, k);
    InsertKeepsOrder(sorted, x, k, key);
  }

  lemma InsertKeepsItems<T>(sorted: seq<T>, x: T, k: nat)
    requires k <= |sorted|
    ensures multiset(sorted[..k] + [x] + sorted[k..]) == multiset(sorted) + multiset{x}
  {
    assert sorted == sorted[..k] + sorted[k..];
  }

  lemma InsertKeepsOrder<T>(sorted: seq<T>, x: T, k: nat, key: T -> int)
    requires k <= |sorted| && Ordered(sorted, key)
    requires k > 0 ==> key(sorted[k - 1]) <= key(x)
    requires forall i :: k <= i < |sorted| ==> key(sorted[i]) > key(x)
    ensures Ordered(sorted[..k] + [x] + sorted[k..], key)
  {
    var r := sorted[..k] + [x] + sorted[k..];
    forall i, j | 0 <= i < j < |r| ensures key(r[i]) <= key(r[j]) {
      assert i < k ==> r[i] == sorted[i] && (i < k - 1 ==> key(sorted[i]) <= key(sorted[k - 1]));
      assert j < k ==> r[j] == sorted[j];
      assert i > k ==> r[i] == sorted[i - 1];
      assert j > k ==> r[j] == sorted[j - 1];
    }
  }

  ghost predicate Strict<T>(items: seq<T>, key: T -> int)
  {
    forall i, j :: 0 <= i < j < |items| ==> key(items[i]) < key(items[j])
  }

  lemma SameFirst<T>(a: seq<T>, b: seq<T>, key: T -> int)
    requires a != [] && b != [] && multiset(a) == multiset(b) && Strict(a, key) && Strict(b, key)
    ensures a[0] == b[0]
  {
    assert a[0] in multiset(b) && b[0] in multiset(a);
    var i :| 0 <= i < |b| && b[i] == a[0];
    var j :| 0 <= j < |a| && a[j] == b[0];
    assert key(a[0]) <= key(a[j]);
    assert key(b[0]) <= key(b[i]);
  }

  lemma TailItems<T>(a: seq<T>)
    requires a != []
    ensures multiset(a[1..]) == multiset(a) - multiset{a[0]}
  {
    assert a == [a[0]] + a[1..];
  }

  lemma SameWhole<T>(a: seq<T>, b: seq<T>)
    requires a != [] && b != [] && a[0] == b[0] && a[1..] == b[1..]
    ensures a == b
  {
    assert a == [a[0]] + a[1..] && b == [b[0]] + b[1..];
  }

  lemma StrictTail<T>(a: seq<T>, key: T -> int)
    requires a != [] && Strict(a, key)
    ensures Strict(a[1..], key)
  {
  }

  lemma SameLength<T>(a: seq<T>, b: seq<T>)
    requires multiset(a) == multiset(b)
    ensures |a| == |b|
  {
    assert |multiset(a)| == |a| && |multiset(b)| == |b|;
  }

  /** Two strictly ascending arrangements of the same items are the same. */
  lemma {:induction false} StrictUnique<T>(a: seq<T>, b: seq<T>, key: T -> int)
    requires multiset(a) == multiset(b) && Strict(a, key) && Strict(b, key)
    ensures a == b
  {
    SameLength(a, b);
    if a != [] {
      SameFirst(a, b, key);
      TailItems(a);
      TailItems(b);
      StrictTail(a, key);
      StrictTail(b, key);
      StrictUnique(a[1..], b[1..], key);
      SameWhole(a, b);
    }
  }

  ghost predicate InjectiveOn<T>(items: multiset<T>, key: T -> int)
  {
    (forall x :: x in items ==> items[x] == 1) &&
    (forall x, y :: x in items && y in items && key(x) == key(y) ==> x == y)
  }

  lemma OrderedStrict<T>(r: seq<T>, key: T -> int)
    requires Ordered(r, key) && InjectiveOn(multiset(r), key)
    ensures Strict(r, key)
  {
    forall i, j | 0 <= i < j < |r| ensures key(r[i]) < key(r[j]) {
      assert r[i] in multiset(r) && r[j] in multiset(r);
      if key(r[i]) == key(r[j]) {
        TwiceCounted(r, i, j);
      }
    }
  }

  lemma TwiceCounted<T>(r: seq<T>, i: nat, j: nat)
    requires i < j < |r| && r[i] == r[j]
    ensures multiset(r)[r[i]] >= 2
  {
    assert r == r[..i] + [r[i]] + r[i + 1..j] + [r[j]] + r[j + 1..];
  }

  /** With distinct keys, sorting gives one answer whatever the order of the input. */
  lemma SortUnique<T>(r: seq<T>, r': seq<T>, items: seq<T>, items': seq<T>, key: T -> int)
    requires SortOf(r, items, key) && SortOf(r', items', key) && multiset(items) == multiset(items')
    requires InjectiveOn(multiset(items), key)
    ensures r == r' && Strict(r, key)
  {
    OrderedStrict(r, key);
    OrderedStrict(r', key);
    StrictUnique(r, r', key);
  }
}
