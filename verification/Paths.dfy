/** Slash-separated paths: splitting, joining, trimming, and the parent of a path. */
module Paths {

  predicate NoSlash(s: string)
  {
    '/' !in s
  }

  /** strings.Split with separator "/". */
  function Split(path: string): (r: seq<string>)
    ensures |r| >= 1
    ensures forall i :: 0 <= i < |r| ==> NoSlash(r[i])
  {
    if path == "" then [""]
    else
      var rest := Split(path[1..]);
      if path[0] == '/' then [""] + rest else [[path[0]] + rest[0]] + rest[1..]
  }

  /** strings.Join with separator "/". */
  function Join(parts: seq<string>): string
  {
    if parts == [] then ""
    else if |parts| == 1 then parts[0]
    else parts[0] + "/" + Join(parts[1..])
  }

  lemma {:induction false} JoinSplit(path: string)
    ensures Join(Split(path)) == path
  {
    if path != "" {
      var rest := Split(path[1..]);
      JoinSplit(path[1..]);
      if path[0] == '/' {
        assert ([""] + rest)[1..] == rest;
        assert Join(Split(path)) == "" + "/" + path[1..];
      } else {
        var parts := [[path[0]] + rest[0]] + rest[1..];
        assert parts[1..] == rest[1..];
        JoinCons(path[0], rest);
        assert [path[0]] + path[1..] == path;
      }
    }
  }

  lemma JoinCons(c: char, parts: seq<string>)
    requires parts != []
    ensures Join([[c] + parts[0]] + parts[1..]) == [c] + Join(parts)
  {
    var grown := [[c] + parts[0]] + parts[1..];
    assert grown[1..] == parts[1..];
    if |parts| > 1 {
      assert [c] + parts[0] + "/" + Join(parts[1..]) == [c] + (parts[0] + "/" + Join(parts[1..]));
    }
  }

  /** Splitting off a first component. */
  lemma {:induction false} SplitPrefix(head: string, rest: string)
    requires NoSlash(head)
    ensures Split(head + "/" + rest) == [head] + Split(rest)
  {
    if head == "" {
      assert (head + "/" + rest)[1..] == rest;
    } else {
      SplitPrefix(head[1..], rest);
      assert (head + "/" + rest)[1..] == head[1..] + "/" + rest;
      assert [head[0]] + head[1..] == head;
    }
  }

  lemma {:induction false} SplitNoSlash(s: string)
    requires NoSlash(s)
    ensures Split(s) == [s]
  {
    if s != "" {
      SplitNoSlash(s[1..]);
      assert [s[0]] + s[1..] == s;
    }
  }

  lemma {:induction false} SplitJoin(parts: seq<string>)
    requires parts != [] && forall i :: 0 <= i < |parts| ==> NoSlash(parts[i])
    ensures Split(Join(parts)) == parts
  {
    if |parts| == 1 {
      SplitNoSlash(parts[0]);
    } else {
      SplitJoin(parts[1..]);
      SplitPrefix(parts[0], Join(parts[1..]));
      assert parts == [parts[0]] + parts[1..];
    }
  }

  /** The number of slashes. */
  function Depth(path: string): nat
  {
    |Split(path)| - 1
  }

  /** The path minus its last component. */
  function Parent(path: string): string
  {
    var parts := Split(path);
    Join(parts[..|parts| - 1])
  }

  function Name(path: string): string
  {
    var parts := Split(path);
    parts[|parts| - 1]
  }

  lemma {:induction false} JoinSnoc(parts: seq<string>, last: string)
    requires parts != []
    ensures Join(parts + [last]) == Join(parts) + "/" + last
  {
    assert (parts + [last])[1..] == parts[1..] + [last];
    if |parts| > 1 {
      JoinSnoc(parts[1..], last);
      assert parts[0] + "/" + (Join(parts[1..]) + "/" + last) == parts[0] + "/" + Join(parts[1..]) + "/" + last;
    }
  }

  /** A path below the root is its parent, a slash and a name, one level deeper. */
  lemma ParentOf(path: string)
    requires Depth(path) > 0
    ensures Depth(path) == Depth(Parent(path)) + 1
    ensures path == Parent(path) + "/" + Name(path) && NoSlash(Name(path))
  {
    var parts := Split(path);
    var n := |parts| - 1;
    SplitJoin(parts[..n]);
    JoinSplit(path);
    JoinSnoc(parts[..n], parts[n]);
    assert parts == parts[..n] + [parts[n]];
  }

  /** A path below the root is one with a slash; at the root, the path is the name. */
  lemma {:induction false} Slashed(path: string)
    ensures Depth(path) > 0 <==> '/' in path
    ensures Depth(path) == 0 ==> Name(path) == path
  {
    JoinSplit(path);
    if Depth(path) > 0 {
      ParentOf(path);
      assert path[|Parent(path)|] == '/';
    }
  }

  /** strings.Trim with cutset "/". */
  function Trim(path: string): (r: string)
    ensures |r| > 0 ==> r[0] != '/' && r[|r| - 1] != '/'
    decreases |path|
  {
    if path == "" then ""
    else if path[0] == '/' then Trim(path[1..])
    else if path[|path| - 1] == '/' then Trim(path[..|path| - 1])
    else path
  }

  function Slashes(n: nat): string
  {
    seq(n, _ => '/')
  }

  lemma SlashBefore(a: nat, middle: string, tail: string, path: string)
    requires path != "" && path[0] == '/' && path[1..] == Slashes(a) + middle + tail
    ensures path == Slashes(a + 1) + middle + tail
  {
    var rest := Slashes(a) + middle + tail;
    assert path == "/" + rest;
    assert Slashes(a + 1) == "/" + Slashes(a);
    assert "/" + rest == "/" + Slashes(a) + middle + tail;
  }

  lemma SlashAfter(head: string, b: nat, path: string)
    requires path != "" && path[|path| - 1] == '/' && path[..|path| - 1] == head + Slashes(b)
    ensures path == head + Slashes(b + 1)
  {
    assert path == head + Slashes(b) + "/";
    assert Slashes(b + 1) == Slashes(b) + "/";
  }

  /** Trimming cuts slashes off both ends, all of them and nothing else. */
  lemma {:induction false} TrimCuts(path: string) returns (a: nat, b: nat)
    ensures path == Slashes(a) + Trim(path) + Slashes(b)
    decreases |path|
  {
    a, b := 0, 0;
    if path != "" {
      if path[0] == '/' {
        a, b := TrimCuts(path[1..]);
        SlashBefore(a, Trim(path), Slashes(b), path);
        a := a + 1;
      } else if path[|path| - 1] == '/' {
        a, b := TrimCuts(path[..|path| - 1]);
        SlashAfter(Slashes(a) + Trim(path), b, path);
        b := b + 1;
      }
    }
  }
}
