/** `remove_subpaths`: keep one path of every group in which the others lie below it. */
module RemoveSubpaths {
  import opened Text
  import opened Sorting

  /** `sub` is `path` itself or lies below it. */
  predicate Covers(path: string, sub: string) {
    sub == path || path + "/" <= sub
  }

  /** The list comparison of the source on split paths is the textual relation above. */
  lemma {:induction false} SplitPrefixIffCovers(a: string, b: string)
    ensures Split(a, '/') <= Split(b, '/') <==> Covers(a, b)
  {
    if Split(a, '/') <= Split(b, '/') && Split(a, '/') != Split(b, '/') {
      var below := Split(b, '/')[|Split(a, '/')|..];
      assert Split(b, '/') == Split(a, '/') + below;
      JoinSplit(a, '/');
      JoinSplit(b, '/');
      JoinConcat(Split(a, '/'), below, '/');
    } else if Split(a, '/') == Split(b, '/') {
      JoinSplit(a, '/');
      JoinSplit(b, '/');
    }
    if a + "/" <= b {
      assert b == a + "/" + b[|a| + 1..];
      SplitConcat(a, b[|a| + 1..], '/');
    }
  }

  /** Two paths above the same path are one above the other. */
  lemma CoversComparable(a: string, b: string, c: string)
    requires Covers(a, c) && Covers(b, c)
    ensures Covers(a, b) || Covers(b, a)
  {
    if |a| < |b| {
      assert b == c[..|b|] && a + "/" == c[..|a| + 1];
      assert a + "/" == b[..|a| + 1];
    } else if |b| < |a| {
      assert a == c[..|a|] && b + "/" == c[..|b| + 1];
      assert b + "/" == a[..|b| + 1];
    } else {
      assert a == c[..|a|] && b == c[..|b|];
    }
  }

  ghost predicate NestedFree(paths: seq<string>) {
    forall i, j :: 0 <= i < |paths| && 0 <= j < |paths| && i != j ==> !Covers(paths[i], paths[j])
  }

  ghost predicate Topmost(p: string, paths: seq<string>) {
    p in paths && forall r :: r in paths && Covers(r, p) ==> r == p
  }

  /** `m` continues the text of `p` with a character that sorts below the separator. */
  predicate TextualSibling(p: string, m: string) {
    p <= m && |p| < |m| && m[|p|] < '/'
  }

  /** A topmost path has both a path below it and a textual sibling: `/a`, `/a-b`, `/a/b`. */
  ghost predicate SiblingSplitsFamily(paths: seq<string>) {
    exists p, m, q :: Topmost(p, paths) && m in paths && q in paths && q != p && Covers(p, q) && TextualSibling(p, m)
  }

  type Order = (string, string) -> bool

  /** The facts about the order of strings that the argument rests on. */
  ghost predicate TextOrder(le: Order) {
    && TotalPreorder(le)
    && (forall a, b :: le(a, b) && le(b, a) ==> a == b)
    && (forall a: string, b: string :: a <= b ==> le(a, b))
    && (forall p, m, q :: le(p, m) && le(m, q) && Covers(p, q) ==> Covers(p, m) || p == m || TextualSibling(p, m))
    && (forall p, m, q :: TextualSibling(p, m) && Covers(p, q) && p != q ==> le(m, q))
  }

  lemma StringLeIsTextOrder()
    ensures TextOrder(StringLe)
  {
    forall a, b ensures StringLe(a, b) || StringLe(b, a) {
      StringLeTotal(a, b);
    }
    forall a, b, c | StringLe(a, b) && StringLe(b, c) ensures StringLe(a, c) {
      StringLeTransitive(a, b, c);
    }
    forall a, b | StringLe(a, b) && StringLe(b, a) ensures a == b {
      StringLeAntisymmetric(a, b);
    }
    forall a: string, b: string | a <= b ensures StringLe(a, b) {
      PrefixIsBelow(a, b);
    }
    forall p, m, q | StringLe(p, m) && StringLe(m, q) && Covers(p, q)
      ensures Covers(p, m) || p == m || TextualSibling(p, m)
    {
      BetweenFamily(p, m, q);
    }
    forall p, m, q | TextualSibling(p, m) && Covers(p, q) && p != q ensures StringLe(m, q) {
      SiblingSortsBelow(p, m, q);
    }
  }

  /** Between a path and its descendant sort only descendants and textual siblings. */
  lemma {:induction false} BetweenFamily(p: string, m: string, q: string)
    requires StringLe(p, m) && StringLe(m, q) && Covers(p, q)
    ensures Covers(p, m) || TextualSibling(p, m)
  {
    BetweenExtendsPrefix(p, m, q);
    if p == q {
      StringLeAntisymmetric(p, m);
    } else {
      var a, b := m[|p|..], q[|p|..];
      assert m == p + a && q == p + b;
      assert b[0] == (p + "/")[|p|];
      StringLeSharedPrefix(p, a, b);
      if a == "" {
        assert m == p;
      } else if a[0] == '/' {
        assert p + "/" == m[..|p| + 1];
      }
    }
  }

  lemma {:induction false} SiblingSortsBelow(p: string, m: string, q: string)
    requires TextualSibling(p, m) && q != p && Covers(p, q)
    ensures StringLe(m, q)
  {
    var a, b := m[|p|..], q[|p|..];
    assert m == p + a && q == p + b;
    assert b[0] == (p + "/")[|p|];
    StringLeSharedPrefix(p, a, b);
  }

  /** `kept[k]` covers `p`, and every later kept path sorts at or after `p`. */
  ghost predicate NearestCover(kept: seq<string>, k: int, p: string, le: Order) {
    0 <= k < |kept| && Covers(kept[k], p) && forall i :: k < i < |kept| ==> le(p, kept[i])
  }

  ghost predicate AllCovered(kept: seq<string>, seen: seq<string>, le: Order) {
    forall p :: p in seen ==> exists k :: NearestCover(kept, k, p, le)
  }

  ghost predicate StrictlySorted(kept: seq<string>, le: Order) {
    forall i, j :: 0 <= i < j < |kept| ==> le(kept[i], kept[j]) && kept[i] != kept[j]
  }

  /** What the loop over the sorted list establishes for the paths it has seen. */
  ghost predicate Kept(kept: seq<string>, seen: seq<string>, le: Order) {
    && (forall k :: k in kept ==> k in seen)
    && StrictlySorted(kept, le)
    && (forall i :: 0 <= i < |kept| - 1 ==> !Covers(kept[i], kept[i + 1]))
    && AllCovered(kept, seen, le)
  }

  lemma DropStep(kept: seq<string>, seen: seq<string>, path: string, le: Order)
    requires kept != [] && Kept(kept, seen, le)
    requires Covers(kept[|kept| - 1], path)
    ensures Kept(kept, seen + [path], le)
  {
    assert NearestCover(kept, |kept| - 1, path, le);
    forall p | p in seen + [path] ensures exists k :: NearestCover(kept, k, p, le) {
      assert p in seen || p == path;
    }
  }

  lemma KeepStep(kept: seq<string>, seen: seq<string>, path: string, le: Order)
    requires TextOrder(le)
    requires kept != [] && Kept(kept, seen, le)
    requires forall p :: p in seen ==> le(p, path)
    requires !Covers(kept[|kept| - 1], path)
    ensures Kept(kept + [path], seen + [path], le)
  {
    KeepStaysCovered(kept, seen, path, le);
    KeepStaysSorted(kept, seen, path, le);
  }

  lemma KeepStaysCovered(kept: seq<string>, seen: seq<string>, path: string, le: Order)
    requires AllCovered(kept, seen, le) && forall p :: p in seen ==> le(p, path)
    ensures AllCovered(kept + [path], seen + [path], le)
  {
    var grown := kept + [path];
    assert NearestCover(grown, |kept|, path, le);
    forall p | p in seen + [path] ensures exists k :: NearestCover(grown, k, p, le) {
      if p in seen {
        var k :| NearestCover(kept, k, p, le);
        assert NearestCover(grown, k, p, le);
      }
    }
  }

  lemma KeepStaysSorted(kept: seq<string>, seen: seq<string>, path: string, le: Order)
    requires TextOrder(le) && kept != [] && StrictlySorted(kept, le)
    requires forall k :: k in kept ==> k in seen
    requires forall p :: p in seen ==> le(p, path)
    requires !Covers(kept[|kept| - 1], path)
    ensures StrictlySorted(kept + [path], le)
  {
    var last := kept[|kept| - 1];
    forall i | 0 <= i < |kept| ensures le(kept[i], path) && kept[i] != path {
      assert kept[i] in kept && last in kept;
    }
  }

  lemma SiblingNotCovered(p: string, m: string)
    requires TextualSibling(p, m)
    ensures !Covers(p, m)
  {
    assert |m| > |p| && m[..|p| + 1][|p|] == m[|p|];
  }

  /** Whatever covers a sibling of `p` either extends `p` or covers `p` from above. */
  lemma SiblingCover(k: string, p: string, m: string)
    requires TextualSibling(p, m) && Covers(k, m)
    ensures k != p
    ensures TextualSibling(p, k) || Covers(k, p)
  {
    SiblingNotCovered(p, m);
    if |k| > |p| {
      assert k == m[..|k|] && p == m[..|p|];
      assert p == k[..|p|];
    } else if |k| < |p| {
      assert k + "/" == m[..|k| + 1] && p == m[..|p|];
      assert k + "/" == p[..|k| + 1];
    }
  }

  /** A sibling between a kept path and its descendant makes the loop keep the descendant too. */
  lemma SiblingBreaksNesting(kept: seq<string>, paths: seq<string>, le: Order, p: string, m: string, q: string)
    requires TextOrder(le) && Kept(kept, paths, le)
    requires Topmost(p, paths) && m in paths && q in paths && q != p && Covers(p, q) && TextualSibling(p, m)
    ensures !NestedFree(kept)
  {
    var kp :| NearestCover(kept, kp, p, le);
    assert kept[kp] == p;
    var kq :| NearestCover(kept, kq, q, le);
    var km :| NearestCover(kept, km, m, le);
    assert le(m, q) && le(kept[km], m);
    SiblingCover(kept[km], p, m);
    SiblingNotCovered(p, m);
    if kq != kp {
      CoversComparable(p, kept[kq], q);
    }
  }

  /** If the loop keeps a nested pair, the input holds a sibling that caused it. */
  lemma NestingNeedsSibling(kept: seq<string>, paths: seq<string>, le: Order, i: nat, j: nat)
    requires TextOrder(le) && Kept(kept, paths, le)
    requires i < |kept| && j < |kept| && i != j && Covers(kept[i], kept[j])
    ensures SiblingSplitsFamily(paths)
    decreases i
  {
    var p, q := kept[i], kept[j];
    assert le(p, q) && i < j;
    if above :| above in paths && Covers(above, p) && above != p {
      var k :| NearestCover(kept, k, above, le);
      assert k < i;
      NestingNeedsSibling(kept, paths, le, k, j);
    } else {
      var m := kept[i + 1];
      assert le(p, m) && le(m, q);
      assert Topmost(p, paths) && TextualSibling(p, m);
    }
  }

  lemma NestedFreeIff(kept: seq<string>, paths: seq<string>, le: Order)
    requires TextOrder(le) && Kept(kept, paths, le)
    ensures NestedFree(kept) <==> !SiblingSplitsFamily(paths)
  {
    if SiblingSplitsFamily(paths) {
      var p, m, q :| Topmost(p, paths) && m in paths && q in paths && q != p && Covers(p, q) && TextualSibling(p, m);
      SiblingBreaksNesting(kept, paths, le, p, m, q);
    }
    if !NestedFree(kept) {
      var i, j :| 0 <= i < |kept| && 0 <= j < |kept| && i != j && Covers(kept[i], kept[j]);
      NestingNeedsSibling(kept, paths, le, i, j);
    }
  }

  /** The comparison of the loop: the parts of `last` are a prefix of the parts of `path`. */
  predicate LiesUnder(last: string, path: string): (r: bool)
    ensures r == Covers(last, path)
  {
    SplitPrefixIffCovers(last, path);
    var lastParts, parts := Split(last, '/'), Split(path, '/');
    |lastParts| <= |parts| && parts[..|lastParts|] == lastParts
  }

  /** The loop over the sorted list. */
  method KeepTopmost(sorted: seq<string>, ghost le: Order) returns (kept: seq<string>)
    requires sorted != [] && TextOrder(le) && SortedBy(sorted, le)
    ensures forall k :: k in kept ==> k in sorted
    ensures forall p :: p in sorted ==> exists i :: 0 <= i < |kept| && Covers(kept[i], p)
    ensures forall i, j :: 0 <= i < j < |kept| ==> kept[i] != kept[j]
    ensures NestedFree(kept) <==> !SiblingSplitsFamily(sorted)
  {
    kept := [sorted[0]];
    ghost var seen := [sorted[0]];
    assert NearestCover(kept, 0, sorted[0], le);
    var i := 0;
    while i < |sorted|
      invariant 0 <= i <= |sorted|
      invariant kept != [] && Kept(kept, seen, le)
      invariant i == 0 ==> kept == seen == [sorted[0]]
      invariant i > 0 ==> seen == sorted[..i]
    {
      if LiesUnder(kept[|kept| - 1], sorted[i]) {
        DropStep(kept, seen, sorted[i], le);
      } else {
        KeepStep(kept, seen, sorted[i], le);
        kept := kept + [sorted[i]];
      }
      seen := if i == 0 then seen else seen + [sorted[i]];
      i := i + 1;
    }
    assert seen == sorted;
    KeptCoversAll(kept, sorted, le);
    NestedFreeIff(kept, sorted, le);
  }

  method RemoveSubpaths(paths: seq<string>) returns (kept: seq<string>)
    ensures forall k :: k in kept ==> k in paths
    ensures forall p :: p in paths ==> exists i :: 0 <= i < |kept| && Covers(kept[i], p)
    ensures forall i, j :: 0 <= i < j < |kept| ==> kept[i] != kept[j]
    ensures NestedFree(kept) <==> !SiblingSplitsFamily(paths)
  {
    if paths == [] {
      return [];
    }
    StringLeIsTextOrder();
    var sorted := Sort(paths, StringLe);
    SortKeepsMembers(paths, StringLe);
    SortIsSorted(paths, StringLe);
    SameMembers(sorted, paths);
    SameFamilies(sorted, paths);
    kept := KeepTopmost(sorted, StringLe);
  }

  lemma KeptCoversAll(kept: seq<string>, paths: seq<string>, le: Order)
    requires Kept(kept, paths, le)
    ensures forall k :: k in kept ==> k in paths
    ensures forall p :: p in paths ==> exists i :: 0 <= i < |kept| && Covers(kept[i], p)
    ensures forall i, j :: 0 <= i < j < |kept| ==> kept[i] != kept[j]
  {
    forall p | p in paths ensures exists i :: 0 <= i < |kept| && Covers(kept[i], p) {
      var n :| NearestCover(kept, n, p, le);
    }
  }

  lemma SameFamilies(a: seq<string>, b: seq<string>)
    requires forall x :: x in a <==> x in b
    ensures SiblingSplitsFamily(a) <==> SiblingSplitsFamily(b)
  {
    forall p ensures Topmost(p, a) <==> Topmost(p, b) {
    }
  }

  /** No character that may occur in the paths sorts below the separator: no nesting survives. */
  lemma NoLowCharacterNoSibling(paths: seq<string>)
    requires forall p, i :: p in paths && 0 <= i < |p| ==> p[i] >= '/'
    ensures !SiblingSplitsFamily(paths)
  {
  }

  /** Three paths of which the last lies below the first and the second sorts between them. */
  const SPLIT_FAMILY: seq<string> := ["/a", "/a-b", "/a/b"]

  lemma SplitFamily()
    ensures SiblingSplitsFamily(SPLIT_FAMILY)
    ensures forall p, q :: p in SPLIT_FAMILY && q in SPLIT_FAMILY && p != q && Covers(p, q) ==> p == "/a" && q == "/a/b"
  {
    var paths := SPLIT_FAMILY;
    assert paths[0] in paths && paths[1] in paths && paths[2] in paths;
    assert Topmost(paths[0], paths);
    assert TextualSibling(paths[0], paths[1]) && Covers(paths[0], paths[2]);
  }

  /**
   * The documented promise fails on a path whose sibling sorts before the separator: whatever list meets the
   * contract of `RemoveSubpaths` for these three paths holds all of them.
   */
  lemma NestedPathSurvives(kept: seq<string>)
    requires forall k :: k in kept ==> k in SPLIT_FAMILY
    requires forall p :: p in SPLIT_FAMILY ==> exists i :: 0 <= i < |kept| && Covers(kept[i], p)
    requires forall i, j :: 0 <= i < j < |kept| ==> kept[i] != kept[j]
    requires NestedFree(kept) <==> !SiblingSplitsFamily(SPLIT_FAMILY)
    ensures forall p :: p in SPLIT_FAMILY ==> p in kept
    ensures Covers("/a", "/a/b")
  {
    SplitFamily();
    var i, j :| 0 <= i < |kept| && 0 <= j < |kept| && i != j && Covers(kept[i], kept[j]);
    assert kept[i] == "/a" && kept[j] == "/a/b";
    assert "/a-b" in SPLIT_FAMILY by { assert SPLIT_FAMILY[1] == "/a-b"; }
    var m :| 0 <= m < |kept| && Covers(kept[m], "/a-b");
    assert kept[m] == "/a-b";
  }
}
