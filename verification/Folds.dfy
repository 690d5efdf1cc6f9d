/** Folding a list into a table whose order of rows does not matter. */
module Folds {

  type Step<!A, !E> = (seq<A>, E) -> seq<A>

  function Fold<A, E>(step: Step<A, E>, items: seq<E>): seq<A> {
    if items == [] then [] else step(Fold(step, items[..|items| - 1]), items[|items| - 1])
  }

  ghost predicate Same<A>(a: seq<A>, b: seq<A>) {
    multiset(a) == multiset(b)
  }

  /** On tables that are `good` the step minds neither the order of the rows nor that of two items. */
  ghost predicate Orderless<A(!new), E(!new)>(step: Step<A, E>, good: seq<A> -> bool) {
    && good([])
    && (forall a, x :: good(a) ==> good(step(a, x)))
    && (forall a, x, y :: good(a) ==> Same(step(step(a, x), y), step(step(a, y), x)))
    && (forall a, b, x :: good(a) && good(b) && Same(a, b) ==> Same(step(a, x), step(b, x)))
  }

  lemma {:induction false} FoldIsGood<A(!new), E(!new)>(step: Step<A, E>, good: seq<A> -> bool, items: seq<E>)
    requires Orderless(step, good)
    ensures good(Fold(step, items))
  {
    if items != [] {
      FoldIsGood(step, good, items[..|items| - 1]);
    }
  }

  lemma {:induction false} FoldAppend<A, E>(step: Step<A, E>, items: seq<E>, x: E)
    ensures Fold(step, items + [x]) == step(Fold(step, items), x)
  {
    assert (items + [x])[..|items|] == items;
  }

  /** Replacing one element, at the head of a list or behind it. */
  lemma ReplaceHead<T>(former: T, rest: seq<T>, newer: T)
    ensures multiset([newer] + rest) == multiset([former] + rest) - multiset{former} + multiset{newer}
  {
  }

  lemma ReplaceBehind<T>(head: T, rest: seq<T>, after: seq<T>, former: T, newer: T)
    requires former in rest && multiset(after) == multiset(rest) - multiset{former} + multiset{newer}
    ensures multiset([head] + after) == multiset([head] + rest) - multiset{former} + multiset{newer}
  {
    assert former in multiset(rest);
  }

  /** An item may as well come last. */
  lemma {:induction false} MoveToEnd<A(!new), E(!new)>(
    step: Step<A, E>, good: seq<A> -> bool, a: seq<E>, x: E, b: seq<E>)
    requires Orderless(step, good)
    ensures Same(Fold(step, a + [x] + b), Fold(step, a + b + [x]))
    decreases |b|
  {
    if b == [] {
      assert a + [x] + b == a + b + [x];
    } else {
      var front, y := b[..|b| - 1], b[|b| - 1];
      MoveToEnd(step, good, a, x, front);
      assert a + [x] + b == a + [x] + front + [y] && a + b == a + front + [y];
      FoldAppend(step, a + [x] + front, y);
      FoldAppend(step, a + front + [x], y);
      FoldAppend(step, a + front, x);
      FoldAppend(step, a + front, y);
      FoldAppend(step, a + b, x);
      FoldIsGood(step, good, a + [x] + front);
      FoldIsGood(step, good, a + front + [x]);
      FoldIsGood(step, good, a + front);
    }
  }

  lemma CancelOne<T>(a: multiset<T>, b: multiset<T>, x: T)
    requires a + multiset{x} == b + multiset{x}
    ensures a == b
  {
    forall y ensures a[y] == b[y] {
      assert (a + multiset{x})[y] == (b + multiset{x})[y];
    }
  }

  lemma Around<T>(s: seq<T>, x: T) returns (a: seq<T>, b: seq<T>)
    requires x in multiset(s)
    ensures s == a + [x] + b && multiset(s) == multiset(a + b) + multiset{x} && |s| == |a + b| + 1
  {
    var i :| 0 <= i < |s| && s[i] == x;
    a, b := s[..i], s[i + 1..];
    assert s == a + [x] + b;
  }

  lemma InBoth<T>(s: seq<T>, t: seq<T>, x: T)
    requires Same(s, t)
    ensures x in s <==> x in t
  {
    assert x in s <==> x in multiset(s);
    assert x in t <==> x in multiset(t);
  }

  lemma PairSwaps<T>(x: T, y: T)
    ensures Same([x] + [y], [y] + [x])
  {
    assert multiset([x] + [y]) == multiset{x, y} && multiset([y] + [x]) == multiset{x, y};
  }

  /** The table is the same for every order of the items. */
  lemma {:induction false} FoldOfPermutation<A(!new), E(!new)>(
    step: Step<A, E>, good: seq<A> -> bool, s: seq<E>, t: seq<E>)
    requires Orderless(step, good) && Same(s, t)
    ensures Same(Fold(step, s), Fold(step, t))
  {
    if s == [] {
      assert |multiset(t)| == 0;
    } else {
      var front, x := s[..|s| - 1], s[|s| - 1];
      assert s == front + [x];
      var a, b := Around(t, x);
      CancelOne(multiset(front), multiset(a + b), x);
      FoldOfPermutation(step, good, front, a + b);
      LastStep(step, good, front, a, x, b);
    }
  }

  lemma {:induction false} LastStep<A(!new), E(!new)>(
    step: Step<A, E>, good: seq<A> -> bool, front: seq<E>, a: seq<E>, x: E, b: seq<E>)
    requires Orderless(step, good) && Same(Fold(step, front), Fold(step, a + b))
    ensures Same(Fold(step, front + [x]), Fold(step, a + [x] + b))
  {
    MoveToEnd(step, good, a, x, b);
    FoldAppend(step, front, x);
    FoldAppend(step, a + b, x);
    FoldIsGood(step, good, front);
    FoldIsGood(step, good, a + b);
  }
}
