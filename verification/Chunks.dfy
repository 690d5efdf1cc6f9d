/** `chunked`: a list cut into consecutive pieces of one length, the last possibly shorter. */
module Chunks {

  function Flatten<T>(chunks: seq<seq<T>>): seq<T> {
    if chunks == [] then [] else chunks[0] + Flatten(chunks[1..])
  }

  lemma {:induction false} FlattenAppend<T>(chunks: seq<seq<T>>, last: seq<T>)
    ensures Flatten(chunks + [last]) == Flatten(chunks) + last
  {
    if chunks == [] {
      assert chunks + [last] == [last];
      assert Flatten([last]) == last + Flatten([]);
    } else {
      FlattenAppend(chunks[1..], last);
      assert (chunks + [last])[1..] == chunks[1..] + [last];
    }
  }

  /** The chunks a generator over `s` yields: all of length `n` but the last, none empty. */
  ghost predicate IsChunking<T>(chunks: seq<seq<T>>, s: seq<T>, n: nat) {
    && Flatten(chunks) == s
    && (forall i :: 0 <= i < |chunks| ==> 0 < |chunks[i]| <= n)
    && (forall i :: 0 <= i < |chunks| - 1 ==> |chunks[i]| == n)
  }

  lemma MulStep(n: nat, k: nat)
    ensures n * (k + 1) == n * k + n
  {
  }

  /** The generator's loop: take the next `n` items until nothing is left. */
  method Chunked<T>(s: seq<T>, n: int) returns (chunks: seq<seq<T>>)
    requires n >= 1
    ensures IsChunking(chunks, s, n)
    ensures |s| == 0 <==> |chunks| == 0
    ensures n * |chunks| < |s| + n
  {
    chunks := [];
    var taken := 0;
    ghost var full := 0;
    while taken < |s|
      invariant 0 <= taken <= |s|
      invariant Flatten(chunks) == s[..taken]
      invariant full == n * |chunks| && full < taken + n
      invariant taken < |s| ==> taken == full && forall i :: 0 <= i < |chunks| ==> |chunks[i]| == n
      invariant forall i :: 0 <= i < |chunks| ==> 0 < |chunks[i]| <= n
      invariant forall i :: 0 <= i < |chunks| - 1 ==> |chunks[i]| == n
      invariant taken == 0 <==> |chunks| == 0
    {
      var chunk := s[taken..if taken + n < |s| then taken + n else |s|];
      FlattenAppend(chunks, chunk);
      assert s[..taken] + chunk == s[..taken + |chunk|];
      MulStep(n, |chunks|);
      full := full + n;
      chunks := chunks + [chunk];
      taken := taken + |chunk|;
    }
    assert s[..taken] == s;
  }

  /** The largest integer whose square does not exceed `n`: `int(sqrt(n))` without rounding. */
  function Isqrt(n: nat): (s: nat)
    ensures s * s <= n < (s + 1) * (s + 1)
  {
    if n == 0 then 0
    else
      var s := Isqrt(n - 1);
      if (s + 1) * (s + 1) <= n then s + 1 else s
  }
}
