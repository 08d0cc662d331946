/**
 * Bounded position histories: the victim's breadcrumbs and the responder's trail
 * are both kept by pushing the new point and then slicing off all but the last
 * `cap` points.
 */
module Trail {
  import opened Sequences

  /** Push `x`, then keep the last `cap` entries (`push(x)` followed by `slice(-cap)`). */
  function AppendBounded<T>(s: seq<T>, x: T, cap: nat): (r: seq<T>)
    ensures cap > 0 ==> |r| == Min(|s| + 1, cap)
    ensures cap > 0 ==> r[|r| - 1] == x
    ensures |r| <= |s| + 1 && r == (s + [x])[|s| + 1 - |r|..]
  {
    KeepLast(s + [x], cap)
  }

  /** Pushing each point of `xs` in turn, as successive location updates do. */
  function AppendEach<T>(s: seq<T>, xs: seq<T>, cap: nat): seq<T>
    decreases |xs|
  {
    if |xs| == 0 then s else AppendEach(AppendBounded(s, xs[0], cap), xs[1..], cap)
  }

  /** Cutting to the last `n` before appending more does not change the last `n` after. */
  lemma KeepLastAbsorbs<T>(a: seq<T>, ys: seq<T>, n: nat)
    requires n > 0
    ensures KeepLast(KeepLast(a, n) + ys, n) == KeepLast(a + ys, n)
  {
    if |a| > n {
      var t := a + ys;
      assert KeepLast(a, n) + ys == t[|a| - n..];
      assert t[|a| - n..][|t| - (|a| - n) - n..] == t[|t| - n..];
    }
  }

  /**
   * However many points arrive one by one, the stored trail is exactly the last
   * `cap` of everything: the old trail followed by all new points, oldest first.
   */
  lemma {:induction false} AppendEachKeepsLast<T>(s: seq<T>, xs: seq<T>, cap: nat)
    requires cap > 0 && |xs| > 0
    ensures AppendEach(s, xs, cap) == KeepLast(s + xs, cap)
    decreases |xs|
  {
    var head, rest := s + [xs[0]], xs[1..];
    var s' := AppendBounded(s, xs[0], cap);
    assert s' == KeepLast(head, cap);
    assert head + rest == s + xs by { assert xs == [xs[0]] + rest; }
    assert AppendEach(s, xs, cap) == AppendEach(s', rest, cap);
    if |rest| == 0 {
      assert head == s + xs;
    } else {
      AppendEachKeepsLast(s', rest, cap);
      KeepLastAbsorbs(head, rest, cap);
    }
  }

  /** The cap is an invariant of every trail that only grows by AppendBounded. */
  lemma {:induction false} AppendEachBounded<T>(s: seq<T>, xs: seq<T>, cap: nat)
    requires cap > 0 && |s| <= cap
    ensures |AppendEach(s, xs, cap)| <= cap
    decreases |xs|
  {
    if |xs| > 0 {
      AppendEachBounded(AppendBounded(s, xs[0], cap), xs[1..], cap);
    }
  }
}
