/**
 * Maximum-finding over an int array, done three ways: a sequential scan, a
 * partition into `threadsCount` contiguous segments whose maxima are folded,
 * and recursive midpoint splitting with a threshold base case. Threads,
 * executors and fork/join are replaced by sequential loops and recursion;
 * the per-element sleeps and the timing are left out.
 */
module FirstApp {

  /** FindMaxTask.THRESHOLD: segments at most this long are scanned directly. */
  const THRESHOLD := 10

  // ---------------------------------------------------------------------
  // Specification of "the maximum"
  // ---------------------------------------------------------------------

  /** `m` is a maximum of `s`: it occurs in `s` and no element exceeds it. */
  ghost predicate IsMax(m: int, s: seq<int>)
  {
    m in s && forall i :: 0 <= i < |s| ==> s[i] <= m
  }

  /** Math.max. */
  function Max(x: int, y: int): (m: int)
    ensures x <= m && y <= m
    ensures m == x || m == y
  {
    if x >= y then x else y
  }

  /** The maximum of a non-empty sequence, as a reference definition. */
  function SeqMax(s: seq<int>): (m: int)
    requires |s| > 0
    ensures IsMax(m, s)
  {
    if |s| == 1 then s[0]
    else
      var m' := SeqMax(s[..|s| - 1]);
      assert forall i :: 0 <= i < |s| - 1 ==> s[..|s| - 1][i] == s[i];
      Max(m', s[|s| - 1])
  }

  /** A sequence has at most one maximum. */
  lemma IsMaxUnique(s: seq<int>, m1: int, m2: int)
    requires IsMax(m1, s) && IsMax(m2, s)
    ensures m1 == m2
  {
  }

  /** The maximum of a concatenation is the larger of the two maxima. */
  lemma IsMaxConcat(u: seq<int>, v: seq<int>, mu: int, mv: int)
    requires IsMax(mu, u) && IsMax(mv, v)
    ensures IsMax(Max(mu, mv), u + v)
  {
    forall i | 0 <= i < |u + v|
      ensures (u + v)[i] <= Max(mu, mv)
    {
      if i >= |u| {
        assert (u + v)[i] == v[i - |u|];
      }
    }
  }

  /** Extending a scanned prefix by one element. */
  lemma IsMaxStep(s: seq<int>, i: nat, m: int)
    requires 0 < i < |s|
    requires IsMax(m, s[..i])
    ensures IsMax(Max(m, s[i]), s[..i + 1])
  {
    assert s[..i + 1] == s[..i] + [s[i]];
    IsMaxConcat(s[..i], [s[i]], m, s[i]);
  }

  // ---------------------------------------------------------------------
  // findMaxSequentially
  // ---------------------------------------------------------------------

  /**
   * findMaxSequentially: starts from `array[0]` (so the array must not be
   * empty) and keeps the larger value while scanning the rest.
   */
  method FindMaxSequentially(a: array<int>) returns (max: int)
    requires a.Length > 0
    ensures IsMax(max, a[..])
    ensures max == SeqMax(a[..])
  {
    max := a[0];
    assert a[..1] == [a[0]];
    for i := 1 to a.Length
      invariant IsMax(max, a[..i])
    {
      IsMaxStep(a[..], i, max);
      if a[i] > max {
        max := a[i];
      }
    }
    assert a[..a.Length] == a[..];
    IsMaxUnique(a[..], max, SeqMax(a[..]));
  }

  // ---------------------------------------------------------------------
  // The segment partition of findMaxWithThreads
  // ---------------------------------------------------------------------

  // The helper lemmas MulMonotone and MulSucc, and the explicit steps in the
  // lemmas below, hand the solver the nonlinear facts of the segment
  // arithmetic one at a time, which keeps these proofs stable.

  lemma MulMonotone(x: int, y: int, c: nat)
    ensures x <= y ==> x * c <= y * c
  {
  }

  /** startIndex of segment `i` for an array of length `n` and `t` threads: it lies in the array. */
  function SegmentStart(n: nat, t: nat, i: nat): (start: int)
    requires t >= 1
    ensures i < t ==> 0 <= start <= n
  {
    var q := n / t;
    assert t * q <= n;
    MulMonotone(i, t, q);
    i * q
  }

  /** endIndex of segment `i`: the last segment runs to the end of the array, the others end within it. */
  function SegmentEnd(n: nat, t: nat, i: nat): (end: int)
    requires t >= 1
    ensures i < t ==> SegmentStart(n, t, i) <= end <= n
    ensures i == t - 1 ==> end == n
  {
    var q := n / t;
    assert t * q <= n;
    MulMonotone(i, i + 1, q);
    MulMonotone(i + 1, t, q);
    if i == t - 1 then n else (i + 1) * q
  }

  /** Every segment is a well-formed range inside the array. */
  lemma {:induction false} SegmentBounds(n: nat, t: nat, i: nat)
    requires t >= 1 && i < t
    ensures 0 <= SegmentStart(n, t, i) <= SegmentEnd(n, t, i) <= n
  {
    var q := n / t;
    assert t * q <= n;
    MulMonotone(i, i + 1, q);
    MulMonotone(i + 1, t, q);
    MulMonotone(i, t, q);
  }

  /** Adjacent segments meet; the first starts at 0 and the last ends at `n`. */
  lemma SegmentsContiguous(n: nat, t: nat)
    requires t >= 1
    ensures SegmentStart(n, t, 0) == 0
    ensures SegmentEnd(n, t, t - 1) == n
    ensures forall i :: 0 <= i < t - 1 ==> SegmentEnd(n, t, i) == SegmentStart(n, t, i + 1)
  {
  }

  lemma MulSucc(x: int, q: int)
    ensures (x + 1) * q == x * q + q
  {
  }

  /** With at least `t` elements, every segment length `n / t` is at least 1. */
  lemma DivAtLeastOne(n: nat, t: nat)
    requires 1 <= t <= n
    ensures n / t >= 1
    ensures t * (n / t) <= n
  {
    assert n == t * (n / t) + n % t;
    assert n % t < t;
  }

  /** With at least `t` elements, segment `i` is non-empty. */
  lemma SegmentNonEmpty(n: nat, t: nat, i: nat)
    requires 1 <= t <= n && i < t
    ensures SegmentStart(n, t, i) < SegmentEnd(n, t, i)
  {
    var q := n / t;
    DivAtLeastOne(n, t);
    if i == t - 1 {
      MulSucc(t - 1, q);
    } else {
      MulSucc(i, q);
    }
  }

  /**
   * Every segment is non-empty exactly when the array has at least as many
   * elements as there are threads. Otherwise segment 0 is empty, and so is
   * every segment but the last.
   */
  lemma SegmentsNonEmptyIff(n: nat, t: nat)
    requires t >= 1
    ensures (forall i :: 0 <= i < t ==> SegmentStart(n, t, i) < SegmentEnd(n, t, i)) <==> n >= t
    ensures n < t ==> SegmentStart(n, t, 0) == SegmentEnd(n, t, 0)
    ensures n < t ==> forall i :: 0 <= i < t - 1 ==> SegmentStart(n, t, i) == SegmentEnd(n, t, i)
  {
    if n >= t {
      forall i | 0 <= i < t
        ensures SegmentStart(n, t, i) < SegmentEnd(n, t, i)
      {
        SegmentNonEmpty(n, t, i);
      }
    } else {
      assert n / t == 0;
      assert SegmentStart(n, t, 0) == 0 == SegmentEnd(n, t, 0);
    }
  }

  /** Arrays.copyOfRange(array, startIndex, endIndex) for segment `i`: element `k` of the copy is element `startIndex + k` of the array. */
  function Segment(s: seq<int>, t: nat, i: nat): (copy: seq<int>)
    requires t >= 1 && i < t
    ensures |copy| == SegmentEnd(|s|, t, i) - SegmentStart(|s|, t, i)
    ensures forall k :: 0 <= k < |copy| ==> copy[k] == s[SegmentStart(|s|, t, i) + k]
  {
    SegmentBounds(|s|, t, i);
    s[SegmentStart(|s|, t, i)..SegmentEnd(|s|, t, i)]
  }

  /** The concatenation of a sequence of segments. */
  function Flatten(ss: seq<seq<int>>): seq<int>
  {
    if ss == [] then [] else Flatten(ss[..|ss| - 1]) + ss[|ss| - 1]
  }

  /** All `t` segments, in order. */
  function Segments(s: seq<int>, t: nat): (ss: seq<seq<int>>)
    requires t >= 1
    ensures |ss| == t
    ensures forall i :: 0 <= i < t ==> ss[i] == Segment(s, t, i)
  {
    seq(t, i requires 0 <= i < t => Segment(s, t, i))
  }

  /** The first `j` segments together are exactly the prefix up to segment `j - 1`'s end. */
  lemma {:induction false} SegmentsPrefix(s: seq<int>, t: nat, j: nat)
    requires 1 <= j <= t
    ensures SegmentEnd(|s|, t, j - 1) <= |s|
    ensures Flatten(Segments(s, t)[..j]) == s[..SegmentEnd(|s|, t, j - 1)]
  {
    var ss := Segments(s, t);
    SegmentBounds(|s|, t, j - 1);
    assert ss[..j][..j - 1] == ss[..j - 1];
    if j == 1 {
      assert ss[..0] == [];
      assert Flatten(ss[..1]) == Segment(s, t, 0);
    } else {
      SegmentsPrefix(s, t, j - 1);
      SegmentBounds(|s|, t, j - 2);
      var e0, e1 := SegmentEnd(|s|, t, j - 2), SegmentEnd(|s|, t, j - 1);
      assert SegmentStart(|s|, t, j - 1) == e0;
      assert s[..e1] == s[..e0] + s[e0..e1];
    }
  }

  /** The segments cover the array exactly, in order and without overlap. */
  lemma {:induction false} SegmentsPartition(s: seq<int>, t: nat)
    requires t >= 1
    ensures Flatten(Segments(s, t)) == s
  {
    SegmentsPrefix(s, t, t);
    assert Segments(s, t)[..t] == Segments(s, t);
  }

  // ---------------------------------------------------------------------
  // findMaxWithThreads
  // ---------------------------------------------------------------------

  /** Arrays.copyOfRange(array, from, to): a new array holding `array[from..to)`. */
  method CopyOfRange(a: array<int>, from: int, to: int) returns (copy: array<int>)
    requires 0 <= from <= to <= a.Length
    ensures fresh(copy)
    ensures copy[..] == a[from..to]
  {
    copy := new int[to - from](k requires 0 <= k < to - from reads a => a[from + k]);
  }

  /**
   * The submission loop of findMaxWithThreads: for each of the `t`
   * segments, FindMaxSequentially runs on a copy of the segment and its
   * result is stored in `futures`. No segment may be empty, so the array
   * needs at least `t` elements.
   */
  method SegmentMaxima(a: array<int>, t: nat) returns (futures: array<int>)
    requires t >= 1
    requires a.Length >= t
    ensures fresh(futures) && futures.Length == t
    ensures forall j :: 0 <= j < t ==> IsMax(futures[j], Segment(a[..], t, j))
  {
    ghost var s := a[..];
    var n := a.Length;
    futures := new int[t];
    for i := 0 to t
      invariant a[..] == s
      invariant forall j :: 0 <= j < i ==> IsMax(futures[j], Segment(s, t, j))
    {
      var startIndex := SegmentStart(n, t, i);
      var endIndex := SegmentEnd(n, t, i);
      SegmentNonEmpty(n, t, i);
      var copy := CopyOfRange(a, startIndex, endIndex);
      assert copy[..] == Segment(s, t, i);
      futures[i] := FindMaxSequentially(copy);
    }
  }

  /** Folding one more segment maximum into the maximum of the preceding segments. */
  lemma FoldStep(s: seq<int>, t: nat, i: nat, max: int, result: int)
    requires 1 <= i < t
    requires SegmentEnd(|s|, t, i - 1) <= |s|
    requires IsMax(max, s[..SegmentEnd(|s|, t, i - 1)])
    requires IsMax(result, Segment(s, t, i))
    ensures SegmentEnd(|s|, t, i) <= |s|
    ensures IsMax(Max(max, result), s[..SegmentEnd(|s|, t, i)])
  {
    SegmentBounds(|s|, t, i);
    var e0, e1 := SegmentEnd(|s|, t, i - 1), SegmentEnd(|s|, t, i);
    assert SegmentStart(|s|, t, i) == e0;
    assert s[..e1] == s[..e0] + Segment(s, t, i);
    IsMaxConcat(s[..e0], Segment(s, t, i), max, result);
  }

  /**
   * findMaxWithThreads with `t` = threadsCount: the segment maxima are
   * folded starting from `futures[0]`, keeping the larger value.
   */
  method FindMaxWithThreads(a: array<int>, t: nat) returns (max: int)
    requires t >= 1
    requires a.Length >= t
    ensures IsMax(max, a[..])
    ensures max == SeqMax(a[..])
  {
    var futures := SegmentMaxima(a, t);
    ghost var s := a[..];
    ghost var n := a.Length;
    max := futures[0];
    SegmentBounds(n, t, 0);
    ghost var e := SegmentEnd(n, t, 0);
    assert s[..e] == Segment(s, t, 0);
    for i := 1 to t
      invariant forall j :: 0 <= j < t ==> IsMax(futures[j], Segment(s, t, j))
      invariant e == SegmentEnd(n, t, i - 1) && e <= n
      invariant IsMax(max, s[..e])
    {
      var result := futures[i];
      FoldStep(s, t, i, max, result);
      if result > max {
        max := result;
      }
      e := SegmentEnd(n, t, i);
    }
    assert s[..e] == s;
    IsMaxUnique(s, max, SeqMax(s));
  }

  // ---------------------------------------------------------------------
  // FindMaxTask.compute and findMaxWithForkJoin
  // ---------------------------------------------------------------------

  /** The split point of compute: both halves are non-empty and shorter. */
  function Middle(start: int, end: int): (middle: int)
    requires 0 <= start && end - start > THRESHOLD
    ensures start < middle < end
    ensures middle - start < end - start && end - middle < end - start
  {
    (start + end) / 2
  }

  /**
   * FindMaxTask.compute for the task over `a[start..end)`: a range of at
   * most THRESHOLD elements is scanned from `a[start]` (so it must not be
   * empty); a longer one is split at Middle and the halves are combined
   * with Max. The fork of the left half becomes an ordinary call.
   */
  method Compute(a: array<int>, start: int, end: int) returns (r: int)
    requires 0 <= start < end <= a.Length
    ensures IsMax(r, a[start..end])
    decreases end - start
  {
    if end - start <= THRESHOLD {
      var max := a[start];
      assert a[start..start + 1] == [a[start]];
      for i := start + 1 to end
        invariant IsMax(max, a[start..i])
      {
        assert a[start..i + 1] == a[start..i] + [a[i]];
        IsMaxConcat(a[start..i], [a[i]], max, a[i]);
        if a[i] > max {
          max := a[i];
        }
      }
      r := max;
    } else {
      var middle := Middle(start, end);
      var rightResult := Compute(a, middle, end);
      var leftResult := Compute(a, start, middle);
      assert a[start..end] == a[start..middle] + a[middle..end];
      IsMaxConcat(a[start..middle], a[middle..end], leftResult, rightResult);
      r := Max(leftResult, rightResult);
    }
  }

  /** findMaxWithForkJoin: the task over the whole array. */
  method FindMaxWithForkJoin(a: array<int>) returns (max: int)
    requires a.Length > 0
    ensures IsMax(max, a[..])
    ensures max == SeqMax(a[..])
  {
    max := Compute(a, 0, a.Length);
    assert a[0..a.Length] == a[..];
    IsMaxUnique(a[..], max, SeqMax(a[..]));
  }

  /**
   * The three computations of main, on one array and `t` threads: they
   * agree, and the common value is the array's maximum.
   */
  method FindMaxAllWays(a: array<int>, t: nat) returns (sequential: int, threads: int, forkJoin: int)
    requires t >= 1 && a.Length >= t
    ensures sequential == threads == forkJoin
    ensures IsMax(sequential, a[..])
  {
    sequential := FindMaxSequentially(a);
    threads := FindMaxWithThreads(a, t);
    forkJoin := FindMaxWithForkJoin(a);
  }
}
