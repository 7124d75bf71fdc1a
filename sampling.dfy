/**
 * Stride down-sampling of the point list to the matching service's budget
 * (app.py:16, app.py:37-39): above MAX_MATCH_POINTS points only every step-th
 * point is kept, starting with the first, where step is the point count
 * divided by MAX_MATCH_POINTS, rounded down, plus one.
 */
module Sampling {

  /** At most this many points are sent to the matching service (app.py:16). */
  const MAX_MATCH_POINTS: nat := 100

  /** ceil(n / d) on naturals. */
  function CeilDiv(n: nat, d: nat): nat
    requires d > 0
  {
    (n + d - 1) / d
  }

  /** The stride used for a list of n points and a budget: `n // budget + 1`. */
  function StepFor(n: nat, budget: nat): nat
    requires budget > 0
  {
    n / budget + 1
  }

  /** Python's `s[::step]`: the elements at indices 0, step, 2*step, ... below |s|. */
  function Stride<T>(s: seq<T>, step: nat): seq<T>
    requires step > 0
    decreases |s|
  {
    if |s| == 0 then [] else [s[0]] + Stride(s[(if step < |s| then step else |s|)..], step)
  }

  /** The sampling step with a general budget: unchanged up to the budget, strided above it. */
  function DownsampleTo<T>(pts: seq<T>, budget: nat): seq<T>
    requires budget > 0
  {
    if |pts| > budget then Stride(pts, StepFor(|pts|, budget)) else pts
  }

  /** The app's sampling step (app.py:37-39). */
  function Downsample<T>(pts: seq<T>): seq<T>
  {
    DownsampleTo(pts, MAX_MATCH_POINTS)
  }

  /** sub is obtained from s by deleting elements: nothing reordered, duplicated or invented. */
  ghost predicate IsSubsequence<T>(sub: seq<T>, s: seq<T>)
    decreases |s|
  {
    if |sub| == 0 then true
    else if |s| == 0 then false
    else (sub[0] == s[0] && IsSubsequence(sub[1..], s[1..])) || IsSubsequence(sub, s[1..])
  }

  // ---------------------------------------------------------------------------
  // Arithmetic

  lemma MulMonotone(a: int, b: int, d: nat)
    requires a <= b
    ensures a * d <= b * d
  {
  }

  /** c = ceil(n / d) is the one count with (c - 1) * d < n <= c * d. */
  lemma CeilDivBounds(n: nat, d: nat)
    requires n > 0 && d > 0
    ensures (CeilDiv(n, d) - 1) * d < n <= CeilDiv(n, d) * d
  {
  }

  lemma CountUnique(a: int, b: int, n: int, d: nat)
    requires d > 0
    requires (a - 1) * d < n <= a * d
    requires (b - 1) * d < n <= b * d
    ensures a == b
  {
  }

  /**
   * The budget arithmetic: above the budget B, step = n // B + 1 is at least 2
   * and ceil(n / step) points, between 1 and B, survive.
   */
  lemma {:induction false} BudgetStep(n: nat, budget: nat)
    requires 0 < budget < n
    ensures StepFor(n, budget) >= 2
    ensures 0 < CeilDiv(n, StepFor(n, budget)) <= budget
  {
    var step := StepFor(n, budget);
    var q, r := n / budget, n % budget;
    assert n == q * budget + r && r < budget;
    assert q >= 1;
    assert n < step * budget by {
      assert step * budget == q * budget + budget;
    }
    var c := CeilDiv(n, step);
    CeilDivBounds(n, step);
    if c > budget {
      MulMonotone(budget, c - 1, step);
    }
  }

  // ---------------------------------------------------------------------------
  // The stride selection

  /** The stride keeps ceil(|s| / step) elements. */
  lemma {:induction false} StrideCount<T>(s: seq<T>, step: nat)
    requires step > 0
    ensures |s| == 0 ==> |Stride(s, step)| == 0
    ensures |s| > 0 ==> (|Stride(s, step)| - 1) * step < |s| <= |Stride(s, step)| * step
  {
    if |s| > 0 {
      var rest := s[(if step < |s| then step else |s|)..];
      StrideCount(rest, step);
      var c := |Stride(rest, step)|;
      assert |Stride(s, step)| == c + 1;
      assert (c + 1) * step == c * step + step;
      if step < |s| {
        assert |rest| == |s| - step > 0;
      } else {
        assert c == 0;
      }
    }
  }

  lemma StrideLength<T>(s: seq<T>, step: nat)
    requires step > 0
    ensures |Stride(s, step)| == CeilDiv(|s|, step)
    ensures |Stride(s, step)| <= |s|
  {
    StrideCount(s, step);
    if |s| > 0 {
      CeilDivBounds(|s|, step);
      CountUnique(|Stride(s, step)|, CeilDiv(|s|, step), |s|, step);
      MulMonotone(1, step, |Stride(s, step)|);
    } else {
      assert (step - 1) / step == 0;
    }
  }

  /** Element i of the stride is element i * step of the input, for exactly the i with i * step < |s|. */
  lemma {:induction false} StrideAt<T>(s: seq<T>, step: nat, i: nat)
    requires step > 0
    ensures i < |Stride(s, step)| <==> i * step < |s|
    ensures i < |Stride(s, step)| ==> Stride(s, step)[i] == s[i * step]
  {
    StrideCount(s, step);
    var c := |Stride(s, step)|;
    if i < c {
      MulMonotone(i, c - 1, step);
    } else if |s| > 0 {
      MulMonotone(c, i, step);
    }
    if 0 < i < c {
      assert step < |s|;
      StrideAt(s[step..], step, i - 1);
      assert (i - 1) * step + step == i * step;
    }
  }

  /** The stride never reorders, duplicates or invents points. */
  lemma {:induction false} StrideIsSubsequence<T>(s: seq<T>, step: nat)
    requires step > 0
    ensures IsSubsequence(Stride(s, step), s)
  {
    if |s| > 0 {
      var k := if step < |s| then step else |s|;
      StrideIsSubsequence(s[k..], step);
      assert s[k..] == s[1..][k - 1..];
      SubsequenceOfSuffix(Stride(s[k..], step), s[1..], k - 1);
      assert Stride(s, step)[1..] == Stride(s[k..], step);
    }
  }

  lemma {:induction false} SubsequenceOfSuffix<T>(sub: seq<T>, s: seq<T>, k: nat)
    requires k <= |s| && IsSubsequence(sub, s[k..])
    ensures IsSubsequence(sub, s)
  {
    if k > 0 {
      assert s[k..] == s[1..][k - 1..];
      SubsequenceOfSuffix(sub, s[1..], k - 1);
    }
  }

  lemma {:induction false} SubsequenceMultiset<T>(sub: seq<T>, s: seq<T>)
    requires IsSubsequence(sub, s)
    ensures multiset(sub) <= multiset(s)
    decreases |s|
  {
    if |sub| > 0 {
      assert s == [s[0]] + s[1..];
      if sub[0] == s[0] && IsSubsequence(sub[1..], s[1..]) {
        SubsequenceMultiset(sub[1..], s[1..]);
        assert sub == [sub[0]] + sub[1..];
      } else {
        SubsequenceMultiset(sub, s[1..]);
      }
    }
  }

  /**
   * The last input element is kept exactly when step divides |s| - 1: the last
   * selected index (|r| - 1) * step is then |s| - 1.
   */
  lemma StrideKeepsLast<T>(s: seq<T>, step: nat)
    requires step > 0 && |s| > 0
    ensures |Stride(s, step)| > 0
    ensures (|Stride(s, step)| - 1) * step == |s| - 1 <==> (|s| - 1) % step == 0
  {
    StrideCount(s, step);
    var c := |Stride(s, step)|;
    var m := |s| - 1;
    var q, r := m / step, m % step;
    assert m == q * step + r && 0 <= r < step;
    if r == 0 {
      if q >= c {
        MulMonotone(c, q, step);
      }
      if c - 1 > q {
        MulMonotone(q + 1, c - 1, step);
      }
    }
    if (c - 1) * step == m {
      if q < c - 1 {
        MulMonotone(q + 1, c - 1, step);
      } else if q > c - 1 {
        MulMonotone(c, q, step);
      }
    }
  }

  // ---------------------------------------------------------------------------
  // The sampling step

  /**
   * What sampling promises for any input: at most `budget` points, never more
   * than the input, non-empty exactly when the input is, the first point kept,
   * an order-preserving selection, and the input unchanged up to the budget.
   */
  lemma DownsampleSpec<T>(pts: seq<T>, budget: nat)
    requires budget > 0
    ensures |pts| <= budget ==> DownsampleTo(pts, budget) == pts
    ensures |DownsampleTo(pts, budget)| <= budget
    ensures |DownsampleTo(pts, budget)| <= |pts|
    ensures |DownsampleTo(pts, budget)| > 0 <==> |pts| > 0
    ensures |pts| > 0 ==> DownsampleTo(pts, budget)[0] == pts[0]
    ensures IsSubsequence(DownsampleTo(pts, budget), pts)
    ensures multiset(DownsampleTo(pts, budget)) <= multiset(pts)
  {
    if |pts| > budget {
      var step := StepFor(|pts|, budget);
      BudgetStep(|pts|, budget);
      StrideLength(pts, step);
      StrideIsSubsequence(pts, step);
      SubsequenceMultiset(Stride(pts, step), pts);
    } else {
      SubsequenceReflexive(pts);
    }
  }

  lemma {:induction false} SubsequenceReflexive<T>(s: seq<T>)
    ensures IsSubsequence(s, s)
  {
    if |s| > 0 {
      SubsequenceReflexive(s[1..]);
    }
  }

  /**
   * Above the budget the result is exactly the stride selection with
   * step = n // budget + 1 >= 2: element i is input element i * step, and the
   * last input point survives only when step divides n - 1.
   */
  lemma DownsampleStride<T>(pts: seq<T>, budget: nat, i: nat)
    requires 0 < budget < |pts|
    ensures StepFor(|pts|, budget) >= 2
    ensures |DownsampleTo(pts, budget)| == CeilDiv(|pts|, StepFor(|pts|, budget))
    ensures i < |DownsampleTo(pts, budget)| <==> i * StepFor(|pts|, budget) < |pts|
    ensures i < |DownsampleTo(pts, budget)| ==>
              DownsampleTo(pts, budget)[i] == pts[i * StepFor(|pts|, budget)]
    ensures (|DownsampleTo(pts, budget)| - 1) * StepFor(|pts|, budget) == |pts| - 1 <==>
            (|pts| - 1) % StepFor(|pts|, budget) == 0
  {
    var step := StepFor(|pts|, budget);
    BudgetStep(|pts|, budget);
    StrideLength(pts, step);
    StrideAt(pts, step, i);
    StrideKeepsLast(pts, step);
  }
}
