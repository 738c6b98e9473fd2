/**
 * `np.interp(x, xp, fp)`: piecewise-linear interpolation of the points
 * (xp[k], fp[k]), clamped to fp[0] below xp[0] and to fp[last] above
 * xp[last]. The interval is found as NumPy's search finds it when `xp`
 * is nondecreasing: the last index whose abscissa is at most `x`.
 */
module Interpolation {

  predicate NonDecreasing(s: seq<real>)
  {
    forall i, j :: 0 <= i < j < |s| ==> s[i] <= s[j]
  }

  predicate Increasing(s: seq<real>)
  {
    forall i, j :: 0 <= i < j < |s| ==> s[i] < s[j]
  }

  /** The last index `j` with `xp[j] <= x`. */
  function LastAtMost(xp: seq<real>, x: real): (j: nat)
    requires |xp| >= 1 && xp[0] <= x
    ensures j < |xp| && xp[j] <= x
    ensures forall k :: j < k < |xp| ==> xp[k] > x
    decreases |xp|
  {
    if xp[|xp| - 1] <= x then |xp| - 1 else LastAtMost(xp[..|xp| - 1], x)
  }

  /** The line through (lo, a) and (hi, b), evaluated at x. */
  function Lerp(a: real, b: real, lo: real, hi: real, x: real): real
    requires lo < hi
  {
    (b - a) / (hi - lo) * (x - lo) + a
  }

  function Interp(x: real, xp: seq<real>, fp: seq<real>): real
    requires |xp| == |fp| >= 1
  {
    var n := |xp|;
    if x > xp[n - 1] then fp[n - 1]
    else if x < xp[0] then fp[0]
    else
      var j := LastAtMost(xp, x);
      if j == n - 1 || xp[j] == x then fp[j]
      else Lerp(fp[j], fp[j + 1], xp[j], xp[j + 1], x)
  }

  lemma MulNonNegative(a: real, b: real)
    requires a >= 0.0 && b >= 0.0
    ensures a * b >= 0.0
  {
  }

  lemma MulMonotone(s: real, u: real, v: real)
    requires s >= 0.0 && u <= v
    ensures s * u <= s * v
  {
    MulNonNegative(s, v - u);
    assert s * v - s * u == s * (v - u);
  }

  lemma DivScale(num: real, d: real)
    requires d > 0.0
    ensures num / d * d == num
    ensures num >= 0.0 ==> num / d >= 0.0
    ensures num <= 0.0 ==> num / d <= 0.0
  {
  }

  lemma LerpRising(a: real, b: real, lo: real, hi: real, x1: real, x2: real)
    requires lo < hi && a <= b && lo <= x1 <= x2 <= hi
    ensures a <= Lerp(a, b, lo, hi, x1) <= Lerp(a, b, lo, hi, x2) <= b
  {
    var s := (b - a) / (hi - lo);
    DivScale(b - a, hi - lo);
    MulMonotone(s, 0.0, x1 - lo);
    MulMonotone(s, x1 - lo, x2 - lo);
    MulMonotone(s, x2 - lo, hi - lo);
    assert s * 0.0 == 0.0;
    assert Lerp(a, b, lo, hi, x1) == s * (x1 - lo) + a;
    assert Lerp(a, b, lo, hi, x2) == s * (x2 - lo) + a;
  }

  lemma LerpFalling(a: real, b: real, lo: real, hi: real, x: real)
    requires lo < hi && b <= a && lo <= x <= hi
    ensures b <= Lerp(a, b, lo, hi, x) <= a
  {
    var s := (b - a) / (hi - lo);
    DivScale(b - a, hi - lo);
    MulMonotone(-s, 0.0, x - lo);
    MulMonotone(-s, x - lo, hi - lo);
    assert (-s) * (x - lo) == -(s * (x - lo));
    assert (-s) * (hi - lo) == -(s * (hi - lo));
    assert (-s) * 0.0 == 0.0;
    assert Lerp(a, b, lo, hi, x) == s * (x - lo) + a;
  }

  /** Inside the data range the result lies on the segment found by the search. */
  lemma InterpOnSegment(x: real, xp: seq<real>, fp: seq<real>)
    requires |xp| == |fp| >= 1
    requires xp[0] <= x <= xp[|xp| - 1]
    ensures var j := LastAtMost(xp, x);
            (j == |xp| - 1 && Interp(x, xp, fp) == fp[j])
            || (j < |xp| - 1 && xp[j] <= x < xp[j + 1]
                && ((fp[j] <= Interp(x, xp, fp) <= fp[j + 1]) || (fp[j + 1] <= Interp(x, xp, fp) <= fp[j])))
  {
    var j := LastAtMost(xp, x);
    if j < |xp| - 1 && xp[j] != x {
      if fp[j] <= fp[j + 1] {
        LerpRising(fp[j], fp[j + 1], xp[j], xp[j + 1], x, x);
      } else {
        LerpFalling(fp[j], fp[j + 1], xp[j], xp[j + 1], x);
      }
    }
  }

  /** Every interpolated value is one of the fp[k] or lies between two of them. */
  lemma InterpBounded(x: real, xp: seq<real>, fp: seq<real>)
    requires |xp| == |fp| >= 1
    ensures exists a :: 0 <= a < |fp| && fp[a] <= Interp(x, xp, fp)
    ensures exists b :: 0 <= b < |fp| && Interp(x, xp, fp) <= fp[b]
  {
    var n := |xp|;
    var y := Interp(x, xp, fp);
    if x > xp[n - 1] {
      assert fp[n - 1] == y;
    } else if x < xp[0] {
      assert fp[0] == y;
    } else {
      InterpOnSegment(x, xp, fp);
      var j := LastAtMost(xp, x);
      if j == n - 1 {
        assert fp[j] == y;
      } else if fp[j] <= fp[j + 1] {
        assert fp[j] <= y <= fp[j + 1];
      } else {
        assert fp[j + 1] <= y <= fp[j];
      }
    }
  }

  /** Over nondecreasing points the interpolant is nondecreasing in x. */
  lemma {:induction false} InterpMonotone(x1: real, x2: real, xp: seq<real>, fp: seq<real>)
    requires |xp| == |fp| >= 1
    requires NonDecreasing(xp) && NonDecreasing(fp)
    requires x1 <= x2
    ensures Interp(x1, xp, fp) <= Interp(x2, xp, fp)
  {
    var n := |xp|;
    var y1, y2 := Interp(x1, xp, fp), Interp(x2, xp, fp);
    // Both values lie within [fp[0], fp[n - 1]].
    if x2 > xp[n - 1] || x1 < xp[0] {
      InterpRange(x1, xp, fp);
      InterpRange(x2, xp, fp);
    } else {
      InterpOnSegment(x1, xp, fp);
      InterpOnSegment(x2, xp, fp);
      var j1, j2 := LastAtMost(xp, x1), LastAtMost(xp, x2);
      assert j1 <= j2;
      if j1 == j2 {
        if j1 < n - 1 && xp[j1] != x1 {
          if xp[j2] == x2 {
            assert false;
          }
          LerpRising(fp[j1], fp[j1 + 1], xp[j1], xp[j1 + 1], x1, x2);
        }
      } else {
        assert y1 <= fp[j1 + 1];
        assert fp[j1 + 1] <= fp[j2];
      }
    }
  }

  /** Over nondecreasing values the interpolant stays within [fp[0], fp[last]]. */
  lemma InterpRange(x: real, xp: seq<real>, fp: seq<real>)
    requires |xp| == |fp| >= 1
    requires NonDecreasing(fp)
    ensures fp[0] <= Interp(x, xp, fp) <= fp[|fp| - 1]
  {
    if xp[0] <= x <= xp[|xp| - 1] {
      InterpOnSegment(x, xp, fp);
    }
  }

  /** At or above the last abscissa the result is the last value. */
  lemma InterpAtTop(x: real, xp: seq<real>, fp: seq<real>)
    requires |xp| == |fp| >= 1
    requires NonDecreasing(xp)
    requires x >= xp[|xp| - 1]
    ensures Interp(x, xp, fp) == fp[|fp| - 1]
  {
  }

  /** At or below the first abscissa of increasing points the result is the first value. */
  lemma InterpAtBottom(x: real, xp: seq<real>, fp: seq<real>)
    requires |xp| == |fp| >= 1
    requires Increasing(xp)
    requires x <= xp[0]
    ensures Interp(x, xp, fp) == fp[0]
  {
    if x == xp[0] && |xp| > 1 {
      assert xp[|xp| - 1] > xp[0];
      var j := LastAtMost(xp, x);
      assert j == 0;
    }
  }
}
