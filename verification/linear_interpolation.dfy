/** Ordered-table search and piecewise-linear interpolation (amr_wind::interp).

    A table is a sequence of abscissas `x` with a column of ordinates `y`. A query
    is classified against the range of `x`, bracketed either by bisection or by a
    scan that starts from a caller's hint, and evaluated with flat extrapolation
    outside the range and linear interpolation inside it.
 */
module Interp {

  /** Classification of a query against the range of a table. */
  datatype Limits = LowLim | UpLim | Valid

  /** Result of a search: a table index together with its classification. */
  datatype Index = Index(idx: int, lim: Limits)

  /** Spacing at or below which interpolation snaps to the upper sample (1.0e-8). */
  const Eps: real := 0.00000001

  ghost predicate NonDecreasing(x: seq<real>) {
    forall i, j :: 0 <= i <= j < |x| ==> x[i] <= x[j]
  }

  ghost predicate StrictlyIncreasing(x: seq<real>) {
    forall i, j :: 0 <= i < j < |x| ==> x[i] < x[j]
  }

  /** The query lies in [x[0], x[|x|-1]] of a table with at least two entries. */
  ghost predicate InRange(x: seq<real>, q: real) {
    |x| >= 2 && x[0] <= q <= x[|x| - 1]
  }

  /** Some entry at or after `from` is not below the query. */
  ghost predicate SomeNotBelow(x: seq<real>, q: real, from: nat) {
    exists k :: from <= k < |x| && q <= x[k]
  }

  /** `i` is the first index at or after `from` whose entry is not below the query. */
  ghost predicate FirstNotBelow(x: seq<real>, q: real, from: nat, i: int) {
    && from <= i < |x|
    && q <= x[i]
    && forall k :: from <= k < i ==> x[k] < q
  }

  /** `j` is the lower end of the bracketing interval: `j + 1` is the first index
      from 1 on whose entry is not below the query. */
  ghost predicate IsLowerBracket(x: seq<real>, q: real, j: int) {
    0 <= j && FirstNotBelow(x, q, 1, j + 1)
  }

  ghost function Min(a: real, b: real): real { if a <= b then a else b }

  ghost function Max(a: real, b: real): real { if a <= b then b else a }

  /** check_bounds: a table with fewer than two entries, or a query below the first
      entry, is LowLim at index 0; a query above the last entry is UpLim at the last
      index; everything else, the two endpoints included, is Valid at index 0. */
  function CheckBounds(x: seq<real>, q: real): (r: Index)
    ensures r.lim == LowLim <==> |x| < 2 || q < x[0]
    ensures r.lim == UpLim <==> |x| >= 2 && x[0] <= q && x[|x| - 1] < q
    ensures r.lim == Valid <==> InRange(x, q)
    ensures r.lim == UpLim ==> r.idx == |x| - 1
    ensures r.lim != UpLim ==> r.idx == 0
  {
    if |x| < 2 || q < x[0] then Index(0, LowLim)
    else if q > x[|x| - 1] then Index(|x| - 1, UpLim)
    else Index(0, Valid)
  }

  /** The sign of a product with a non-negative factor. */
  lemma SignOfProduct(a: real, b: real)
    requires b >= 0.0
    ensures b > 0.0 ==> (a * b <= 0.0 <==> a <= 0.0)
    ensures b == 0.0 ==> a * b == 0.0
  {
  }

  /** What the narrowing loop keeps true of its window [il, ir) on a sorted table. */
  ghost predicate BisectWindow(x: seq<real>, q: real, il: int, ir: int) {
    && (ir == |x| || (0 <= ir < |x| && q <= x[ir]))
    && forall k :: 1 <= k <= il && k < |x| ==> x[k] < q
  }

  /** A non-positive sign test means the query is at or below x[mid]. */
  lemma KeepLowerHalf(x: seq<real>, q: real, il: int, mid: int, ir: int)
    requires InRange(x, q) && 0 <= il < mid < ir <= |x|
    requires (q - x[mid]) * (q - x[0]) <= 0.0
    ensures NonDecreasing(x) && BisectWindow(x, q, il, ir) ==> BisectWindow(x, q, il, mid)
  {
    SignOfProduct(q - x[mid], q - x[0]);
    if NonDecreasing(x) {
      assert x[0] <= x[mid];
    }
  }

  /** A positive sign test means x[mid] is below the query, so mid is not the last
      entry. */
  lemma KeepUpperHalf(x: seq<real>, q: real, il: int, mid: int, ir: int)
    requires InRange(x, q) && 0 <= il < mid < ir <= |x|
    requires (q - x[mid]) * (q - x[0]) > 0.0
    ensures x[mid] < q && mid <= |x| - 2
    ensures NonDecreasing(x) && BisectWindow(x, q, il, ir) ==> BisectWindow(x, q, mid, ir)
  {
    SignOfProduct(q - x[mid], q - x[0]);
  }

  /** The narrowing loop of bisection_search on the window [il, ir): it halves the
      window until it holds one entry, keeping the half whose ends straddle the
      query as judged by the sign of (q - x[mid]) * (q - x[0]). */
  function Bisect(x: seq<real>, q: real, il: nat, ir: nat): (r: nat)
    requires InRange(x, q)
    requires il < ir <= |x| && il <= |x| - 2
    ensures il <= r < ir && r <= |x| - 2
    ensures NonDecreasing(x) && BisectWindow(x, q, il, ir) ==> IsLowerBracket(x, q, r)
    decreases ir - il
  {
    if ir - il > 1 then
      var mid := (il + ir) / 2;
      if (q - x[mid]) * (q - x[0]) <= 0.0 then
        KeepLowerHalf(x, q, il, mid, ir);
        Bisect(x, q, il, mid)
      else
        KeepUpperHalf(x, q, il, mid, ir);
        Bisect(x, q, mid, ir)
    else il
  }

  /** bisection_search: the classification of CheckBounds, and for a Valid query
      the lower bracketing index found by halving the whole table. */
  function BisectionSearch(x: seq<real>, q: real): (r: Index)
    ensures r.lim == CheckBounds(x, q).lim
    ensures r.lim != Valid ==> r == CheckBounds(x, q)
    ensures r.lim == Valid ==> 0 <= r.idx <= |x| - 2
    ensures r.lim == Valid && NonDecreasing(x) ==>
              IsLowerBracket(x, q, r.idx) && x[r.idx] <= q <= x[r.idx + 1]
  {
    var b := CheckBounds(x, q);
    if b.lim == LowLim || b.lim == UpLim then b
    else
      var il := Bisect(x, q, 0, |x|);
      Index(il, b.lim)
  }

  /** The scan loop of find_index from position `it`: one less than the first index
      at or after `it` whose entry is not below the query, or 0 (the index left by
      CheckBounds) when the scan reaches the end without finding one. */
  function ScanFrom(x: seq<real>, q: real, it: nat): (r: int)
    ensures SomeNotBelow(x, q, it) ==> FirstNotBelow(x, q, it, r + 1)
    ensures !SomeNotBelow(x, q, it) ==> r == 0
    decreases |x| - it
  {
    if it >= |x| then 0
    else if q <= x[it] then it - 1
    else ScanFrom(x, q, it + 1)
  }

  /** find_index: the classification of CheckBounds, and for a Valid query the scan
      result started at `hint`. */
  function FindIndex(x: seq<real>, q: real, hint: nat := 1): (r: Index)
    ensures r.lim == CheckBounds(x, q).lim
    ensures r.lim != Valid ==> r == CheckBounds(x, q)
    ensures r.lim == Valid && SomeNotBelow(x, q, hint) ==> FirstNotBelow(x, q, hint, r.idx + 1)
    ensures r.lim == Valid && !SomeNotBelow(x, q, hint) ==> r.idx == 0
  {
    var b := CheckBounds(x, q);
    if b.lim == LowLim || b.lim == UpLim then b
    else Index(ScanFrom(x, q, hint), b.lim)
  }

  lemma {:induction false} LowerBracketUnique(x: seq<real>, q: real, i: int, j: int)
    requires IsLowerBracket(x, q, i) && IsLowerBracket(x, q, j)
    ensures i == j
  {
  }

  /** The hinted search agrees with bisection on a sorted table whenever every entry
      strictly between index 0 and the hint lies below the query. */
  lemma {:induction false} HintedSearchAgrees(x: seq<real>, q: real, hint: nat)
    requires NonDecreasing(x)
    requires hint >= 1
    requires forall k :: 1 <= k < hint && k < |x| ==> x[k] < q
    ensures FindIndex(x, q, hint) == BisectionSearch(x, q)
  {
    var f := FindIndex(x, q, hint);
    var b := BisectionSearch(x, q);
    if f.lim == Valid {
      assert q <= x[|x| - 1];
      assert SomeNotBelow(x, q, hint);
      assert FirstNotBelow(x, q, hint, f.idx + 1);
      assert IsLowerBracket(x, q, f.idx);
      LowerBracketUnique(x, q, f.idx, b.idx);
    }
  }

  /** With its default hint of 1 the search agrees with bisection on every sorted
      table and every query. */
  lemma DefaultHintAgrees(x: seq<real>, q: real)
    requires NonDecreasing(x)
    ensures FindIndex(x, q) == BisectionSearch(x, q)
  {
    HintedSearchAgrees(x, q, 1);
  }

  /** Interpolates between entries j and j + 1; a spacing at or below Eps does not
      divide and takes the upper sample. */
  function Interpolate(x: seq<real>, y: seq<real>, q: real, j: int): real
    requires 0 <= j && j + 1 < |x| && j + 1 < |y|
  {
    var denom := x[j + 1] - x[j];
    var facR := if denom > Eps then (q - x[j]) / denom else 1.0;
    var facL := 1.0 - facR;
    facL * y[j] + facR * y[j + 1]
  }

  /** Scalar linear (both overloads): flat extrapolation with y[0] below the range or
      for a table of fewer than two entries, with y[|x|-1] above the range, and
      interpolation on the bisection bracket in between. The y column is read at the
      same indices as x and at 0, with no size check of its own. */
  function Linear(x: seq<real>, y: seq<real>, q: real): (r: real)
    requires |y| >= |x| && |y| >= 1
    ensures |x| < 2 || q < x[0] ==> r == y[0]
    ensures |x| >= 2 && x[0] <= q && x[|x| - 1] < q ==> r == y[|x| - 1]
  {
    var idx := BisectionSearch(x, q);
    if idx.lim == LowLim || idx.lim == UpLim then y[idx.idx]
    else if idx.lim == Valid then Interpolate(x, y, q, idx.idx)
    else
      // amrex::Abort("idx undefined"): no classification escapes the three above
      assert false; 0.0
  }

  lemma ConvexCombinationBetween(a: real, b: real, f: real)
    requires 0.0 <= f <= 1.0
    ensures Min(a, b) <= (1.0 - f) * a + f * b <= Max(a, b)
  {
    var d := b - a;
    assert (1.0 - f) * a + f * b == a + f * d;
    assert d - f * d == (1.0 - f) * d;
    if a <= b {
      assert 0.0 <= f * d;
      assert 0.0 <= (1.0 - f) * d;
    } else {
      assert f * d <= 0.0;
      assert (1.0 - f) * d <= 0.0;
    }
  }

  lemma RatioInUnitInterval(n: real, d: real)
    requires 0.0 < d && 0.0 <= n <= d
    ensures 0.0 <= n / d <= 1.0
  {
    assert (n / d) * d == n;
  }

  /** Inside the range of a sorted table, the result on the bracket [x[j], x[j+1]]
      is the convex combination with weight facR in [0, 1] when the spacing exceeds
      Eps, and so lies between y[j] and y[j+1]; otherwise it is y[j+1]. */
  lemma {:induction false} LinearOnBracket(x: seq<real>, y: seq<real>, q: real, j: int)
    requires |y| >= |x|
    requires NonDecreasing(x) && InRange(x, q)
    requires IsLowerBracket(x, q, j)
    ensures x[j + 1] - x[j] > Eps ==>
              var facR := (q - x[j]) / (x[j + 1] - x[j]);
              && 0.0 <= facR <= 1.0
              && Linear(x, y, q) == (1.0 - facR) * y[j] + facR * y[j + 1]
              && Min(y[j], y[j + 1]) <= Linear(x, y, q) <= Max(y[j], y[j + 1])
    ensures x[j + 1] - x[j] <= Eps ==> Linear(x, y, q) == y[j + 1]
  {
    var b := BisectionSearch(x, q);
    LowerBracketUnique(x, q, b.idx, j);
    assert x[j] <= q by {
      if j > 0 { assert x[j] < q; }
    }
    var denom := x[j + 1] - x[j];
    if denom > Eps {
      var facR := (q - x[j]) / denom;
      assert 0.0 <= q - x[j] <= denom;
      RatioInUnitInterval(q - x[j], denom);
      ConvexCombinationBetween(y[j], y[j + 1], facR);
    }
  }

  /** Interpolating at a node of a strictly increasing table reproduces the node's
      ordinate exactly, except at node 0 when the first spacing is at or below Eps
      (see FirstNodeSnaps). */
  lemma {:induction false} LinearAtNode(x: seq<real>, y: seq<real>, k: int)
    requires |y| >= |x| && |y| >= 1
    requires StrictlyIncreasing(x)
    requires 0 <= k < |x|
    requires k == 0 && |x| >= 2 ==> x[1] - x[0] > Eps
    ensures Linear(x, y, x[k]) == y[k]
  {
    if |x| >= 2 {
      var q := x[k];
      var j := if k == 0 then 0 else k - 1;
      assert IsLowerBracket(x, q, j);
      LinearOnBracket(x, y, q, j);
      var denom := x[j + 1] - x[j];
      if denom > Eps {
        var facR := (q - x[j]) / denom;
        if k == 0 {
          assert facR == 0.0;
          assert (1.0 - facR) * y[j] + facR * y[j + 1] == y[0];
        } else {
          DivSelf(denom);
          assert facR == 1.0;
          assert (1.0 - facR) * y[j] + facR * y[j + 1] == y[k];
        }
      }
    }
  }

  /** A non-zero spacing divided by itself is 1. */
  lemma DivSelf(d: real)
    requires d != 0.0
    ensures d / d == 1.0
  {
  }

  /** At node 0 of a table whose first spacing is at or below Eps the result is
      y[1], not y[0]. */
  lemma {:induction false} FirstNodeSnaps(x: seq<real>, y: seq<real>)
    requires |y| >= |x| >= 2
    requires NonDecreasing(x)
    requires x[1] - x[0] <= Eps
    ensures Linear(x, y, x[0]) == y[1]
  {
    assert IsLowerBracket(x, x[0], 0);
    LinearOnBracket(x, y, x[0], 0);
  }

  /** The worked example: x = [0,1,2,3], y = [0,10,20,30]. */
  lemma LinearExample()
    ensures Linear([0.0, 1.0, 2.0, 3.0], [0.0, 10.0, 20.0, 30.0], 1.5) == 15.0
    ensures Linear([0.0, 1.0, 2.0, 3.0], [0.0, 10.0, 20.0, 30.0], -1.0) == 0.0
    ensures Linear([0.0, 1.0, 2.0, 3.0], [0.0, 10.0, 20.0, 30.0], 5.0) == 30.0
  {
    var x := [0.0, 1.0, 2.0, 3.0];
    var y := [0.0, 10.0, 20.0, 30.0];
    assert IsLowerBracket(x, 1.5, 1);
    LinearOnBracket(x, y, 1.5, 1);
  }

  /** linear_monotonic: one pass over the queries with the hinted scan, restarting
      each scan just after the previous bracket. Out-of-range queries clamp whatever
      the order; on a sorted table with non-decreasing queries every output equals
      the scalar Linear at its query. */
  method LinearMonotonic(xinp: seq<real>, yinp: seq<real>, xout: seq<real>)
    returns (yout: seq<real>)
    requires |xinp| == |yinp|
    requires |xout| > 0 ==> |yinp| >= 1
    ensures |yout| == |xout|
    ensures forall i :: 0 <= i < |xout| && (|xinp| < 2 || xout[i] < xinp[0]) ==>
              yout[i] == yinp[0]
    ensures forall i :: (0 <= i < |xout| && |xinp| >= 2 && xinp[0] <= xout[i] &&
                         xinp[|xinp| - 1] < xout[i]) ==> yout[i] == yinp[|xinp| - 1]
    ensures NonDecreasing(xinp) && NonDecreasing(xout) ==>
              forall i :: 0 <= i < |xout| ==> yout[i] == Linear(xinp, yinp, xout[i])
  {
    ghost var ordered := NonDecreasing(xinp) && NonDecreasing(xout);
    var hint: nat := 1;
    yout := [];
    var i := 0;
    while i < |xout|
      invariant 0 <= i <= |xout| && |yout| == i
      invariant hint >= 1
      invariant forall k :: 0 <= k < i && (|xinp| < 2 || xout[k] < xinp[0]) ==>
                  yout[k] == yinp[0]
      invariant forall k :: (0 <= k < i && |xinp| >= 2 && xinp[0] <= xout[k] &&
                             xinp[|xinp| - 1] < xout[k]) ==> yout[k] == yinp[|xinp| - 1]
      invariant ordered ==> forall k :: 0 <= k < i ==> yout[k] == Linear(xinp, yinp, xout[k])
      invariant ordered && i == 0 ==> hint == 1
      invariant ordered && i > 0 ==>
                  forall k :: 1 <= k < hint && k < |xinp| ==> xinp[k] < xout[i - 1]
    {
      var q := xout[i];
      var idx := FindIndex(xinp, q, hint);
      if ordered {
        HintedSearchAgrees(xinp, q, hint);
      }
      var v;
      if idx.lim == LowLim || idx.lim == UpLim {
        v := yinp[idx.idx];
      } else {
        v := Interpolate(xinp, yinp, q, idx.idx);
      }
      yout := yout + [v];
      hint := idx.idx + 1;
      i := i + 1;
    }
  }

  /** Vector linear: each output is the scalar Linear at its query, in any order. */
  method LinearEach(xinp: seq<real>, yinp: seq<real>, xout: seq<real>)
    returns (yout: seq<real>)
    requires |xinp| == |yinp|
    requires |xout| > 0 ==> |yinp| >= 1
    ensures |yout| == |xout|
    ensures forall i :: 0 <= i < |xout| ==> yout[i] == Linear(xinp, yinp, xout[i])
  {
    yout := [];
    var i := 0;
    while i < |xout|
      invariant 0 <= i <= |xout| && |yout| == i
      invariant forall k :: 0 <= k < i ==> yout[k] == Linear(xinp, yinp, xout[k])
    {
      yout := yout + [Linear(xinp, yinp, xout[i])];
      i := i + 1;
    }
  }
}
