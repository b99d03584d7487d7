/**
 * addDerivative: the derivative of every column of a table with respect to
 * a coordinate column, by differentiating the interpolating parabola
 * through three neighbouring rows, and by one-sided differences in the
 * first and last rows.
 */
module Derivative {

  /**
   * The rows are at least two, and neighbouring coordinates differ, as do
   * the two neighbours of an interior row: every denominator is non-zero.
   */
  predicate Spaced(c: seq<real>)
  {
    && |c| >= 2
    && (forall i :: 0 <= i < |c| - 1 ==> c[i] != c[i + 1])
    && (forall i :: 0 <= i < |c| - 2 ==> c[i] != c[i + 2])
  }

  // The weights of the three rows in the interior formula (lines 23-28).

  function WeightBefore(cm: real, c0: real, cp: real): real
    requires cm != c0 && c0 != cp && cm != cp
  {
    var u, v := cm - c0, cm - cp;
    NonZeroProduct(u, v);
    (c0 - cp) / (u * v)
  }

  function WeightAt(cm: real, c0: real, cp: real): real
    requires cm != c0 && c0 != cp && cm != cp
  {
    var u, v := c0 - cm, c0 - cp;
    NonZeroProduct(u, v);
    (2.0 * c0 - cm - cp) / (u * v)
  }

  function WeightAfter(cm: real, c0: real, cp: real): real
    requires cm != c0 && c0 != cp && cm != cp
  {
    var u, v := cp - c0, cp - cm;
    NonZeroProduct(u, v);
    (c0 - cm) / (u * v)
  }

  /**
   * Lines 23-28: the slope at c0 of the parabola through (cm, wm), (c0, w0)
   * and (cp, wp), each value times its weight.
   */
  function ThreePoint(cm: real, c0: real, cp: real, wm: real, w0: real, wp: real): real
    requires cm != c0 && c0 != cp && cm != cp
  {
    w0 * WeightAt(cm, c0, cp) + wp * WeightAfter(cm, c0, cp) + wm * WeightBefore(cm, c0, cp)
  }

  /** Every entry of the column equals the first. */
  predicate Constant(w: seq<real>)
  {
    forall t :: 0 <= t < |w| ==> w[t] == w[0]
  }

  /**
   * Row i of the derivative of column w. A constant column has slope zero
   * in every row, as the interior weights sum to zero.
   */
  function Slope(c: seq<real>, w: seq<real>, i: nat): (s: real)
    requires Spaced(c) && |w| == |c| && i < |c|
    ensures Constant(w) ==> s == 0.0
  {
    var flat := Constant(w);
    if i == 0 then
      assert flat ==> w[1] == w[0];
      EqualOver(w[0], w[1], c[0] - c[1]);
      (w[0] - w[1]) / (c[0] - c[1])                                        // lines 30-31
    else if i == |c| - 1 then
      assert flat ==> w[i] == w[i - 1];
      EqualOver(w[i], w[i - 1], c[i] - c[i - 1]);
      (w[i] - w[i - 1]) / (c[i] - c[i - 1])                                // lines 32-33
    else
      assert c[i - 1] != c[i] && c[i] != c[i + 1] && c[i - 1] != c[i + 1];
      assert flat ==> w[i - 1] == w[i] && w[i + 1] == w[i];
      ThreePointConstant(c[i - 1], c[i], c[i + 1], w[i - 1], w[i], w[i + 1]);
      ThreePoint(c[i - 1], c[i], c[i + 1], w[i - 1], w[i], w[i + 1])
  }

  function Column(what: array2<real>, j: nat): (col: seq<real>)
    reads what
    requires j < what.Length1
    ensures |col| == what.Length0
  {
    seq(what.Length0, i requires 0 <= i < what.Length0 reads what => what[i, j])
  }

  /**
   * Lines 16-35: the result has the shape of `what`, and entry (i, j) is
   * the slope at row i of column j alone.
   */
  method Derive(coordinates: seq<real>, what: array2<real>) returns (result: array2<real>)
    requires Spaced(coordinates) && what.Length0 == |coordinates|
    ensures fresh(result)
    ensures result.Length0 == what.Length0 && result.Length1 == what.Length1
    ensures forall i, j :: 0 <= i < result.Length0 && 0 <= j < result.Length1 ==>
      result[i, j] == Slope(coordinates, Column(what, j), i)
  {
    var n := what.Length0;
    result := new real[n, what.Length1];
    for i := 1 to n - 1
      invariant forall i', j :: 1 <= i' < i && 0 <= j < result.Length1 ==>
        result[i', j] == Slope(coordinates, Column(what, j), i')
    {
      InteriorRow(coordinates, what, result, i);
    }
    EndRows(coordinates, what, result);
  }

  /** Lines 23-28, row i: the three-point formula in every column. */
  method InteriorRow(c: seq<real>, what: array2<real>, result: array2<real>, i: nat)
    requires Spaced(c) && what.Length0 == |c| && 0 < i < |c| - 1
    requires result != what && result.Length0 == what.Length0 && result.Length1 == what.Length1
    modifies result
    ensures forall i', j :: 0 <= i' < result.Length0 && 0 <= j < result.Length1 ==>
      result[i', j] == if i' == i then Slope(c, Column(what, j), i) else old(result[i', j])
  {
    assert c[i - 1] != c[i] && c[i] != c[i + 1] && c[i - 1] != c[i + 1];
    for j := 0 to what.Length1
      invariant forall i', j' :: 0 <= i' < result.Length0 && 0 <= j' < result.Length1 ==>
        result[i', j'] == if i' == i && j' < j then Slope(c, Column(what, j'), i) else old(result[i', j'])
    {
      result[i, j] := ThreePoint(c[i - 1], c[i], c[i + 1], what[i - 1, j], what[i, j], what[i + 1, j]);
    }
  }

  /** Lines 30-33: the first row by the forward difference, then the last by the backward one. */
  method EndRows(c: seq<real>, what: array2<real>, result: array2<real>)
    requires Spaced(c) && what.Length0 == |c|
    requires result != what && result.Length0 == what.Length0 && result.Length1 == what.Length1
    modifies result
    ensures forall i, j :: 0 <= i < result.Length0 && 0 <= j < result.Length1 ==>
      result[i, j] == if i == 0 || i == |c| - 1 then Slope(c, Column(what, j), i) else old(result[i, j])
  {
    var n := |c|;
    for j := 0 to what.Length1
      invariant forall i, j' :: 0 <= i < n && 0 <= j' < result.Length1 ==>
        result[i, j'] == if i == 0 && j' < j then Slope(c, Column(what, j'), 0) else old(result[i, j'])
    {
      result[0, j] := (what[0, j] - what[1, j]) / (c[0] - c[1]);
    }
    for j := 0 to what.Length1
      invariant forall i, j' :: 0 <= i < n && 0 <= j' < result.Length1 ==>
        result[i, j'] == if i == n - 1 && j' < j then Slope(c, Column(what, j'), n - 1)
          else if i == 0 then Slope(c, Column(what, j'), 0) else old(result[i, j'])
    {
      result[n - 1, j] := (what[n - 1, j] - what[n - 2, j]) / (c[n - 1] - c[n - 2]);
    }
  }

  // Real arithmetic the solver does not find on its own.

  lemma NonZeroProduct(x: real, y: real)
    requires x != 0.0 && y != 0.0
    ensures x * y != 0.0
  {
  }

  lemma EqualOver(x: real, y: real, d: real)
    requires d != 0.0
    ensures x == y ==> (x - y) / d == 0.0
  {
  }

  lemma MulEq(x: real, y: real, t: real)
    requires x == y
    ensures x * t == y * t
  {
  }

  lemma Cancel(x: real, y: real, d: real)
    requires d != 0.0 && x * d == y * d
    ensures x == y
  {
    assert (x - y) * d == 0.0;
  }

  /**
   * The weights of the interior formula: they sum to zero, reproduce a
   * unit slope and cancel a square of the offset from the middle row.
   */
  lemma Weights(cm: real, c0: real, cp: real)
    requires cm != c0 && c0 != cp && cm != cp
    ensures WeightBefore(cm, c0, cp) + WeightAt(cm, c0, cp) + WeightAfter(cm, c0, cp) == 0.0
    ensures WeightBefore(cm, c0, cp) * (cm - c0) + WeightAfter(cm, c0, cp) * (cp - c0) == 1.0
    ensures WeightBefore(cm, c0, cp) * (cm - c0) * (cm - c0) + WeightAfter(cm, c0, cp) * (cp - c0) * (cp - c0) == 0.0
  {
    var a, b, d := WeightBefore(cm, c0, cp), WeightAt(cm, c0, cp), WeightAfter(cm, c0, cp);
    NonZeroProduct(cm - c0, cm - cp);
    NonZeroProduct(c0 - cm, c0 - cp);
    NonZeroProduct(cp - c0, cp - cm);
    assert a * ((cm - c0) * (cm - cp)) == c0 - cp;
    assert b * ((c0 - cm) * (c0 - cp)) == 2.0 * c0 - cm - cp;
    assert d * ((cp - c0) * (cp - cm)) == c0 - cm;
    WeightMoments(a, b, d, cm, c0, cp);
  }

  /** The three moments of `Weights`, from the weights scaled by their denominators. */
  lemma WeightMoments(a: real, b: real, d: real, cm: real, c0: real, cp: real)
    requires cm != c0 && c0 != cp && cm != cp
    requires a * ((cm - c0) * (cm - cp)) == c0 - cp
    requires b * ((c0 - cm) * (c0 - cp)) == 2.0 * c0 - cm - cp
    requires d * ((cp - c0) * (cp - cm)) == c0 - cm
    ensures a + b + d == 0.0
    ensures a * (cm - c0) + d * (cp - c0) == 1.0
    ensures a * (cm - c0) * (cm - c0) + d * (cp - c0) * (cp - c0) == 0.0
  {
    ScaledWeights(a, b, d, cm, c0, cp);
    var D := (c0 - cm) * (cp - c0) * (cp - cm);
    NonZeroProduct((c0 - cm) * (cp - c0), cp - cm);
    Cancel(a + b + d, 0.0, D);
    SlopeSum(a, d, cm, c0, cp, D);
    SquareSum(a, d, cm, c0, cp, D);
  }

  /** Each weight times D = (c0 - cm)(cp - c0)(cp - cm) is a polynomial in the coordinates. */
  lemma ScaledWeights(a: real, b: real, d: real, cm: real, c0: real, cp: real)
    requires a * ((cm - c0) * (cm - cp)) == c0 - cp
    requires b * ((c0 - cm) * (c0 - cp)) == 2.0 * c0 - cm - cp
    requires d * ((cp - c0) * (cp - cm)) == c0 - cm
    ensures a * ((c0 - cm) * (cp - c0) * (cp - cm)) == -(cp - c0) * (cp - c0)
    ensures b * ((c0 - cm) * (cp - c0) * (cp - cm)) == (2.0 * c0 - cm - cp) * (cm - cp)
    ensures d * ((c0 - cm) * (cp - c0) * (cp - cm)) == (c0 - cm) * (c0 - cm)
  {
    MulEq(a * ((cm - c0) * (cm - cp)), c0 - cp, cp - c0);
    MulEq(b * ((c0 - cm) * (c0 - cp)), 2.0 * c0 - cm - cp, cm - cp);
    MulEq(d * ((cp - c0) * (cp - cm)), c0 - cm, c0 - cm);
  }

  lemma SlopeSum(a: real, d: real, cm: real, c0: real, cp: real, D: real)
    requires D == (c0 - cm) * (cp - c0) * (cp - cm) && D != 0.0
    requires a * D == -(cp - c0) * (cp - c0) && d * D == (c0 - cm) * (c0 - cm)
    ensures a * (cm - c0) + d * (cp - c0) == 1.0
  {
    MulEq(a * D, -(cp - c0) * (cp - c0), cm - c0);
    MulEq(d * D, (c0 - cm) * (c0 - cm), cp - c0);
    Cancel(a * (cm - c0) + d * (cp - c0), 1.0, D);
  }

  lemma SquareSum(a: real, d: real, cm: real, c0: real, cp: real, D: real)
    requires D == (c0 - cm) * (cp - c0) * (cp - cm) && D != 0.0
    requires a * D == -(cp - c0) * (cp - c0) && d * D == (c0 - cm) * (c0 - cm)
    ensures a * (cm - c0) * (cm - c0) + d * (cp - c0) * (cp - c0) == 0.0
  {
    MulEq(a * D, -(cp - c0) * (cp - c0), (cm - c0) * (cm - c0));
    MulEq(d * D, (c0 - cm) * (c0 - cm), (cp - c0) * (cp - c0));
    Cancel(a * (cm - c0) * (cm - c0) + d * (cp - c0) * (cp - c0), 0.0, D);
  }

  /** The interior formula is exact for a parabola: it gives its slope 2 p c0 + q at the middle row. */
  lemma ThreePointQuadratic(cm: real, c0: real, cp: real, wm: real, w0: real, wp: real, p: real, q: real, r: real)
    requires cm != c0 && c0 != cp && cm != cp
    requires wm == p * cm * cm + q * cm + r && w0 == p * c0 * c0 + q * c0 + r && wp == p * cp * cp + q * cp + r
    ensures ThreePoint(cm, c0, cp, wm, w0, wp) == 2.0 * p * c0 + q
  {
    Weights(cm, c0, cp);
    ParabolaCombination(WeightBefore(cm, c0, cp), WeightAt(cm, c0, cp), WeightAfter(cm, c0, cp),
      cm, c0, cp, wm, w0, wp, p, q, r);
  }

  /** Weights with the three properties of `Weights` turn samples of a parabola into its slope at c0. */
  lemma ParabolaCombination(a: real, b: real, d: real, cm: real, c0: real, cp: real,
                            wm: real, w0: real, wp: real, p: real, q: real, r: real)
    requires a + b + d == 0.0
    requires a * (cm - c0) + d * (cp - c0) == 1.0
    requires a * (cm - c0) * (cm - c0) + d * (cp - c0) * (cp - c0) == 0.0
    requires wm == p * cm * cm + q * cm + r && w0 == p * c0 * c0 + q * c0 + r && wp == p * cp * cp + q * cp + r
    ensures w0 * b + wp * d + wm * a == 2.0 * p * c0 + q
  {
    var e1, e2 := cm - c0, cp - c0;
    var k, v := 2.0 * p * c0 + q, p * c0 * c0 + q * c0 + r;
    Shift(cm, c0, p, q, r, e1, k, v);
    Shift(cp, c0, p, q, r, e2, k, v);
    Combine(a, b, d, e1, e2, p, k, v, wm, w0, wp);
  }

  /** A parabola written around c0: curvature p, slope k and value v there. */
  lemma Shift(x: real, c0: real, p: real, q: real, r: real, e: real, k: real, v: real)
    requires e == x - c0 && k == 2.0 * p * c0 + q && v == p * c0 * c0 + q * c0 + r
    ensures p * x * x + q * x + r == p * e * e + k * e + v
  {
  }

  /** Weights with those three sums take a parabola to its slope at the middle row. */
  lemma Combine(a: real, b: real, d: real, e1: real, e2: real, p: real, k: real, v: real, wm: real, w0: real, wp: real)
    requires a + b + d == 0.0 && a * e1 + d * e2 == 1.0 && a * e1 * e1 + d * e2 * e2 == 0.0
    requires wm == p * e1 * e1 + k * e1 + v && w0 == v && wp == p * e2 * e2 + k * e2 + v
    ensures w0 * b + wp * d + wm * a == k
  {
    MulEq(a + b + d, 0.0, v);
    MulEq(a * e1 + d * e2, 1.0, k);
    MulEq(a * e1 * e1 + d * e2 * e2, 0.0, p);
  }

  /** The interior formula gives zero on three equal values. */
  lemma ThreePointConstant(cm: real, c0: real, cp: real, wm: real, w0: real, wp: real)
    requires cm != c0 && c0 != cp && cm != cp
    ensures wm == w0 && wp == w0 ==> ThreePoint(cm, c0, cp, wm, w0, wp) == 0.0
  {
    var a, b, d := WeightBefore(cm, c0, cp), WeightAt(cm, c0, cp), WeightAfter(cm, c0, cp);
    Weights(cm, c0, cp);
    MulEq(a + b + d, 0.0, w0);
  }

  /** Interior rows of data that lie on a parabola get its exact slope. */
  lemma {:induction false} QuadraticInterior(c: seq<real>, w: seq<real>, p: real, q: real, r: real, i: nat)
    requires Spaced(c) && |w| == |c|
    requires forall t :: 0 <= t < |c| ==> w[t] == p * c[t] * c[t] + q * c[t] + r
    requires 0 < i < |c| - 1
    ensures Slope(c, w, i) == 2.0 * p * c[i] + q
  {
    assert c[i - 1] != c[i] && c[i] != c[i + 1] && c[i - 1] != c[i + 1];
    ThreePointQuadratic(c[i - 1], c[i], c[i + 1], w[i - 1], w[i], w[i + 1], p, q, r);
  }

  /** The one-sided rows of a parabola get the slope of the chord, not the tangent. */
  lemma QuadraticEnds(c: seq<real>, w: seq<real>, p: real, q: real, r: real)
    requires Spaced(c) && |w| == |c|
    requires forall t :: 0 <= t < |c| ==> w[t] == p * c[t] * c[t] + q * c[t] + r
    ensures Slope(c, w, 0) == p * (c[0] + c[1]) + q
    ensures Slope(c, w, |c| - 1) == p * (c[|c| - 1] + c[|c| - 2]) + q
  {
    EndSlopes(c, w);
    EndChords(c, w, p, q, r);
  }

  lemma EndChords(c: seq<real>, w: seq<real>, p: real, q: real, r: real)
    requires Spaced(c) && |w| == |c|
    requires forall t :: 0 <= t < |c| ==> w[t] == p * c[t] * c[t] + q * c[t] + r
    ensures (w[0] - w[1]) / (c[0] - c[1]) == p * (c[0] + c[1]) + q
    ensures (w[|c| - 1] - w[|c| - 2]) / (c[|c| - 1] - c[|c| - 2]) == p * (c[|c| - 1] + c[|c| - 2]) + q
  {
    var n := |c|;
    Chord(c[0], c[1], w[0], w[1], p, q, r);
    Chord(c[n - 1], c[n - 2], w[n - 1], w[n - 2], p, q, r);
  }

  /** The first and last rows are the one-sided difference quotients. */
  lemma EndSlopes(c: seq<real>, w: seq<real>)
    requires Spaced(c) && |w| == |c|
    ensures Slope(c, w, 0) == (w[0] - w[1]) / (c[0] - c[1])
    ensures Slope(c, w, |c| - 1) == (w[|c| - 1] - w[|c| - 2]) / (c[|c| - 1] - c[|c| - 2])
  {
  }

  lemma Chord(x: real, y: real, wx: real, wy: real, p: real, q: real, r: real)
    requires x != y
    requires wx == p * x * x + q * x + r && wy == p * y * y + q * y + r
    ensures (wx - wy) / (x - y) == p * (x + y) + q
  {
    var k := p * (x + y) + q;
    assert wx - wy == k * (x - y);
    MulDivCancel(k, x - y);
  }

  lemma MulDivCancel(k: real, m: real)
    requires m != 0.0
    ensures k * m / m == k
  {
  }

  /** Data that is linear in the coordinate gets its slope in every row, ends included. */
  lemma LinearExact(c: seq<real>, w: seq<real>, q: real, r: real, i: nat)
    requires Spaced(c) && |w| == |c|
    requires forall t :: 0 <= t < |c| ==> w[t] == q * c[t] + r
    requires i < |c|
    ensures Slope(c, w, i) == q
  {
    assert forall t :: 0 <= t < |c| ==> w[t] == 0.0 * c[t] * c[t] + q * c[t] + r;
    if 0 < i < |c| - 1 {
      QuadraticInterior(c, w, 0.0, q, r, i);
    } else {
      QuadraticEnds(c, w, 0.0, q, r);
    }
  }
}
