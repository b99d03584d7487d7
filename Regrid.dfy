/**
 * The periodic wrap step of `regrid` in grid_filters.py: deformed cell
 * centres are brought back into the box [0, outer] spanned by the average
 * deformation gradient applied to the undeformed size, axis by axis.
 */
module Regrid {
  import opened Triples

  /** A 3 x 3 matrix stored by rows. */
  type Mat = Triple<Vec>

  function Dot(u: Vec, v: Vec): real
  {
    u.x * v.x + u.y * v.y + u.z * v.z
  }

  /** Matrix times vector, `np.dot(M, v)` for a 3 x 3 `M`. */
  function Apply(m: Mat, v: Vec): (r: Vec)
    ensures r.x == Dot(m.x, v) && r.y == Dot(m.y, v) && r.z == Dot(m.z, v)
  {
    Triple(Dot(m.x, v), Dot(m.y, v), Dot(m.z, v))
  }

  function AddVec(u: Vec, v: Vec): Vec
  {
    Triple(u.x + v.x, u.y + v.y, u.z + v.z)
  }

  function AddMat(a: Mat, b: Mat): Mat
  {
    Triple(AddVec(a.x, b.x), AddVec(a.y, b.y), AddVec(a.z, b.z))
  }

  function ScaleVec(v: Vec, s: real): Vec
  {
    Triple(v.x * s, v.y * s, v.z * s)
  }

  function ScaleMat(a: Mat, s: real): Mat
  {
    Triple(ScaleVec(a.x, s), ScaleVec(a.y, s), ScaleVec(a.z, s))
  }

  const Zero: Mat := Triple(Triple(0.0, 0.0, 0.0), Triple(0.0, 0.0, 0.0), Triple(0.0, 0.0, 0.0))
  const Identity: Mat := Triple(Triple(1.0, 0.0, 0.0), Triple(0.0, 1.0, 0.0), Triple(0.0, 0.0, 1.0))

  function Sum(fs: seq<Mat>): Mat
  {
    if |fs| == 0 then Zero else AddMat(Sum(fs[..|fs| - 1]), fs[|fs| - 1])
  }

  /** `np.average(F, axis=(0,1,2))` over the deformation gradients of all cells. */
  function Average(fs: seq<Mat>): Mat
    requires |fs| > 0
  {
    ScaleMat(Sum(fs), 1.0 / |fs| as real)
  }

  /** Line 369: the box edge lengths of the deformed configuration. */
  function Outer(fs: seq<Mat>, size: Vec): (o: Vec)
    requires |fs| > 0
    ensures (forall t :: 0 <= t < |fs| ==> fs[t] == fs[0]) ==> o == Apply(fs[0], size)
  {
    HomogeneousAverage(fs);
    Apply(Average(fs), size)
  }

  /** The average of a homogeneous field is its one gradient. */
  lemma HomogeneousAverage(fs: seq<Mat>)
    requires |fs| > 0
    ensures (forall t :: 0 <= t < |fs| ==> fs[t] == fs[0]) ==> Average(fs) == fs[0]
  {
    if forall t :: 0 <= t < |fs| ==> fs[t] == fs[0] {
      SumConstant(fs, fs[0]);
      ScaleMatBack(fs[0], |fs| as real);
    }
  }

  lemma AddScaled(m: Mat, k: real)
    ensures AddMat(ScaleMat(m, k), m) == ScaleMat(m, k + 1.0)
  {
  }

  lemma {:induction false} SumConstant(fs: seq<Mat>, m: Mat)
    requires forall t :: 0 <= t < |fs| ==> fs[t] == m
    ensures Sum(fs) == ScaleMat(m, |fs| as real)
  {
    if |fs| > 0 {
      SumConstant(fs[..|fs| - 1], m);
      AddScaled(m, (|fs| - 1) as real);
    }
  }

  lemma ScaleBack(r: real, n: real)
    requires n > 0.0
    ensures r * n * (1.0 / n) == r
  {
    assert r * n * (1.0 / n) == r * (n * (1.0 / n));
  }

  lemma ScaleVecBack(v: Vec, n: real)
    requires n > 0.0
    ensures ScaleVec(ScaleVec(v, n), 1.0 / n) == v
  {
    ScaleBack(v.x, n);
    ScaleBack(v.y, n);
    ScaleBack(v.z, n);
    var w := ScaleVec(ScaleVec(v, n), 1.0 / n);
    assert w.x == v.x && w.y == v.y && w.z == v.z;
  }

  lemma ScaleMatBack(m: Mat, n: real)
    requires n > 0.0
    ensures ScaleMat(ScaleMat(m, n), 1.0 / n) == m
  {
    ScaleVecBack(m.x, n);
    ScaleVecBack(m.y, n);
    ScaleVecBack(m.z, n);
  }

  /** Adds `s` to every component: what `c[rows] += s` does to a selected point. */
  function ShiftAll(p: Vec, s: real): (q: Vec)
    ensures q.x - p.x == s && q.y - p.y == s && q.z - p.z == s
  {
    Triple(p.x + s, p.y + s, p.z + s)
  }

  /** Adds `s` to component `d` only. */
  function ShiftComponent(p: Vec, d: nat, s: real): (q: Vec)
    requires d < 3
    ensures q.At(d) == p.At(d) + s
    ensures forall e :: 0 <= e < 3 && e != d ==> q.At(e) == p.At(e)
  {
    if d == 0 then Triple(p.x + s, p.y, p.z)
    else if d == 1 then Triple(p.x, p.y + s, p.z)
    else Triple(p.x, p.y, p.z + s)
  }

  /**
   * The shift a selected point receives along axis `d`: the whole point
   * as lines 371-372 are written (`whole`), or component `d` only.
   */
  function Move(p: Vec, d: nat, s: real, whole: bool): Vec
    requires d < 3
  {
    if whole then ShiftAll(p, s) else ShiftComponent(p, d, s)
  }

  /** Line 371: a point with a negative coordinate `d` is raised by one period. */
  function Raise(p: Vec, d: nat, outer: Vec, whole: bool): Vec
    requires d < 3
  {
    if p.At(d) < 0.0 then Move(p, d, outer.At(d), whole) else p
  }

  /** Line 372: a point with coordinate `d` beyond the box is lowered by one period. */
  function Lower(p: Vec, d: nat, outer: Vec, whole: bool): Vec
    requires d < 3
  {
    if p.At(d) > outer.At(d) then Move(p, d, -outer.At(d), whole) else p
  }

  /** Lines 371-372 for one point and axis `d`, as written: the whole point moves. */
  function StepAsWritten(p: Vec, d: nat, outer: Vec): Vec
    requires d < 3
  {
    Lower(Raise(p, d, outer, true), d, outer, true)
  }

  /** The same step moving only component `d`. */
  function Step(p: Vec, d: nat, outer: Vec): Vec
    requires d < 3
  {
    Lower(Raise(p, d, outer, false), d, outer, false)
  }

  /** The steps for axes 0 .. n-1 in order, as written. */
  function WrapAxesAsWritten(p: Vec, outer: Vec, n: nat): (q: Vec)
    requires n <= 3
    ensures q.y - p.y == q.x - p.x && q.z - p.z == q.x - p.x
  {
    if n == 0 then p else StepAsWritten(WrapAxesAsWritten(p, outer, n - 1), n - 1, outer)
  }

  /**
   * The corrected steps for axes 0 .. n-1: each coordinate moves by a whole
   * period at most, and the axes not yet visited are untouched.
   */
  function WrapAxes(p: Vec, outer: Vec, n: nat): (q: Vec)
    requires n <= 3
    ensures forall d :: 0 <= d < 3 ==>
      q.At(d) - p.At(d) == 0.0 || q.At(d) - p.At(d) == outer.At(d) || q.At(d) - p.At(d) == -outer.At(d)
    ensures forall d :: n <= d < 3 ==> q.At(d) == p.At(d)
  {
    if n == 0 then p else Step(WrapAxes(p, outer, n - 1), n - 1, outer)
  }

  /** Within one period of the box along axis `d`. */
  predicate NearBox(p: Vec, outer: Vec, d: nat)
    requires d < 3
  {
    -outer.At(d) <= p.At(d) <= 2.0 * outer.At(d)
  }

  predicate InBox(p: Vec, outer: Vec, d: nat)
    requires d < 3
  {
    0.0 <= p.At(d) <= outer.At(d)
  }

  /** One corrected step lands a near point in the box, moved by a whole period or not at all. */
  lemma StepInBox(p: Vec, d: nat, outer: Vec)
    requires d < 3 && outer.At(d) > 0.0
    requires NearBox(p, outer, d)
    ensures InBox(Step(p, d, outer), outer, d)
    ensures var m := Step(p, d, outer).At(d) - p.At(d); m == 0.0 || m == outer.At(d) || m == -outer.At(d)
    ensures forall e :: 0 <= e < 3 && e != d ==> Step(p, d, outer).At(e) == p.At(e)
  {
  }

  /**
   * The corrected wrap maps every point within one period of the box
   * into the box, and moves each coordinate by a whole period at most.
   */
  lemma {:induction false} WrapAxesInBox(p: Vec, outer: Vec, n: nat)
    requires n <= 3
    requires forall d :: 0 <= d < 3 ==> outer.At(d) > 0.0 && NearBox(p, outer, d)
    ensures forall d :: 0 <= d < n ==> InBox(WrapAxes(p, outer, n), outer, d)
    ensures forall d :: n <= d < 3 ==> WrapAxes(p, outer, n).At(d) == p.At(d)
  {
    if n > 0 {
      var q := WrapAxes(p, outer, n - 1);
      WrapAxesInBox(p, outer, n - 1);
      assert NearBox(q, outer, n - 1);
      StepInBox(q, n - 1, outer);
      assert WrapAxes(p, outer, n) == Step(q, n - 1, outer);
      forall d | 0 <= d < n
        ensures InBox(WrapAxes(p, outer, n), outer, d)
      {
        if d < n - 1 {
          assert InBox(q, outer, d);
        }
      }
    }
  }

  lemma StepInside(p: Vec, d: nat, outer: Vec)
    requires d < 3 && InBox(p, outer, d)
    ensures Step(p, d, outer) == p && StepAsWritten(p, d, outer) == p
  {
  }

  /** A point already inside the box is left alone by both versions. */
  lemma {:induction false} WrapInsideUnchanged(p: Vec, outer: Vec, n: nat)
    requires n <= 3
    requires forall d :: 0 <= d < 3 ==> InBox(p, outer, d)
    ensures WrapAxes(p, outer, n) == p
    ensures WrapAxesAsWritten(p, outer, n) == p
  {
    if n > 0 {
      WrapInsideUnchanged(p, outer, n - 1);
      StepInside(p, n - 1, outer);
    }
  }

  /**
   * As written, (-0.5, 0.5, 0.5) in the unit box is moved to (0.5, 1.5, 1.5)
   * by the x test and back by the y test, so it ends outside the box;
   * the corrected wrap gives (0.5, 0.5, 0.5).
   */
  lemma WrapCounterexample()
    ensures WrapAxesAsWritten(Triple(-0.5, 0.5, 0.5), Triple(1.0, 1.0, 1.0), 3) == Triple(-0.5, 0.5, 0.5)
    ensures WrapAxes(Triple(-0.5, 0.5, 0.5), Triple(1.0, 1.0, 1.0), 3) == Triple(0.5, 0.5, 0.5)
  {
    var p, box := Triple(-0.5, 0.5, 0.5), Triple(1.0, 1.0, 1.0);
    assert WrapAxesAsWritten(p, box, 1) == Triple(0.5, 1.5, 1.5);
    assert WrapAxesAsWritten(p, box, 2) == p;
    assert WrapAxesAsWritten(p, box, 3) == p;
    assert WrapAxes(p, box, 1) == Triple(0.5, 0.5, 0.5);
    assert WrapAxes(p, box, 2) == Triple(0.5, 0.5, 0.5);
  }

  /** Line 371 over every point. */
  method RaiseAll(c: array<Vec>, d: nat, outer: Vec, whole: bool)
    requires d < 3
    modifies c
    ensures forall t :: 0 <= t < c.Length ==> c[t] == Raise(old(c[t]), d, outer, whole)
  {
    for t := 0 to c.Length
      invariant forall u :: 0 <= u < t ==> c[u] == Raise(old(c[u]), d, outer, whole)
      invariant forall u :: t <= u < c.Length ==> c[u] == old(c[u])
    {
      if c[t].At(d) < 0.0 {
        c[t] := Move(c[t], d, outer.At(d), whole);
      }
    }
  }

  /** Line 372 over every point. */
  method LowerAll(c: array<Vec>, d: nat, outer: Vec, whole: bool)
    requires d < 3
    modifies c
    ensures forall t :: 0 <= t < c.Length ==> c[t] == Lower(old(c[t]), d, outer, whole)
  {
    for t := 0 to c.Length
      invariant forall u :: 0 <= u < t ==> c[u] == Lower(old(c[u]), d, outer, whole)
      invariant forall u :: t <= u < c.Length ==> c[u] == old(c[u])
    {
      if c[t].At(d) > outer.At(d) {
        c[t] := Move(c[t], d, -outer.At(d), whole);
      }
    }
  }

  /** Lines 370-372 as written: each selected point moves as a whole. */
  method WrapAsWritten(c: array<Vec>, outer: Vec)
    modifies c
    ensures forall t :: 0 <= t < c.Length ==> c[t] == WrapAxesAsWritten(old(c[t]), outer, 3)
  {
    for d := 0 to 3
      invariant forall t :: 0 <= t < c.Length ==> c[t] == WrapAxesAsWritten(old(c[t]), outer, d)
    {
      RaiseAll(c, d, outer, true);
      LowerAll(c, d, outer, true);
    }
  }

  /** Lines 370-372 with the shift applied to component `d` only. */
  method Wrap(c: array<Vec>, outer: Vec)
    modifies c
    ensures forall t :: 0 <= t < c.Length ==> c[t] == WrapAxes(old(c[t]), outer, 3)
  {
    for d := 0 to 3
      invariant forall t :: 0 <= t < c.Length ==> c[t] == WrapAxes(old(c[t]), outer, d)
    {
      RaiseAll(c, d, outer, false);
      LowerAll(c, d, outer, false);
    }
  }


}
