/**
 * Undeformed regular lattices of a periodic box: cell centres and nodes.
 * Fields are nested sequences indexed [k][j][i], with k running along z
 * (slowest) and i along x (fastest); every point is an (x, y, z) triple.
 */
module Lattice {
  import opened Triples
  import Distinct

  type Field3<T> = seq<seq<seq<T>>>

  /** `f` has extent K along z, J along y and I along x. */
  ghost predicate HasShape<T>(f: Field3<T>, K: nat, J: nat, I: nat)
  {
    && |f| == K
    && (forall k :: 0 <= k < K ==> |f[k]| == J)
    && (forall k, j :: 0 <= k < K && 0 <= j < J ==> |f[k][j]| == I)
  }

  /**
   * `n` evenly spaced samples from `start` to `stop`, both included
   * (numpy's linspace; a single sample is `start`).
   */
  function Linspace(start: real, stop: real, n: nat): (r: seq<real>)
    ensures |r| == n
  {
    seq(n, t requires 0 <= t < n => LinspaceAt(start, stop, n, t))
  }

  function LinspaceAt(start: real, stop: real, n: nat, t: nat): real
    requires t < n
  {
    if n == 1 then start else start + (t as real) * ((stop - start) / ((n - 1) as real))
  }

  /**
   * A linspace starts at `start`, ends at `stop` and advances by the same
   * step between neighbours.
   */
  lemma LinspaceShape(start: real, stop: real, n: nat)
    requires n >= 2
    ensures Linspace(start, stop, n)[0] == start
    ensures Linspace(start, stop, n)[n - 1] == stop
    ensures forall t :: 0 <= t < n - 1 ==>
      Linspace(start, stop, n)[t + 1] - Linspace(start, stop, n)[t] == (stop - start) / (n - 1) as real
  {
    var m := (n - 1) as real;
    var w := (stop - start) / m;
    var r := Linspace(start, stop, n);
    assert r[n - 1] == start + m * w;
    DivMulCancel(stop - start, m);
    forall t | 0 <= t < n - 1
      ensures r[t + 1] - r[t] == w
    {
      assert r[t + 1] == start + ((t as real) + 1.0) * w;
    }
  }

  /**
   * Lines 106-111 of grid_filters.py: meshgrid with 'ij' indexing followed
   * by stacking the components back into (x, y, z) order.
   */
  function Mesh<T>(ax: seq<T>, ay: seq<T>, az: seq<T>): (f: Field3<Triple<T>>)
    ensures HasShape(f, |az|, |ay|, |ax|)
  {
    seq(|az|, k requires 0 <= k < |az| =>
      seq(|ay|, j requires 0 <= j < |ay| =>
        seq(|ax|, i requires 0 <= i < |ax| => Triple(ax[i], ay[j], az[k]))))
  }

  lemma MeshAt<T>(ax: seq<T>, ay: seq<T>, az: seq<T>, k: nat, j: nat, i: nat)
    requires k < |az| && j < |ay| && i < |ax|
    ensures Mesh(ax, ay, az)[k][j][i] == Triple(ax[i], ay[j], az[k])
  {
  }

  /** Cell-centre coordinates along one axis of `g` cells spanning `s` from `o`. */
  function CellAxis(o: real, s: real, g: nat): seq<real>
    requires g >= 1
  {
    Linspace(o + s / g as real * 0.5, o - s / g as real * 0.5 + s, g)
  }

  /** Node coordinates along one axis: `g + 1` points from `o` to `o + s`. */
  function NodeAxis(o: real, s: real, g: nat): seq<real>
  {
    Linspace(o, s + o, 1 + g)
  }

  /** Cell-centre positions of the undeformed grid (`cell_coord0`). */
  function CellCoord0(grid: Triple<nat>, size: Vec, origin: Vec): (c: Field3<Vec>)
    requires Positive(grid)
    ensures HasShape(c, grid.z, grid.y, grid.x)
  {
    Mesh(CellAxis(origin.x, size.x, grid.x),
         CellAxis(origin.y, size.y, grid.y),
         CellAxis(origin.z, size.z, grid.z))
  }

  /** Node positions of the undeformed grid (`node_coord0`). */
  function NodeCoord0(grid: Triple<nat>, size: Vec, origin: Vec): (n: Field3<Vec>)
    ensures HasShape(n, grid.z + 1, grid.y + 1, grid.x + 1)
  {
    Mesh(NodeAxis(origin.x, size.x, grid.x),
         NodeAxis(origin.y, size.y, grid.y),
         NodeAxis(origin.z, size.z, grid.z))
  }

  /** Component `d` of a field of triples. */
  function Component(f: Field3<Vec>, d: nat): (c: Field3<real>)
    requires d < 3
    ensures |c| == |f|
    ensures forall k :: 0 <= k < |f| ==> |c[k]| == |f[k]|
    ensures forall k, j :: 0 <= k < |f| && 0 <= j < |f[k]| ==> |c[k][j]| == |f[k][j]|
  {
    seq(|f|, k requires 0 <= k < |f| =>
      seq(|f[k]|, j requires 0 <= j < |f[k]| =>
        seq(|f[k][j]|, i requires 0 <= i < |f[k][j]| => f[k][j][i].At(d))))
  }

  /** Position of (k, j, i) in the C-ordered flat list of a field with J x I planes. */
  function FlatIndex(J: nat, I: nat, k: nat, j: nat, i: nat): nat
  {
    (k * J + j) * I + i
  }

  lemma MulPred(a: nat, b: nat)
    requires a >= 1
    ensures a * b == b + (a - 1) * b
  {
  }

  lemma MulLess(j: nat, J: nat, I: nat, i: nat)
    requires j < J && i < I
    ensures j * I + i < J * I
  {
    assert (j + 1) * I <= J * I by {
      MulMono(j + 1, J, I);
    }
  }

  lemma MulMono(a: nat, b: nat, c: nat)
    requires a <= b
    ensures a * c <= b * c
  {
  }

  lemma FlatIndexBounds(K: nat, J: nat, I: nat, k: nat, j: nat, i: nat)
    requires k < K && j < J && i < I
    ensures FlatIndex(J, I, k, j, i) < K * J * I
  {
    MulLess(k, K, J, j);
    MulLess(k * J + j, K * J, I, i);
  }

  lemma MulAssoc(a: nat, b: nat, c: nat)
    ensures a * b * c == a * (b * c)
  {
  }

  lemma FlatIndexStep(J: nat, I: nat, k: nat, j: nat, i: nat)
    requires k >= 1
    ensures FlatIndex(J, I, k, j, i) == J * I + FlatIndex(J, I, k - 1, j, i)
  {
    assert k * J + j == J + ((k - 1) * J + j);
    assert (J + ((k - 1) * J + j)) * I == J * I + ((k - 1) * J + j) * I;
  }

  /** The rows of a plane, one after another. */
  function FlattenPlane<T>(p: seq<seq<T>>): seq<T>
  {
    if p == [] then [] else p[0] + FlattenPlane(p[1..])
  }

  /**
   * The points of a field as a flat list, x fastest and z slowest (the
   * order in which `reshape` reads and writes them).
   */
  function Flatten<T>(f: Field3<T>): seq<T>
  {
    if f == [] then [] else FlattenPlane(f[0]) + Flatten(f[1..])
  }

  lemma {:induction false} FlattenPlaneAt<T>(p: seq<seq<T>>, J: nat, I: nat, j: nat, i: nat)
    requires |p| == J && forall r :: 0 <= r < J ==> |p[r]| == I
    requires j < J && i < I
    ensures |FlattenPlane(p)| == J * I
    ensures j * I + i < J * I
    ensures FlattenPlane(p)[j * I + i] == p[j][i]
  {
    FlattenPlaneLength(p, J, I);
    MulLess(j, J, I, i);
    var rest := FlattenPlane(p[1..]);
    assert FlattenPlane(p) == p[0] + rest;
    if j == 0 {
      assert j * I + i == i;
    } else {
      FlattenPlaneAt(p[1..], J - 1, I, j - 1, i);
      var m := (j - 1) * I + i;
      assert rest[m] == p[j][i];
      MulPred(j, I);
      assert j * I + i == I + m;
    }
  }

  lemma {:induction false} FlattenPlaneLength<T>(p: seq<seq<T>>, J: nat, I: nat)
    requires |p| == J && forall r :: 0 <= r < J ==> |p[r]| == I
    ensures |FlattenPlane(p)| == J * I
  {
    if J > 0 {
      FlattenPlaneLength(p[1..], J - 1, I);
      MulPred(J, I);
    }
  }

  lemma {:induction false} FlattenLength<T>(f: Field3<T>, K: nat, J: nat, I: nat)
    requires HasShape(f, K, J, I)
    ensures |Flatten(f)| == K * J * I
  {
    if K > 0 {
      FlattenPlaneLength(f[0], J, I);
      FlattenLength(f[1..], K - 1, J, I);
      MulPred(K, J * I);
      MulAssoc(K, J, I);
      MulAssoc(K - 1, J, I);
    }
  }

  /** The flat list holds entry [k][j][i] at position (k*J + j)*I + i. */
  lemma {:induction false} FlattenAt<T>(f: Field3<T>, K: nat, J: nat, I: nat, k: nat, j: nat, i: nat)
    requires HasShape(f, K, J, I)
    requires k < K && j < J && i < I
    ensures |Flatten(f)| == K * J * I
    ensures FlatIndex(J, I, k, j, i) < K * J * I
    ensures Flatten(f)[FlatIndex(J, I, k, j, i)] == f[k][j][i]
  {
    FlatIndexBounds(K, J, I, k, j, i);
    FlattenLength(f, K, J, I);
    FlattenPlaneLength(f[0], J, I);
    var first, rest := FlattenPlane(f[0]), Flatten(f[1..]);
    var idx := FlatIndex(J, I, k, j, i);
    assert Flatten(f) == first + rest;
    if k == 0 {
      FlattenPlaneAt(f[0], J, I, j, i);
      assert idx == j * I + i;
      assert Flatten(f)[idx] == first[idx];
    } else {
      FlattenAt(f[1..], K - 1, J, I, k - 1, j, i);
      FlatIndexStep(J, I, k, j, i);
      var sub := FlatIndex(J, I, k - 1, j, i);
      assert idx == |first| + sub;
      assert Flatten(f)[idx] == rest[sub];
    }
  }

  /** Every point of the flat list is an entry of the field. */
  lemma {:induction false} FlattenMember<T>(f: Field3<T>, K: nat, J: nat, I: nat, x: T)
    requires HasShape(f, K, J, I)
    requires x in Flatten(f)
    ensures exists k, j, i :: 0 <= k < K && 0 <= j < J && 0 <= i < I && f[k][j][i] == x
  {
    if x in FlattenPlane(f[0]) {
      var j, i := PlaneMember(f[0], J, I, x);
      assert f[0][j][i] == x;
    } else {
      FlattenMember(f[1..], K - 1, J, I, x);
      var k, j, i :| 0 <= k < K - 1 && 0 <= j < J && 0 <= i < I && f[1..][k][j][i] == x;
      assert f[k + 1][j][i] == x;
    }
  }

  lemma {:induction false} PlaneMember<T>(p: seq<seq<T>>, J: nat, I: nat, x: T) returns (j: nat, i: nat)
    requires |p| == J && forall r :: 0 <= r < J ==> |p[r]| == I
    requires x in FlattenPlane(p)
    ensures j < J && i < I && p[j][i] == x
  {
    if x in p[0] {
      j := 0;
      i :| 0 <= i < |p[0]| && p[0][i] == x;
    } else {
      j, i := PlaneMember(p[1..], J - 1, I, x);
      j := j + 1;
    }
  }

  /** Division by a non-zero count and multiplication by it cancel. */
  lemma DivMulCancel(x: real, n: real)
    requires n != 0.0
    ensures x / n * n == x
    ensures n * (x / n) == x
  {
  }

  /** Cell centre `t` of an axis sits half a cell width beyond `t` whole cells. */
  lemma CellAxisAt(o: real, s: real, g: nat, t: nat)
    requires g >= 1 && t < g
    ensures |CellAxis(o, s, g)| == g
    ensures CellAxis(o, s, g)[t] == o + (t as real + 0.5) * (s / g as real)
  {
    var d := s / g as real;
    var start := o + d * 0.5;
    var stop := o - d * 0.5 + s;
    assert CellAxis(o, s, g)[t] == LinspaceAt(start, stop, g, t);
    if g >= 2 {
      var m := (g - 1) as real;
      DivMulCancel(s, g as real);
      assert stop - start == m * d;
      assert (m * d) / m == d by {
        DivMulCancel(d, m);
      }
      assert LinspaceAt(start, stop, g, t) == start + (t as real) * d;
    } else {
      assert LinspaceAt(start, stop, g, t) == start;
      assert t as real == 0.0;
    }
  }

  /** Node `t` of an axis sits `t` whole cells beyond the origin. */
  lemma NodeAxisAt(o: real, s: real, g: nat, t: nat)
    requires g >= 1 && t <= g
    ensures |NodeAxis(o, s, g)| == g + 1
    ensures NodeAxis(o, s, g)[t] == o + (t as real) * (s / g as real)
  {
    var m := g as real;
    assert NodeAxis(o, s, g)[t] == LinspaceAt(o, s + o, g + 1, t);
    assert (t as real) * (s + o - o) / m == (t as real) * (s / m) by {
      assert (t as real) * s == ((t as real) * (s / m)) * m by {
        DivMulCancel(s, m);
      }
      DivMulCancel((t as real) * (s / m), m);
    }
  }

  /**
   * `cell_coord0` has one entry per cell, in [k][j][i] order, and entry
   * [k][j][i] is the origin plus (i + 1/2, j + 1/2, k + 1/2) cell widths.
   */
  lemma CellCoord0At(grid: Triple<nat>, size: Vec, origin: Vec, k: nat, j: nat, i: nat)
    requires Positive(grid)
    requires k < grid.z && j < grid.y && i < grid.x
    ensures HasShape(CellCoord0(grid, size, origin), grid.z, grid.y, grid.x)
    ensures CellCoord0(grid, size, origin)[k][j][i] ==
      Triple(origin.x + (i as real + 0.5) * (size.x / grid.x as real),
             origin.y + (j as real + 0.5) * (size.y / grid.y as real),
             origin.z + (k as real + 0.5) * (size.z / grid.z as real))
  {
    var ax, ay, az := CellAxis(origin.x, size.x, grid.x), CellAxis(origin.y, size.y, grid.y),
      CellAxis(origin.z, size.z, grid.z);
    assert CellCoord0(grid, size, origin)[k][j][i] == Triple(ax[i], ay[j], az[k]) by {
      MeshAt(ax, ay, az, k, j, i);
    }
    assert ax[i] == origin.x + (i as real + 0.5) * (size.x / grid.x as real) by {
      CellAxisAt(origin.x, size.x, grid.x, i);
    }
    assert ay[j] == origin.y + (j as real + 0.5) * (size.y / grid.y as real) by {
      CellAxisAt(origin.y, size.y, grid.y, j);
    }
    assert az[k] == origin.z + (k as real + 0.5) * (size.z / grid.z as real) by {
      CellAxisAt(origin.z, size.z, grid.z, k);
    }
  }

  /** Half a cell beyond `t` whole cells lies strictly inside the axis span. */
  lemma CentreInside(o: real, s: real, g: nat, t: nat)
    requires s > 0.0 && g >= 1 && t < g
    ensures o < o + (t as real + 0.5) * (s / g as real) < o + s
  {
    var d := s / g as real;
    DivMulCancel(s, g as real);
    assert d > 0.0;
    var e := g as real - (t as real + 0.5);
    assert e * d > 0.0;
    assert (t as real + 0.5) * d > 0.0;
    assert (t as real + 0.5) * d == (g as real) * d - e * d;
  }

  /** Every cell centre lies strictly inside the box [origin, origin + size]. */
  lemma CellCentresInside(grid: Triple<nat>, size: Vec, origin: Vec, k: nat, j: nat, i: nat)
    requires Positive(grid) && size.x > 0.0 && size.y > 0.0 && size.z > 0.0
    requires k < grid.z && j < grid.y && i < grid.x
    ensures var p := CellCoord0(grid, size, origin)[k][j][i];
      && origin.x < p.x < origin.x + size.x
      && origin.y < p.y < origin.y + size.y
      && origin.z < p.z < origin.z + size.z
  {
    CellCoord0At(grid, size, origin, k, j, i);
    CentreInside(origin.x, size.x, grid.x, i);
    CentreInside(origin.y, size.y, grid.y, j);
    CentreInside(origin.z, size.z, grid.z, k);
  }

  /**
   * `node_coord0` has `grid + 1` entries per axis and entry [k][j][i] is the
   * origin plus (i, j, k) cell widths.
   */
  lemma NodeCoord0At(grid: Triple<nat>, size: Vec, origin: Vec, k: nat, j: nat, i: nat)
    requires Positive(grid)
    requires k <= grid.z && j <= grid.y && i <= grid.x
    ensures HasShape(NodeCoord0(grid, size, origin), grid.z + 1, grid.y + 1, grid.x + 1)
    ensures NodeCoord0(grid, size, origin)[k][j][i] ==
      Triple(origin.x + (i as real) * (size.x / grid.x as real),
             origin.y + (j as real) * (size.y / grid.y as real),
             origin.z + (k as real) * (size.z / grid.z as real))
  {
    var ax, ay, az := NodeAxis(origin.x, size.x, grid.x), NodeAxis(origin.y, size.y, grid.y),
      NodeAxis(origin.z, size.z, grid.z);
    NodeAxisAt(origin.x, size.x, grid.x, i);
    NodeAxisAt(origin.y, size.y, grid.y, j);
    NodeAxisAt(origin.z, size.z, grid.z, k);
    var px, py, pz := ax[i], ay[j], az[k];
    assert px == origin.x + (i as real) * (size.x / grid.x as real);
    assert py == origin.y + (j as real) * (size.y / grid.y as real);
    assert pz == origin.z + (k as real) * (size.z / grid.z as real);
    MeshAt(ax, ay, az, k, j, i);
    assert NodeCoord0(grid, size, origin)[k][j][i] == Triple(px, py, pz);
  }


  /** The first node is the origin and the last one the opposite corner. */
  lemma NodeCorners(grid: Triple<nat>, size: Vec, origin: Vec)
    requires Positive(grid)
    ensures HasShape(NodeCoord0(grid, size, origin), grid.z + 1, grid.y + 1, grid.x + 1)
    ensures NodeCoord0(grid, size, origin)[0][0][0] == origin
    ensures NodeCoord0(grid, size, origin)[grid.z][grid.y][grid.x] ==
      Triple(origin.x + size.x, origin.y + size.y, origin.z + size.z)
  {
    var ax, ay, az := NodeAxis(origin.x, size.x, grid.x), NodeAxis(origin.y, size.y, grid.y),
      NodeAxis(origin.z, size.z, grid.z);
    LinspaceShape(origin.x, size.x + origin.x, grid.x + 1);
    LinspaceShape(origin.y, size.y + origin.y, grid.y + 1);
    LinspaceShape(origin.z, size.z + origin.z, grid.z + 1);
    MeshAt(ax, ay, az, 0, 0, 0);
    MeshAt(ax, ay, az, grid.z, grid.y, grid.x);
  }

  /** With a positive extent, cell centres along an axis strictly increase. */
  lemma PosDiv(s: real, n: real)
    requires s > 0.0 && n > 0.0
    ensures s / n > 0.0
  {
  }

  lemma MulStrict(x: real, y: real, d: real)
    requires x < y && d > 0.0
    ensures x * d < y * d
  {
  }

  lemma CellAxisIncreasing(o: real, s: real, g: nat)
    requires g >= 1 && s > 0.0
    ensures Distinct.Increasing(CellAxis(o, s, g), Distinct.RealLess)
  {
    var d := s / g as real;
    PosDiv(s, g as real);
    forall a, b | 0 <= a < b < g
      ensures Distinct.RealLess(CellAxis(o, s, g)[a], CellAxis(o, s, g)[b])
    {
      CellAxisAt(o, s, g, a);
      CellAxisAt(o, s, g, b);
      var ta, tb := a as real + 0.5, b as real + 0.5;
      MulStrict(ta, tb, d);
    }
  }

  /** With a positive extent, nodes along an axis strictly increase. */
  lemma NodeAxisIncreasing(o: real, s: real, g: nat)
    requires g >= 1 && s > 0.0
    ensures Distinct.Increasing(NodeAxis(o, s, g), Distinct.RealLess)
  {
    var d := s / g as real;
    PosDiv(s, g as real);
    forall a, b | 0 <= a < b <= g
      ensures Distinct.RealLess(NodeAxis(o, s, g)[a], NodeAxis(o, s, g)[b])
    {
      NodeAxisAt(o, s, g, a);
      NodeAxisAt(o, s, g, b);
      var ta, tb := a as real, b as real;
      MulStrict(ta, tb, d);
    }
  }
}
