/**
 * Periodic interpolation between cell and node data (`cell_2_node`,
 * `node_2_cell` in grid_filters.py): an average over the eight periodic
 * back-neighbours built from `np.roll`, followed by a wrap pad (cells to
 * nodes) or by dropping a layer (nodes to cells). Scalar fields only.
 */
module Interpolation {
  import opened Triples
  import opened Lattice

  type Field = Field3<real>

  /** The index that `np.roll(.., 1, axis)` brings to `t` on an axis of length `n`, if `rolled`. */
  function Back(t: nat, n: nat, rolled: bool): (b: nat)
    requires t < n
    ensures b < n
    ensures rolled ==> (b + 1) % n == t
  {
    if !rolled then t else if t == 0 then n - 1 else t - 1
  }

  /** Entry (k, j, i) of `np.roll(f, 1, axes)`, with the rolled axes among (z, y, x) marked. */
  function Rolled(f: Field, K: nat, J: nat, I: nat, k: nat, j: nat, i: nat, rk: bool, rj: bool, ri: bool): real
    requires HasShape(f, K, J, I) && k < K && j < J && i < I
  {
    f[Back(k, K, rk)][Back(j, J, rj)][Back(i, I, ri)]
  }

  /**
   * The shared eight-term average of lines 316-318 and 324-326: the field
   * plus its rolls along (z,y,x), z, y, x, (z,y), (y,x) and (x,z), times 1/8.
   */
  function BoxFilter(f: Field, K: nat, J: nat, I: nat): (r: Field)
    requires HasShape(f, K, J, I)
    ensures HasShape(r, K, J, I)
  {
    seq(K, k requires 0 <= k < K =>
      seq(J, j requires 0 <= j < J =>
        seq(I, i requires 0 <= i < I =>
          (  f[k][j][i] + Rolled(f, K, J, I, k, j, i, true, true, true)
           + Rolled(f, K, J, I, k, j, i, true, false, false) + Rolled(f, K, J, I, k, j, i, false, true, false)
           + Rolled(f, K, J, I, k, j, i, false, false, true)
           + Rolled(f, K, J, I, k, j, i, true, true, false) + Rolled(f, K, J, I, k, j, i, false, true, true)
           + Rolled(f, K, J, I, k, j, i, true, false, true)) * 0.125)))
  }

  /** Sum over the eight corners {k-1, k} x {j-1, j} x {i-1, i}, periodically. */
  function CornerSum(f: Field, K: nat, J: nat, I: nat, k: nat, j: nat, i: nat): real
    requires HasShape(f, K, J, I) && k < K && j < J && i < I
  {
    Rolled(f, K, J, I, k, j, i, false, false, false) + Rolled(f, K, J, I, k, j, i, false, false, true) +
    Rolled(f, K, J, I, k, j, i, false, true, false) + Rolled(f, K, J, I, k, j, i, false, true, true) +
    Rolled(f, K, J, I, k, j, i, true, false, false) + Rolled(f, K, J, I, k, j, i, true, false, true) +
    Rolled(f, K, J, I, k, j, i, true, true, false) + Rolled(f, K, J, I, k, j, i, true, true, true)
  }

  /** `np.pad(.., ((0,1),(0,1),(0,1)), mode='wrap')`: one more layer per axis, copied periodically. */
  function PadWrap(f: Field, K: nat, J: nat, I: nat): (r: Field)
    requires HasShape(f, K, J, I) && K >= 1 && J >= 1 && I >= 1
    ensures HasShape(r, K + 1, J + 1, I + 1)
  {
    seq(K + 1, k requires 0 <= k < K + 1 =>
      seq(J + 1, j requires 0 <= j < J + 1 =>
        seq(I + 1, i requires 0 <= i < I + 1 => f[k % K][j % J][i % I])))
  }

  /** `c[:-1,:-1,:-1]`: the last layer of every axis removed. */
  function DropLast(f: Field, K: nat, J: nat, I: nat): (r: Field)
    requires HasShape(f, K, J, I) && K >= 1 && J >= 1 && I >= 1
    ensures HasShape(r, K - 1, J - 1, I - 1)
  {
    seq(K - 1, k requires 0 <= k < K - 1 =>
      seq(J - 1, j requires 0 <= j < J - 1 =>
        seq(I - 1, i requires 0 <= i < I - 1 => f[k][j][i])))
  }

  /** `c[1:,1:,1:]`: the first layer of every axis removed. */
  function DropFirst(f: Field, K: nat, J: nat, I: nat): (r: Field)
    requires HasShape(f, K, J, I) && K >= 1 && J >= 1 && I >= 1
    ensures HasShape(r, K - 1, J - 1, I - 1)
  {
    seq(K - 1, k requires 0 <= k < K - 1 =>
      seq(J - 1, j requires 0 <= j < J - 1 =>
        seq(I - 1, i requires 0 <= i < I - 1 => f[k + 1][j + 1][i + 1])))
  }

  /** `cell_2_node`: nodal values of periodic cell data. */
  function Cell2Node(f: Field, K: nat, J: nat, I: nat): (n: Field)
    requires HasShape(f, K, J, I) && K >= 1 && J >= 1 && I >= 1
    ensures HasShape(n, K + 1, J + 1, I + 1)
  {
    PadWrap(BoxFilter(f, K, J, I), K, J, I)
  }

  /** `node_2_cell` as written: the average, then the last layer dropped. */
  function Node2Cell(f: Field, K: nat, J: nat, I: nat): (c: Field)
    requires HasShape(f, K, J, I) && K >= 1 && J >= 1 && I >= 1
    ensures HasShape(c, K - 1, J - 1, I - 1)
  {
    DropLast(BoxFilter(f, K, J, I), K, J, I)
  }

  /** `node_2_cell` as evidently intended: the average, then the first (wrapped) layer dropped. */
  function Node2CellCentred(f: Field, K: nat, J: nat, I: nat): (c: Field)
    requires HasShape(f, K, J, I) && K >= 1 && J >= 1 && I >= 1
    ensures HasShape(c, K - 1, J - 1, I - 1)
  {
    DropFirst(BoxFilter(f, K, J, I), K, J, I)
  }

  /** Every entry of the averaged field is one eighth of the periodic corner sum. */
  lemma BoxFilterAt(f: Field, K: nat, J: nat, I: nat, k: nat, j: nat, i: nat)
    requires HasShape(f, K, J, I) && k < K && j < J && i < I
    ensures BoxFilter(f, K, J, I)[k][j][i] == 0.125 * CornerSum(f, K, J, I, k, j, i)
  {
  }

  /** Every entry of `f` equals `c`. */
  ghost predicate Constant(f: Field, K: nat, J: nat, I: nat, c: real)
    requires HasShape(f, K, J, I)
  {
    forall k, j, i :: 0 <= k < K && 0 <= j < J && 0 <= i < I ==> f[k][j][i] == c
  }

  /**
   * Node (k, j, i) of `cell_2_node` holds one eighth of the sum over the
   * eight cells that share it, indices taken periodically.
   */
  lemma Cell2NodeAt(f: Field, K: nat, J: nat, I: nat, k: nat, j: nat, i: nat)
    requires HasShape(f, K, J, I) && K >= 1 && J >= 1 && I >= 1
    requires k <= K && j <= J && i <= I
    ensures Cell2Node(f, K, J, I)[k][j][i] == 0.125 * CornerSum(f, K, J, I, k % K, j % J, i % I)
  {
    BoxFilterAt(f, K, J, I, k % K, j % J, i % I);
  }

  /** The padded layer of `cell_2_node` repeats layer 0 along every axis. */
  lemma Cell2NodeWrap(f: Field, K: nat, J: nat, I: nat, k: nat, j: nat, i: nat)
    requires HasShape(f, K, J, I) && K >= 1 && J >= 1 && I >= 1
    requires k <= K && j <= J && i <= I
    ensures Cell2Node(f, K, J, I)[K][j][i] == Cell2Node(f, K, J, I)[0][j][i]
    ensures Cell2Node(f, K, J, I)[k][J][i] == Cell2Node(f, K, J, I)[k][0][i]
    ensures Cell2Node(f, K, J, I)[k][j][I] == Cell2Node(f, K, J, I)[k][j][0]
  {
    assert K % K == 0 && J % J == 0 && I % I == 0;
  }

  /** A constant cell field gives the same constant at every node. */
  lemma Cell2NodeConstant(f: Field, K: nat, J: nat, I: nat, c: real)
    requires HasShape(f, K, J, I) && K >= 1 && J >= 1 && I >= 1
    requires Constant(f, K, J, I, c)
    ensures Constant(Cell2Node(f, K, J, I), K + 1, J + 1, I + 1, c)
  {
    forall k, j, i | 0 <= k < K + 1 && 0 <= j < J + 1 && 0 <= i < I + 1
      ensures Cell2Node(f, K, J, I)[k][j][i] == c
    {
      Cell2NodeAt(f, K, J, I, k, j, i);
    }
  }

  /** Cell (k, j, i) of `node_2_cell` as written is the average around node (k, j, i). */
  lemma Node2CellAt(f: Field, K: nat, J: nat, I: nat, k: nat, j: nat, i: nat)
    requires HasShape(f, K, J, I) && k + 1 < K && j + 1 < J && i + 1 < I
    ensures Node2Cell(f, K, J, I)[k][j][i] == 0.125 * CornerSum(f, K, J, I, k, j, i)
  {
    BoxFilterAt(f, K, J, I, k, j, i);
  }

  /** Cell (k, j, i) of the corrected `node_2_cell` is the average around node (k+1, j+1, i+1). */
  lemma Node2CellCentredAt(f: Field, K: nat, J: nat, I: nat, k: nat, j: nat, i: nat)
    requires HasShape(f, K, J, I) && k + 1 < K && j + 1 < J && i + 1 < I
    ensures Node2CellCentred(f, K, J, I)[k][j][i] == 0.125 * CornerSum(f, K, J, I, k + 1, j + 1, i + 1)
  {
    var b := BoxFilter(f, K, J, I);
    assert DropFirst(b, K, J, I)[k][j][i] == b[k + 1][j + 1][i + 1];
    BoxFilterAt(f, K, J, I, k + 1, j + 1, i + 1);
  }

  /** A constant node field gives the same constant in every cell, with one layer fewer per axis. */
  lemma Node2CellConstant(f: Field, K: nat, J: nat, I: nat, c: real)
    requires HasShape(f, K, J, I) && K >= 1 && J >= 1 && I >= 1
    requires Constant(f, K, J, I, c)
    ensures HasShape(Node2Cell(f, K, J, I), K - 1, J - 1, I - 1)
    ensures Constant(Node2Cell(f, K, J, I), K - 1, J - 1, I - 1, c)
  {
    forall k, j, i | 0 <= k < K - 1 && 0 <= j < J - 1 && 0 <= i < I - 1
      ensures Node2Cell(f, K, J, I)[k][j][i] == c
    {
      Node2CellAt(f, K, J, I, k, j, i);
    }
  }

  /** The midpoint of two neighbouring nodes is the centre of the cell between them. */
  lemma NodeMidpoint(o: real, s: real, g: nat, t: nat)
    requires g >= 1 && t < g
    ensures |NodeAxis(o, s, g)| == g + 1 && |CellAxis(o, s, g)| == g
    ensures (NodeAxis(o, s, g)[t] + NodeAxis(o, s, g)[t + 1]) * 0.5 == CellAxis(o, s, g)[t]
  {
    NodeAxisAt(o, s, g, t);
    NodeAxisAt(o, s, g, t + 1);
    CellAxisAt(o, s, g, t);
  }

  /** Component `d` of mesh point (k, j, i). */
  lemma MeshComponentAt(ax: seq<real>, ay: seq<real>, az: seq<real>, d: nat, k: nat, j: nat, i: nat)
    requires d < 3 && k < |az| && j < |ay| && i < |ax|
    ensures HasShape(Component(Mesh(ax, ay, az), d), |az|, |ay|, |ax|)
    ensures Component(Mesh(ax, ay, az), d)[k][j][i] == Triple(ax[i], ay[j], az[k]).At(d)
  {
    MeshAt(ax, ay, az, k, j, i);
  }

  /** Around mesh point (k+1, j+1, i+1), component `d` takes its two neighbouring axis values four times each. */
  lemma MeshCornerSum(ax: seq<real>, ay: seq<real>, az: seq<real>, d: nat, k: nat, j: nat, i: nat)
    requires d < 3 && k + 1 < |az| && j + 1 < |ay| && i + 1 < |ax|
    ensures HasShape(Component(Mesh(ax, ay, az), d), |az|, |ay|, |ax|)
    ensures CornerSum(Component(Mesh(ax, ay, az), d), |az|, |ay|, |ax|, k + 1, j + 1, i + 1) ==
      4.0 * (Triple(ax[i], ay[j], az[k]).At(d) + Triple(ax[i + 1], ay[j + 1], az[k + 1]).At(d))
  {
    MeshComponentAt(ax, ay, az, d, k, j, i);
    MeshComponentAt(ax, ay, az, d, k, j, i + 1);
    MeshComponentAt(ax, ay, az, d, k, j + 1, i);
    MeshComponentAt(ax, ay, az, d, k, j + 1, i + 1);
    MeshComponentAt(ax, ay, az, d, k + 1, j, i);
    MeshComponentAt(ax, ay, az, d, k + 1, j, i + 1);
    MeshComponentAt(ax, ay, az, d, k + 1, j + 1, i);
    MeshComponentAt(ax, ay, az, d, k + 1, j + 1, i + 1);
  }

  /** Midpoints of consecutive entries of `n` are the entries of `c`. */
  ghost predicate Midpoints(n: seq<real>, c: seq<real>)
  {
    |n| == |c| + 1 && forall t :: 0 <= t < |c| ==> (n[t] + n[t + 1]) * 0.5 == c[t]
  }

  /**
   * On a mesh whose axes are the midpoints of another's, the corrected
   * `node_2_cell` of the coarse mesh's component `d` is the fine mesh's.
   */
  lemma MidpointMesh(nx: seq<real>, ny: seq<real>, nz: seq<real>, cx: seq<real>, cy: seq<real>,
                     cz: seq<real>, d: nat, k: nat, j: nat, i: nat)
    requires Midpoints(nx, cx) && Midpoints(ny, cy) && Midpoints(nz, cz)
    requires d < 3 && k < |cz| && j < |cy| && i < |cx|
    ensures var n := Component(Mesh(nx, ny, nz), d);
      HasShape(n, |nz|, |ny|, |nx|) &&
      Node2CellCentred(n, |nz|, |ny|, |nx|)[k][j][i] == Mesh(cx, cy, cz)[k][j][i].At(d)
  {
    var n := Component(Mesh(nx, ny, nz), d);
    MeshCornerSum(nx, ny, nz, d, k, j, i);
    Node2CellCentredAt(n, |nz|, |ny|, |nx|, k, j, i);
    MeshAt(cx, cy, cz, k, j, i);
  }

  /** Field form of `MidpointMesh`. */
  lemma MidpointMeshField(nx: seq<real>, ny: seq<real>, nz: seq<real>, cx: seq<real>, cy: seq<real>,
                          cz: seq<real>, d: nat)
    requires Midpoints(nx, cx) && Midpoints(ny, cy) && Midpoints(nz, cz) && d < 3
    requires |cx| >= 1 && |cy| >= 1 && |cz| >= 1
    ensures var n := Component(Mesh(nx, ny, nz), d);
      HasShape(n, |nz|, |ny|, |nx|) &&
      Node2CellCentred(n, |nz|, |ny|, |nx|) == Component(Mesh(cx, cy, cz), d)
  {
    var n := Component(Mesh(nx, ny, nz), d);
    var a, b := Node2CellCentred(n, |nz|, |ny|, |nx|), Component(Mesh(cx, cy, cz), d);
    assert HasShape(b, |cz|, |cy|, |cx|);
    forall k, j, i | 0 <= k < |cz| && 0 <= j < |cy| && 0 <= i < |cx| ensures a[k][j][i] == b[k][j][i] {
      MidpointMesh(nx, ny, nz, cx, cy, cz, d, k, j, i);
    }
    forall k, j | 0 <= k < |cz| && 0 <= j < |cy| ensures a[k][j] == b[k][j] { }
    forall k | 0 <= k < |cz| ensures a[k] == b[k] { }
  }

  /**
   * Dropping the first layer instead, the interpolated node positions are
   * exactly the cell centres, component by component, for every grid.
   */
  lemma Node2CellCentredCoords(grid: Triple<nat>, size: Vec, origin: Vec, d: nat)
    requires Positive(grid) && d < 3
    ensures var n := Component(NodeCoord0(grid, size, origin), d);
      HasShape(n, grid.z + 1, grid.y + 1, grid.x + 1) &&
      Node2CellCentred(n, grid.z + 1, grid.y + 1, grid.x + 1) == Component(CellCoord0(grid, size, origin), d)
  {
    var nx, ny, nz := NodeAxis(origin.x, size.x, grid.x), NodeAxis(origin.y, size.y, grid.y),
                      NodeAxis(origin.z, size.z, grid.z);
    var cx, cy, cz := CellAxis(origin.x, size.x, grid.x), CellAxis(origin.y, size.y, grid.y),
                      CellAxis(origin.z, size.z, grid.z);
    assert NodeCoord0(grid, size, origin) == Mesh(nx, ny, nz);
    assert CellCoord0(grid, size, origin) == Mesh(cx, cy, cz);
    assert Midpoints(nx, cx) && Midpoints(ny, cy) && Midpoints(nz, cz) by {
      AxisMidpoints(origin.x, size.x, grid.x);
      AxisMidpoints(origin.y, size.y, grid.y);
      AxisMidpoints(origin.z, size.z, grid.z);
    }
    MidpointMeshField(nx, ny, nz, cx, cy, cz, d);
  }

  /** The cell axis is the midpoints of the node axis. */
  lemma AxisMidpoints(o: real, s: real, g: nat)
    requires g >= 1
    ensures Midpoints(NodeAxis(o, s, g), CellAxis(o, s, g))
  {
    forall t | 0 <= t < g
      ensures (NodeAxis(o, s, g)[t] + NodeAxis(o, s, g)[t + 1]) * 0.5 == CellAxis(o, s, g)[t]
    {
      NodeMidpoint(o, s, g, t);
    }
  }

  /** Around mesh point (0, 0, 0), the periodic corners are the first and the last point of each axis. */
  lemma MeshWrapCornerSum(ax: seq<real>, ay: seq<real>, az: seq<real>, d: nat)
    requires d < 3 && |az| >= 1 && |ay| >= 1 && |ax| >= 1
    ensures HasShape(Component(Mesh(ax, ay, az), d), |az|, |ay|, |ax|)
    ensures CornerSum(Component(Mesh(ax, ay, az), d), |az|, |ay|, |ax|, 0, 0, 0) ==
      4.0 * (Triple(ax[0], ay[0], az[0]).At(d) + Triple(ax[|ax| - 1], ay[|ay| - 1], az[|az| - 1]).At(d))
  {
    var K, J, I := |az| - 1, |ay| - 1, |ax| - 1;
    MeshComponentAt(ax, ay, az, d, 0, 0, 0);
    MeshComponentAt(ax, ay, az, d, 0, 0, I);
    MeshComponentAt(ax, ay, az, d, 0, J, 0);
    MeshComponentAt(ax, ay, az, d, 0, J, I);
    MeshComponentAt(ax, ay, az, d, K, 0, 0);
    MeshComponentAt(ax, ay, az, d, K, 0, I);
    MeshComponentAt(ax, ay, az, d, K, J, 0);
    MeshComponentAt(ax, ay, az, d, K, J, I);
  }

  /** Cell 0 of `node_2_cell` as written averages the first and the last point of each axis. */
  lemma WrapAverage(ax: seq<real>, ay: seq<real>, az: seq<real>, d: nat)
    requires d < 3 && |az| >= 2 && |ay| >= 2 && |ax| >= 2
    ensures var n := Component(Mesh(ax, ay, az), d);
      HasShape(n, |az|, |ay|, |ax|) &&
      Node2Cell(n, |az|, |ay|, |ax|)[0][0][0] ==
        (Triple(ax[0], ay[0], az[0]).At(d) + Triple(ax[|ax| - 1], ay[|ay| - 1], az[|az| - 1]).At(d)) * 0.5
  {
    MeshWrapCornerSum(ax, ay, az, d);
    Node2CellAt(Component(Mesh(ax, ay, az), d), |az|, |ay|, |ax|, 0, 0, 0);
  }

  /**
   * Finding: as written, `node_2_cell` of the node positions puts the
   * midpoint of the whole box in cell 0 along x, the average of the first
   * node and of the last one that wraps around onto it, while cell 0 is
   * centred half a cell width from the origin (two cells of unit width:
   * 0.5 instead of 0.25).
   */
  lemma Node2CellShifted(grid: Triple<nat>, size: Vec, origin: Vec)
    requires Positive(grid) && grid.x >= 2 && size.x > 0.0
    ensures var n := Component(NodeCoord0(grid, size, origin), 0);
      HasShape(n, grid.z + 1, grid.y + 1, grid.x + 1) &&
      HasShape(CellCoord0(grid, size, origin), grid.z, grid.y, grid.x) &&
      Node2Cell(n, grid.z + 1, grid.y + 1, grid.x + 1)[0][0][0] == origin.x + size.x * 0.5 &&
      CellCoord0(grid, size, origin)[0][0][0].x < origin.x + size.x * 0.5
  {
    var nx, ny, nz := NodeAxis(origin.x, size.x, grid.x), NodeAxis(origin.y, size.y, grid.y),
                      NodeAxis(origin.z, size.z, grid.z);
    var cx, cy, cz := CellAxis(origin.x, size.x, grid.x), CellAxis(origin.y, size.y, grid.y),
                      CellAxis(origin.z, size.z, grid.z);
    FirstCentreBelowMiddle(origin.x, size.x, grid.x);
    assert NodeCoord0(grid, size, origin) == Mesh(nx, ny, nz);
    assert |nx| == grid.x + 1 && |ny| == grid.y + 1 && |nz| == grid.z + 1;
    WrapAverage(nx, ny, nz, 0);
    var first, last := Triple(nx[0], ny[0], nz[0]), Triple(nx[grid.x], ny[grid.y], nz[grid.z]);
    assert first.At(0) == nx[0] && last.At(0) == nx[grid.x];
    MeshAt(cx, cy, cz, 0, 0, 0);
  }

  /** Node axis ends at origin and origin + size; the first centre lies below the middle of the box. */
  lemma FirstCentreBelowMiddle(o: real, s: real, g: nat)
    requires g >= 2 && s > 0.0
    ensures |NodeAxis(o, s, g)| == g + 1 && |CellAxis(o, s, g)| == g
    ensures (NodeAxis(o, s, g)[0] + NodeAxis(o, s, g)[g]) * 0.5 == o + s * 0.5
    ensures CellAxis(o, s, g)[0] < o + s * 0.5
  {
    LinspaceShape(o, s + o, g + 1);
    CellAxisAt(o, s, g, 0);
    var w := s / g as real;
    assert w * (g as real) == s by { DivMulCancel(s, g as real); }
    assert w > 0.0;
    assert w * 2.0 <= w * (g as real);
  }
}
