/**
 * Recovering the grid "DNA" (cell counts, physical size, origin) from a list
 * of undeformed cell-centre or node positions, with the checks that reject
 * inconsistent input (`cell_coord0_2_DNA`, `node_coord0_2_DNA`,
 * `coord0_check` in grid_filters.py). Tolerant comparisons are exact here.
 */
module GridDna {
  import opened Wrappers
  import opened Triples
  import opened Lattice
  import opened Distinct

  datatype Dna = Dna(grid: Triple<nat>, size: Vec, origin: Vec)

  datatype DnaError =
    | EmptyData        // `min` of an empty coordinate list
    | CountMismatch    // point count differs from the grid's
    | IrregularSpacing // "Regular grid spacing violated."
    | NotRegularGrid   // ordered input differs from the ideal lattice

  /** Component `d` of every point. */
  function Column(pts: seq<Vec>, d: nat): (c: seq<real>)
    requires d < 3
    ensures |c| == |pts|
  {
    seq(|pts|, p requires 0 <= p < |pts| => pts[p].At(d))
  }

  /** The distinct values of component `d`, increasing (`np.unique(coord0[:,d])`). */
  function Coords(pts: seq<Vec>, d: nat): (u: seq<real>)
    requires d < 3
    ensures Increasing(u, RealLess)
    ensures forall y :: y in u <==> y in Column(pts, d)
    ensures |pts| > 0 ==> |u| > 0
  {
    RealLessOrder();
    var u := Unique(Column(pts, d), RealLess);
    assert |pts| > 0 ==> Column(pts, d)[0] in u;
    u
  }

  /**
   * The regularity test of the source, `not A and B and C`: Python reads
   * it as `(not A) and B and C`, so it fires only when axis x is irregular
   * and axes y and z are regular.
   */
  function SpacingViolatedAsWritten(rx: bool, ry: bool, rz: bool): bool
  {
    !rx && ry && rz
  }

  /** The regularity test as evidently intended: some axis is irregular. */
  function SpacingViolated(rx: bool, ry: bool, rz: bool): bool
  {
    !(rx && ry && rz)
  }

  /** `np.maximum(g - 1, 1)` for a count `g`. */
  function IntervalCount(g: nat): nat
  {
    if g >= 2 then g - 1 else 1
  }

  /** Lines 199-202 along one axis: count, size and origin from the distinct centres. */
  function CellAxisDna(u: seq<real>): (nat, real, real)
    requires |u| >= 1
  {
    var g := |u|;
    var size := (g as real) / (IntervalCount(g) as real) * (u[g - 1] - u[0]);
    var delta := size / g as real;
    (g, size, u[0] - delta * 0.5)
  }

  /** Lines 345-347 along one axis: count, size and origin from the distinct nodes. */
  function NodeAxisDna(u: seq<real>): (nat, real, real)
    requires |u| >= 1
  {
    (|u| - 1, u[|u| - 1] - u[0], u[0])
  }

  /**
   * Whether the distinct centres of one axis are the evenly spaced ones of
   * lines 207-212: `linspace(origin + delta/2, origin - delta/2 + size, g)`
   * is the cell axis of `g` cells spanning `size` from `origin`.
   */
  function CellAxisRegular(u: seq<real>, g: nat, size: real, origin: real): bool
    requires g >= 1
  {
    u == CellAxis(origin, size, g)
  }

  /** Whether the distinct nodes of one axis are `linspace(min, max, count)` (lines 352-354). */
  function NodeAxisRegular(u: seq<real>): bool
    requires |u| >= 1
  {
    u == Linspace(u[0], u[|u| - 1], |u|)
  }

  /** A regular node axis is the node axis of its own DNA. */
  lemma NodeAxisRegularIsAxis(u: seq<real>)
    requires |u| >= 1 && NodeAxisRegular(u)
    ensures u == NodeAxis(u[0], u[|u| - 1] - u[0], |u| - 1)
  {
    assert u[|u| - 1] - u[0] + u[0] == u[|u| - 1];
  }

  /**
   * `cell_coord0_2_DNA` with a choice of regularity test: the source's is
   * `SpacingViolatedAsWritten`.
   */
  function CellDnaWith(coord0: seq<Vec>, ordered: bool, violated: (bool, bool, bool) -> bool)
    : (r: Result<Dna, DnaError>)
    ensures r.Ok? ==> Positive(r.value.grid) && Product(r.value.grid) == |coord0|
    ensures r.Ok? && ordered ==>
      coord0 == Flatten(CellCoord0(r.value.grid, r.value.size, r.value.origin))
  {
    if |coord0| == 0 then Err(EmptyData)
    else
      var ux, uy, uz := Coords(coord0, 0), Coords(coord0, 1), Coords(coord0, 2);
      var ax, ay, az := CellAxisDna(ux), CellAxisDna(uy), CellAxisDna(uz);
      var grid := Triple(ax.0, ay.0, az.0);
      var size := Triple(ax.1, ay.1, az.1);
      var origin := Triple(ax.2, ay.2, az.2);
      if Product(grid) != |coord0| then Err(CountMismatch)
      else if violated(CellAxisRegular(ux, grid.x, size.x, origin.x),
                       CellAxisRegular(uy, grid.y, size.y, origin.y),
                       CellAxisRegular(uz, grid.z, size.z, origin.z)) then Err(IrregularSpacing)
      else if ordered && coord0 != Flatten(CellCoord0(grid, size, origin)) then Err(NotRegularGrid)
      else Ok(Dna(grid, size, origin))
  }

  /** `cell_coord0_2_DNA` as written. */
  function CellCoord0ToDna(coord0: seq<Vec>, ordered: bool): (r: Result<Dna, DnaError>)
    ensures r.Ok? ==> Positive(r.value.grid) && Product(r.value.grid) == |coord0|
    ensures r.Ok? && ordered ==>
      coord0 == Flatten(CellCoord0(r.value.grid, r.value.size, r.value.origin))
  {
    CellDnaWith(coord0, ordered, SpacingViolatedAsWritten)
  }

  /** `node_coord0_2_DNA` with a choice of regularity test. */
  function NodeDnaWith(coord0: seq<Vec>, ordered: bool, violated: (bool, bool, bool) -> bool)
    : (r: Result<Dna, DnaError>)
    ensures r.Ok? ==>
      (r.value.grid.x + 1) * (r.value.grid.y + 1) * (r.value.grid.z + 1) == |coord0|
    ensures r.Ok? && ordered ==>
      coord0 == Flatten(NodeCoord0(r.value.grid, r.value.size, r.value.origin))
  {
    if |coord0| == 0 then Err(EmptyData)
    else
      var ux, uy, uz := Coords(coord0, 0), Coords(coord0, 1), Coords(coord0, 2);
      var ax, ay, az := NodeAxisDna(ux), NodeAxisDna(uy), NodeAxisDna(uz);
      var grid := Triple(ax.0, ay.0, az.0);
      var size := Triple(ax.1, ay.1, az.1);
      var origin := Triple(ax.2, ay.2, az.2);
      if (grid.x + 1) * (grid.y + 1) * (grid.z + 1) != |coord0| then Err(CountMismatch)
      else if violated(NodeAxisRegular(ux), NodeAxisRegular(uy), NodeAxisRegular(uz)) then
        Err(IrregularSpacing)
      else if ordered && coord0 != Flatten(NodeCoord0(grid, size, origin)) then Err(NotRegularGrid)
      else Ok(Dna(grid, size, origin))
  }

  /** `node_coord0_2_DNA` as written. */
  function NodeCoord0ToDna(coord0: seq<Vec>, ordered: bool): (r: Result<Dna, DnaError>)
    ensures r.Ok? ==>
      (r.value.grid.x + 1) * (r.value.grid.y + 1) * (r.value.grid.z + 1) == |coord0|
    ensures r.Ok? && ordered ==>
      coord0 == Flatten(NodeCoord0(r.value.grid, r.value.size, r.value.origin))
  {
    NodeDnaWith(coord0, ordered, SpacingViolatedAsWritten)
  }

  /** `cell_coord0_2_DNA` with the regularity test evidently intended. */
  function CellCoord0ToDnaChecked(coord0: seq<Vec>, ordered: bool): (r: Result<Dna, DnaError>)
    ensures r.Ok? ==> Positive(r.value.grid) && Product(r.value.grid) == |coord0|
    ensures r.Ok? ==>
      Coords(coord0, 0) == CellAxis(r.value.origin.x, r.value.size.x, r.value.grid.x) &&
      Coords(coord0, 1) == CellAxis(r.value.origin.y, r.value.size.y, r.value.grid.y) &&
      Coords(coord0, 2) == CellAxis(r.value.origin.z, r.value.size.z, r.value.grid.z)
  {
    CellDnaWith(coord0, ordered, SpacingViolated)
  }

  /** `node_coord0_2_DNA` with the regularity test evidently intended. */
  function NodeCoord0ToDnaChecked(coord0: seq<Vec>, ordered: bool): (r: Result<Dna, DnaError>)
    ensures r.Ok? ==>
      (r.value.grid.x + 1) * (r.value.grid.y + 1) * (r.value.grid.z + 1) == |coord0|
    ensures r.Ok? ==>
      Coords(coord0, 0) == NodeAxis(r.value.origin.x, r.value.size.x, r.value.grid.x) &&
      Coords(coord0, 1) == NodeAxis(r.value.origin.y, r.value.size.y, r.value.grid.y) &&
      Coords(coord0, 2) == NodeAxis(r.value.origin.z, r.value.size.z, r.value.grid.z)
  {
    var r := NodeDnaWith(coord0, ordered, SpacingViolated);
    if r.Ok? then
      NodeAxisRegularIsAxis(Coords(coord0, 0));
      NodeAxisRegularIsAxis(Coords(coord0, 1));
      NodeAxisRegularIsAxis(Coords(coord0, 2));
      r
    else r
  }

  /** `coord0_check`: whether the points are the ordered centres of some regular grid. */
  function Coord0Check(coord0: seq<Vec>): (ok: bool)
    ensures ok ==> exists g, s, o :: Positive(g) && coord0 == Flatten(CellCoord0(g, s, o))
  {
    var r := CellCoord0ToDna(coord0, true);
    if r.Ok? then
      assert coord0 == Flatten(CellCoord0(r.value.grid, r.value.size, r.value.origin));
      true
    else false
  }

  /** Every point of a flattened mesh has its components on the axes. */
  lemma MeshPointOnAxes(ax: seq<real>, ay: seq<real>, az: seq<real>, p: nat)
    requires p < |Flatten(Mesh(ax, ay, az))|
    ensures var q := Flatten(Mesh(ax, ay, az))[p]; q.x in ax && q.y in ay && q.z in az
  {
    var f := Mesh(ax, ay, az);
    var q := Flatten(f)[p];
    FlattenMember(f, |az|, |ay|, |ax|, q);
    var k, j, i :| 0 <= k < |az| && 0 <= j < |ay| && 0 <= i < |ax| && f[k][j][i] == q;
    MeshAt(ax, ay, az, k, j, i);
  }

  /** The distinct values of component `d` of a flattened mesh are those of axis `d`. */
  lemma MeshColumn(ax: seq<real>, ay: seq<real>, az: seq<real>, d: nat)
    requires |ax| >= 1 && |ay| >= 1 && |az| >= 1 && d < 3
    ensures forall y :: y in Column(Flatten(Mesh(ax, ay, az)), d) <==> y in Triple(ax, ay, az).At(d)
  {
    var f := Mesh(ax, ay, az);
    var pts := Flatten(f);
    var axes := Triple(ax, ay, az);
    var K, J, I := |az|, |ay|, |ax|;
    forall y | y in Column(pts, d) ensures y in axes.At(d) {
      var p :| 0 <= p < |pts| && Column(pts, d)[p] == y;
      MeshPointOnAxes(ax, ay, az, p);
    }
    forall y | y in axes.At(d) ensures y in Column(pts, d) {
      var t :| 0 <= t < |axes.At(d)| && axes.At(d)[t] == y;
      var k, j, i := if d == 2 then t else 0, if d == 1 then t else 0, if d == 0 then t else 0;
      FlattenAt(f, K, J, I, k, j, i);
      MeshAt(ax, ay, az, k, j, i);
      assert Column(pts, d)[FlatIndex(J, I, k, j, i)] == y;
    }
  }

  /** Of a flattened mesh with increasing axes, `np.unique` of each column gives the axis back. */
  lemma MeshCoords(ax: seq<real>, ay: seq<real>, az: seq<real>)
    requires |ax| >= 1 && |ay| >= 1 && |az| >= 1
    requires Increasing(ax, RealLess) && Increasing(ay, RealLess) && Increasing(az, RealLess)
    ensures |Flatten(Mesh(ax, ay, az))| == |az| * |ay| * |ax|
    ensures Coords(Flatten(Mesh(ax, ay, az)), 0) == ax
    ensures Coords(Flatten(Mesh(ax, ay, az)), 1) == ay
    ensures Coords(Flatten(Mesh(ax, ay, az)), 2) == az
  {
    var pts := Flatten(Mesh(ax, ay, az));
    FlattenLength(Mesh(ax, ay, az), |az|, |ay|, |ax|);
    MeshColumn(ax, ay, az, 0);
    MeshColumn(ax, ay, az, 1);
    MeshColumn(ax, ay, az, 2);
    RealLessOrder();
    forall y ensures y in Coords(pts, 0) <==> y in ax { }
    forall y ensures y in Coords(pts, 1) <==> y in ay { }
    forall y ensures y in Coords(pts, 2) <==> y in az { }
    IncreasingUnique(Coords(pts, 0), ax, RealLess);
    IncreasingUnique(Coords(pts, 1), ay, RealLess);
    IncreasingUnique(Coords(pts, 2), az, RealLess);
  }

  lemma ProductReversed(g: Triple<nat>)
    ensures g.z * g.y * g.x == Product(g)
  {
    MulAssoc(g.z, g.y, g.x);
    MulAssoc(g.x, g.y, g.z);
  }

  /** Size recovered along a cell axis: exact for two or more cells, zero for one. */
  function RecoveredCellSize(s: real, g: nat): real
  {
    if g >= 2 then s else 0.0
  }

  /** Origin recovered along a cell axis: exact for two or more cells, the centre for one. */
  function RecoveredCellOrigin(o: real, s: real, g: nat): real
  {
    if g >= 2 then o else o + s / 2.0
  }

  lemma CellAxisRecovery(o: real, s: real, g: nat)
    requires g >= 1
    ensures |CellAxis(o, s, g)| == g
    ensures CellAxisDna(CellAxis(o, s, g)) ==
      (g, RecoveredCellSize(s, g), RecoveredCellOrigin(o, s, g))
    ensures CellAxisRegular(CellAxis(o, s, g), g, RecoveredCellSize(s, g), RecoveredCellOrigin(o, s, g))
    ensures CellAxis(RecoveredCellOrigin(o, s, g), RecoveredCellSize(s, g), g) == CellAxis(o, s, g)
  {
    var u := CellAxis(o, s, g);
    var d := s / g as real;
    CellAxisAt(o, s, g, 0);
    CellAxisAt(o, s, g, g - 1);
    if g >= 2 {
      var m := (g - 1) as real;
      assert IntervalCount(g) as real == m;
      assert u[g - 1] - u[0] == m * d;
      assert CellAxisDna(u).1 == s by {
        ExtentFromCentres(s, g);
      }
      assert CellAxisDna(u).2 == u[0] - d * 0.5 == o;
    } else {
      assert u == [o + s * 0.5];
      assert CellAxis(o + s / 2.0, 0.0, 1) == [o + s / 2.0];
    }
  }

  /** g/(g-1) times the distance between the outer centres of g cells spanning s is s. */
  lemma ExtentFromCentres(s: real, g: nat)
    requires g >= 2
    ensures (g as real) / ((g - 1) as real) * (((g - 1) as real) * (s / g as real)) == s
  {
    var m, d := (g - 1) as real, s / g as real;
    DivMulCancel(m * d, m);
    DivMulCancel(s, g as real);
    assert (g as real) / m * (m * d) == (g as real) * (m * d / m);
  }

  lemma NodeAxisRecovery(o: real, s: real, g: nat)
    requires g >= 1
    ensures |NodeAxis(o, s, g)| == g + 1
    ensures NodeAxisDna(NodeAxis(o, s, g)) == (g, s, o)
    ensures NodeAxis(o, s, g) == Linspace(o, s + o, g + 1)
  {
    LinspaceShape(o, s + o, g + 1);
  }

  /**
   * Round trip with `cell_coord0`: the centres of a grid with positive
   * extents give back its counts, and its size and origin on every axis
   * with two or more cells; an axis of one cell comes back with size 0 and
   * origin at the centre. Holds for either regularity test.
   */
  lemma CellDnaRoundTrip(grid: Triple<nat>, size: Vec, origin: Vec, ordered: bool,
                         violated: (bool, bool, bool) -> bool)
    requires Positive(grid) && size.x > 0.0 && size.y > 0.0 && size.z > 0.0
    requires !violated(true, true, true)
    ensures CellDnaWith(Flatten(CellCoord0(grid, size, origin)), ordered, violated) ==
      Ok(Dna(grid,
             Triple(RecoveredCellSize(size.x, grid.x), RecoveredCellSize(size.y, grid.y),
                    RecoveredCellSize(size.z, grid.z)),
             Triple(RecoveredCellOrigin(origin.x, size.x, grid.x),
                    RecoveredCellOrigin(origin.y, size.y, grid.y),
                    RecoveredCellOrigin(origin.z, size.z, grid.z))))
    ensures grid.x >= 2 && grid.y >= 2 && grid.z >= 2 ==>
      CellDnaWith(Flatten(CellCoord0(grid, size, origin)), ordered, violated) ==
        Ok(Dna(grid, size, origin))
  {
    var ax := CellAxis(origin.x, size.x, grid.x);
    var ay := CellAxis(origin.y, size.y, grid.y);
    var az := CellAxis(origin.z, size.z, grid.z);
    CellAxisIncreasing(origin.x, size.x, grid.x);
    CellAxisIncreasing(origin.y, size.y, grid.y);
    CellAxisIncreasing(origin.z, size.z, grid.z);
    CellAxisRecovery(origin.x, size.x, grid.x);
    CellAxisRecovery(origin.y, size.y, grid.y);
    CellAxisRecovery(origin.z, size.z, grid.z);
    MeshCoords(ax, ay, az);
    var pts := Flatten(CellCoord0(grid, size, origin));
    var size' := Triple(RecoveredCellSize(size.x, grid.x), RecoveredCellSize(size.y, grid.y),
                        RecoveredCellSize(size.z, grid.z));
    var origin' := Triple(RecoveredCellOrigin(origin.x, size.x, grid.x),
                          RecoveredCellOrigin(origin.y, size.y, grid.y),
                          RecoveredCellOrigin(origin.z, size.z, grid.z));
    assert Coords(pts, 0) == ax && Coords(pts, 1) == ay && Coords(pts, 2) == az;
    ProductReversed(grid);
    assert |pts| == Product(grid);
    assert CellAxisRegular(Coords(pts, 0), grid.x, size'.x, origin'.x);
    assert CellAxisRegular(Coords(pts, 1), grid.y, size'.y, origin'.y);
    assert CellAxisRegular(Coords(pts, 2), grid.z, size'.z, origin'.z);
    assert CellCoord0(grid, size', origin') == CellCoord0(grid, size, origin);
  }

  /** Round trip with `node_coord0`: the nodes of a grid with positive extents give back its DNA. */
  lemma NodeDnaRoundTrip(grid: Triple<nat>, size: Vec, origin: Vec, ordered: bool,
                         violated: (bool, bool, bool) -> bool)
    requires Positive(grid) && size.x > 0.0 && size.y > 0.0 && size.z > 0.0
    requires !violated(true, true, true)
    ensures NodeDnaWith(Flatten(NodeCoord0(grid, size, origin)), ordered, violated) ==
      Ok(Dna(grid, size, origin))
  {
    var ax := NodeAxis(origin.x, size.x, grid.x);
    var ay := NodeAxis(origin.y, size.y, grid.y);
    var az := NodeAxis(origin.z, size.z, grid.z);
    NodeAxisIncreasing(origin.x, size.x, grid.x);
    NodeAxisIncreasing(origin.y, size.y, grid.y);
    NodeAxisIncreasing(origin.z, size.z, grid.z);
    NodeAxisRecovery(origin.x, size.x, grid.x);
    NodeAxisRecovery(origin.y, size.y, grid.y);
    NodeAxisRecovery(origin.z, size.z, grid.z);
    MeshCoords(ax, ay, az);
    var pts := Flatten(NodeCoord0(grid, size, origin));
    assert Coords(pts, 0) == ax && Coords(pts, 1) == ay && Coords(pts, 2) == az;
    ProductReversed(Triple(grid.x + 1, grid.y + 1, grid.z + 1));
    assert |pts| == (grid.x + 1) * (grid.y + 1) * (grid.z + 1);
  }

  /** `coord0_check` accepts the centres of every grid with positive extents. */
  lemma Coord0CheckAccepts(grid: Triple<nat>, size: Vec, origin: Vec)
    requires Positive(grid) && size.x > 0.0 && size.y > 0.0 && size.z > 0.0
    ensures Coord0Check(Flatten(CellCoord0(grid, size, origin)))
  {
    CellDnaRoundTrip(grid, size, origin, true, SpacingViolatedAsWritten);
  }

  /** The centres of the counterexample below, read back per axis. */
  lemma SpacingCounterexampleCoords()
    ensures var pts := Flatten(Mesh([0.5, 1.5], [0.5, 1.0, 2.5], [0.5]));
      |pts| == 6 && Coords(pts, 0) == [0.5, 1.5] && Coords(pts, 1) == [0.5, 1.0, 2.5] && Coords(pts, 2) == [0.5]
  {
    var ax, ay, az := [0.5, 1.5], [0.5, 1.0, 2.5], [0.5];
    assert Increasing(ax, RealLess) && Increasing(ay, RealLess) && Increasing(az, RealLess);
    MeshCoords(ax, ay, az);
  }

  /** The axes of the counterexample below: x and z are evenly spaced, y is not. */
  lemma SpacingCounterexampleAxes()
    ensures CellAxisDna([0.5, 1.5]) == (2, 2.0, 0.0) && CellAxisRegular([0.5, 1.5], 2, 2.0, 0.0)
    ensures CellAxisDna([0.5, 1.0, 2.5]) == (3, 3.0, 0.0) && !CellAxisRegular([0.5, 1.0, 2.5], 3, 3.0, 0.0)
    ensures CellAxisDna([0.5]) == (1, 0.0, 0.5) && CellAxisRegular([0.5], 1, 0.0, 0.5)
  {
    var ax, ay, az := [0.5, 1.5], [0.5, 1.0, 2.5], [0.5];
    assert CellAxisDna(ax) == (2, 2.0, 0.0);
    assert CellAxisDna(ay) == (3, 3.0, 0.0);
    assert CellAxisDna(az) == (1, 0.0, 0.5);
    assert CellAxis(0.0, 2.0, 2) == ax by {
      assert LinspaceAt(0.5, 1.5, 2, 1) == 1.5;
    }
    assert CellAxis(0.0, 3.0, 3)[1] == 1.5 by {
      assert LinspaceAt(0.5, 2.5, 3, 1) == 1.5;
    }
    assert CellAxis(0.5, 0.0, 1) == az;
  }

  /**
   * Finding: the regularity test of lines 210-213 lets an unevenly spaced
   * y axis through. Centres x in {0.5, 1.5}, y in {0.5, 1.0, 2.5}, z = 0.5
   * are accepted unordered, while the intended test rejects them.
   */
  lemma SpacingParseCounterexample()
    ensures var pts := Flatten(Mesh([0.5, 1.5], [0.5, 1.0, 2.5], [0.5]));
      Coords(pts, 1) == [0.5, 1.0, 2.5] &&
      CellCoord0ToDna(pts, false) == Ok(Dna(Triple(2, 3, 1), Triple(2.0, 3.0, 0.0), Triple(0.0, 0.0, 0.5))) &&
      CellCoord0ToDnaChecked(pts, false) == Err(IrregularSpacing)
  {
    SpacingCounterexampleCoords();
    SpacingCounterexampleAxes();
  }

  /** Every component value of a lattice with at least two cells along x and y occurs at two points. */
  lemma LatticeValuesRepeat(ax: seq<real>, ay: seq<real>, az: seq<real>, d: nat, p: nat)
    requires |ax| >= 2 && |ay| >= 2 && |az| >= 1 && d < 3
    requires Increasing(ax, RealLess) && Increasing(ay, RealLess)
    requires p < |Flatten(Mesh(ax, ay, az))|
    ensures var pts := Flatten(Mesh(ax, ay, az));
      exists p' :: 0 <= p' < |pts| && p' != p && pts[p'].At(d) == pts[p].At(d)
  {
    var f: Field3<Vec> := Mesh(ax, ay, az);
    var pts: seq<Vec> := Flatten(f);
    var K, J, I := |az|, |ay|, |ax|;
    FlattenMember(f, K, J, I, pts[p]);
    var k, j, i :| 0 <= k < K && 0 <= j < J && 0 <= i < I && f[k][j][i] == pts[p];
    var j', i' := j, i;
    if d == 0 {
      j' := if j == 0 then 1 else 0;
    } else {
      i' := if i == 0 then 1 else 0;
    }
    FlattenAt(f, K, J, I, k, j, i);
    FlattenAt(f, K, J, I, k, j', i');
    MeshAt(ax, ay, az, k, j, i);
    MeshAt(ax, ay, az, k, j', i');
    var p1, p2 := FlatIndex(J, I, k, j, i), FlatIndex(J, I, k, j', i');
    assert pts[p1] != pts[p2] by {
      if d == 0 {
        assert RealLess(ay[0], ay[1]);
      } else {
        assert RealLess(ax[0], ax[1]);
      }
    }
    assert pts[p1].At(d) == pts[p2].At(d) == pts[p].At(d);
    if p1 != p {
      assert pts[p1].At(d) == pts[p].At(d);
    } else {
      assert p2 != p;
    }
  }

  /** Component `d` of point `p` occurs at another point too. */
  ghost predicate ValueRecurs(pts: seq<Vec>, d: nat, p: nat)
    requires d < 3 && p < |pts|
  {
    exists p' :: 0 <= p' < |pts| && p' != p && pts[p'].At(d) == pts[p].At(d)
  }

  /** Dropping a point whose value recurs elsewhere keeps the distinct values of a column. */
  lemma DropKeepsCoords(pts: seq<Vec>, q: nat, d: nat)
    requires q < |pts| && d < 3
    requires forall p :: 0 <= p < |pts| ==> ValueRecurs(pts, d, p)
    ensures Coords(pts[..q] + pts[q + 1..], d) == Coords(pts, d)
  {
    var rest := pts[..q] + pts[q + 1..];
    forall r | 0 <= r < |rest| ensures Column(rest, d)[r] in Column(pts, d) {
      var p := if r < q then r else r + 1;
      assert rest[r] == pts[p];
      assert Column(pts, d)[p] == Column(rest, d)[r];
    }
    forall p | 0 <= p < |pts| ensures Column(pts, d)[p] in Column(rest, d) {
      assert ValueRecurs(pts, d, p);
      var p' :| 0 <= p' < |pts| && p' != p && pts[p'].At(d) == pts[p].At(d);
      var kept := if p != q then p else p';
      var r := if kept < q then kept else kept - 1;
      assert rest[r] == pts[kept];
      assert Column(rest, d)[r] == Column(pts, d)[p];
    }
    forall y ensures y in Column(rest, d) <==> y in Column(pts, d) {
      if y in Column(rest, d) {
        var r :| 0 <= r < |rest| && Column(rest, d)[r] == y;
      }
      if y in Column(pts, d) {
        var p :| 0 <= p < |pts| && Column(pts, d)[p] == y;
      }
    }
    RealLessOrder();
    IncreasingUnique(Coords(rest, d), Coords(pts, d), RealLess);
  }

  /**
   * A lattice with one point missing is rejected by the count test rather
   * than read as a smaller grid (line 204-205).
   */
  lemma MissingPointRejected(grid: Triple<nat>, size: Vec, origin: Vec, q: nat, ordered: bool,
                             violated: (bool, bool, bool) -> bool)
    requires Positive(grid) && grid.x >= 2 && grid.y >= 2
    requires size.x > 0.0 && size.y > 0.0 && size.z > 0.0
    requires q < Product(grid)
    ensures var pts := Flatten(CellCoord0(grid, size, origin));
      q < |pts| && CellDnaWith(pts[..q] + pts[q + 1..], ordered, violated) == Err(CountMismatch)
  {
    var ax := CellAxis(origin.x, size.x, grid.x);
    var ay := CellAxis(origin.y, size.y, grid.y);
    var az := CellAxis(origin.z, size.z, grid.z);
    CellAxisIncreasing(origin.x, size.x, grid.x);
    CellAxisIncreasing(origin.y, size.y, grid.y);
    CellAxisIncreasing(origin.z, size.z, grid.z);
    MeshCoords(ax, ay, az);
    ProductReversed(grid);
    var pts := Flatten(CellCoord0(grid, size, origin));
    var rest := pts[..q] + pts[q + 1..];
    forall d | 0 <= d < 3 ensures Coords(rest, d) == Coords(pts, d) {
      forall p | 0 <= p < |pts| ensures ValueRecurs(pts, d, p) {
        LatticeValuesRepeat(ax, ay, az, d, p);
      }
      DropKeepsCoords(pts, q, d);
    }
    assert Coords(rest, 0) == ax && Coords(rest, 1) == ay && Coords(rest, 2) == az;
    assert |rest| == Product(grid) - 1;
  }
}
