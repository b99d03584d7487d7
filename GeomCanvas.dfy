/**
 * spectral_geomCanvas: read the microstructure indices of a spectral
 * geometry in file order, cut a new box out of the grid (shifted by an
 * offset, padded with a background index), rewrite the header for the new
 * box and write the grid back row by row.
 */
module GeomCanvas {
  import opened Wrappers
  import opened Triples
  import opened Lattice

  datatype CanvasError =
    | NoResolution        // lines 116-118: the header gave no resolution
    | NoDimension         // lines 119-121: the header gave no dimension
    | TooManyValues       // line 146-148: the z index of the next value is off the grid
    | EmptyWindow         // line 159: an axis of the new box misses the old grid entirely
    | ZeroResolution      // lines 133-139: a zero component of the old resolution is a divisor
    | NoPositiveIndex     // line 160: `log10` of a largest old index that is not positive

  /** The header entries the script reads and rewrites. */
  datatype Header = Header(resolution: Triple<int>, dimension: Vec, origin: Vec, homogenization: int)

  // ---------------------------------------------------------------- reading

  /** The cell (x, y, z) the i-th value of the file goes to: x runs fastest, then y, then z. */
  function Decode(res: Triple<nat>, i: nat): (p: Triple<nat>)
    requires Positive(res)
    ensures p.x < res.x && p.y < res.y
    ensures Encode(res, p) == i
  {
    var m := i / res.x;
    assert i == m * res.x + i % res.x;
    assert m == (m / res.y) * res.y + m % res.y;
    Triple(i % res.x, m % res.y, m / res.y)
  }

  /** The position in file order of cell p. */
  function Encode(res: Triple<nat>, p: Triple<nat>): nat
  {
    FlatIndex(res.y, res.x, p.z, p.y, p.x)
  }

  predicate InGrid(res: Triple<nat>, p: Triple<nat>)
  {
    p.x < res.x && p.y < res.y && p.z < res.z
  }

  /** Euclidean division of a natural number is unique. */
  lemma DivModUnique(i: nat, a: nat, q: nat, r: nat)
    requires a >= 1 && r < a && i == q * a + r
    ensures i / a == q && i % a == r
  {
    var q', r' := i / a, i % a;
    assert i == q' * a + r';
    if q' < q {
      MulMono(q' + 1, q, a);
      assert false;
    } else if q < q' {
      MulMono(q + 1, q', a);
      assert false;
    }
  }

  /** The z index is on the grid exactly for the first Product(res) values. */
  lemma {:induction false} DecodeInGrid(res: Triple<nat>, i: nat)
    requires Positive(res)
    ensures InGrid(res, Decode(res, i)) <==> i < Product(res)
  {
    var m := i / res.x;
    DivLess(i, res.x, res.z * res.y);
    DivLess(m, res.y, res.z);
    ProductOrder(res);
  }

  /** A quotient is below n exactly when the dividend is below n times the divisor. */
  lemma DivLess(i: nat, a: nat, n: nat)
    requires a >= 1
    ensures i / a < n <==> i < n * a
  {
    var q := i / a;
    assert i == q * a + i % a;
    if q < n {
      MulMono(q + 1, n, a);
    } else {
      MulMono(n, q, a);
    }
  }

  /** Encoding a cell of the grid then decoding gives the cell back. */
  lemma DecodeEncode(res: Triple<nat>, p: Triple<nat>)
    requires Positive(res) && InGrid(res, p)
    ensures Encode(res, p) < Product(res)
    ensures Decode(res, Encode(res, p)) == p
  {
    FlatIndexBounds(res.z, res.y, res.x, p.z, p.y, p.x);
    assert res.z * res.y * res.x == Product(res);
    var m := p.z * res.y + p.y;
    DivModUnique(Encode(res, p), res.x, m, p.x);
    DivModUnique(m, res.y, p.z, p.y);
  }

  /** Writing the i-th value fills exactly one more cell, the one at Decode(res, i). */
  lemma ReadStep(res: Triple<nat>, i: nat, q: Triple<nat>)
    requires Positive(res) && InGrid(res, q)
    ensures Encode(res, q) == i <==> q == Decode(res, i)
  {
    if Encode(res, q) == i {
      DecodeEncode(res, q);
    }
  }

  /** The value the file gives cell p; cells past the end of the file keep zero. */
  function CellValue(items: seq<int>, res: Triple<nat>, p: Triple<nat>): int
  {
    if Encode(res, p) < |items| then items[Encode(res, p)] else 0
  }

  function Shape(g: array3<int>): Triple<nat>
  {
    Triple(g.Length0, g.Length1, g.Length2)
  }

  /** Lines 142-149: the values of the file written into a zeroed grid, one by one in file order. */
  method Read(items: seq<int>, res: Triple<nat>) returns (r: Result<array3<int>, CanvasError>)
    requires Positive(res)
    ensures r.Err? <==> |items| > Product(res)
    ensures r.Err? ==> r.error == TooManyValues
    ensures r.Ok? ==> fresh(r.value) && Shape(r.value) == res
    ensures r.Ok? ==> forall x, y, z :: 0 <= x < res.x && 0 <= y < res.y && 0 <= z < res.z ==>
      r.value[x, y, z] == CellValue(items, res, Triple(x, y, z))
  {
    if |items| > Product(res) {
      // the first value past the grid has a z index off the grid (an IndexError)
      DecodeInGrid(res, Product(res));
      return Err(TooManyValues);
    }
    var m := new int[res.x, res.y, res.z]((x, y, z) => 0);
    for i := 0 to |items|
      invariant forall x, y, z :: 0 <= x < res.x && 0 <= y < res.y && 0 <= z < res.z ==>
        m[x, y, z] == if Encode(res, Triple(x, y, z)) < i then items[Encode(res, Triple(x, y, z))] else 0
    {
      var p := Decode(res, i);
      DecodeInGrid(res, i);
      m[p.x, p.y, p.z] := items[i];
      forall x, y, z | 0 <= x < res.x && 0 <= y < res.y && 0 <= z < res.z
        ensures m[x, y, z] == if Encode(res, Triple(x, y, z)) < i + 1 then items[Encode(res, Triple(x, y, z))] else 0
      {
        ReadStep(res, i, Triple(x, y, z));
      }
    }
    r := Ok(m);
  }

  // ---------------------------------------------------------------- background

  /** The cells of a grid in file order. */
  function Cells(g: array3<int>): (s: seq<int>)
    reads g
    ensures |s| == Product(Shape(g))
  {
    var res := Shape(g);
    if !Positive(res) then []
    else
      seq(Product(res), i requires 0 <= i < Product(res) reads g =>
        DecodeInGrid(res, i);
        g[Decode(res, i).x, Decode(res, i).y, Decode(res, i).z])
  }

  /** Largest entry of a non-empty list. */
  function MaxOf(s: seq<int>): (m: int)
    requires |s| >= 1
    ensures forall i :: 0 <= i < |s| ==> s[i] <= m
    ensures exists i :: 0 <= i < |s| && s[i] == m
  {
    if |s| == 1 then s[0]
    else
      var rest := MaxOf(s[1..]);
      assert forall i :: 1 <= i < |s| ==> s[i] == s[1..][i - 1];
      if s[0] >= rest then s[0] else rest
  }

  /** Line 152: the background index, `fill` when positive, otherwise one past the largest old index. */
  function Background(g: array3<int>, fill: int): (b: int)
    reads g
    requires Positive(Shape(g))
    ensures fill > 0 ==> b == fill
    ensures fill <= 0 ==> forall t :: 0 <= t < |Cells(g)| ==> Cells(g)[t] < b
  {
    if fill > 0 then fill else MaxOf(Cells(g)) + 1
  }

  /** Without a positive fill the background is an index no old cell carries. */
  lemma BackgroundIsNew(g: array3<int>, fill: int, x: nat, y: nat, z: nat)
    requires Positive(Shape(g)) && fill <= 0
    requires x < g.Length0 && y < g.Length1 && z < g.Length2
    ensures g[x, y, z] < Background(g, fill)
  {
    var res := Shape(g);
    DecodeEncode(res, Triple(x, y, z));
    var i := Encode(res, Triple(x, y, z));
    assert Cells(g)[i] == g[x, y, z];
  }

  /** The largest old index is carried by some cell, so the background is exactly one past it. */
  lemma BackgroundIsNext(g: array3<int>, fill: int)
    requires Positive(Shape(g)) && fill <= 0
    ensures exists x, y, z ::
      0 <= x < g.Length0 && 0 <= y < g.Length1 && 0 <= z < g.Length2 && g[x, y, z] + 1 == Background(g, fill)
  {
    var res := Shape(g);
    var s := Cells(g);
    var i :| 0 <= i < |s| && s[i] == MaxOf(s);
    DecodeInGrid(res, i);
    var p := Decode(res, i);
    assert s[i] == g[p.x, p.y, p.z];
    assert 0 <= p.x < g.Length0 && 0 <= p.y < g.Length1 && 0 <= p.z < g.Length2
      && g[p.x, p.y, p.z] + 1 == Background(g, fill);
  }

  // ---------------------------------------------------------------- window

  /** The integers a, a + 1, ..., b - 1 (`xrange(a, b)`). */
  function Range(a: int, b: int): (r: seq<int>)
    ensures forall t :: t in r <==> a <= t < b
  {
    if b <= a then []
    else
      var r := seq(b - a, k requires 0 <= k < b - a => a + k);
      assert forall t :: a <= t < b ==> t in r by {
        forall t | a <= t < b
          ensures t in r
        {
          assert r[t - a] == t;
        }
      }
      r
  }

  /** Lines 153-155: the old indices along one axis that fall into the new box. */
  function Kept(offset: int, box: int, extent: nat): set<int>
  {
    set t | t in Range(offset, offset + box) && t in Range(0, extent)
  }

  /** First kept index (`min` of line 159). */
  function Lo(offset: int): int
  {
    if offset > 0 then offset else 0
  }

  /** One past the last kept index (`max` + 1 of line 159). */
  function Hi(offset: int, box: int, extent: nat): int
  {
    if offset + box < extent then offset + box else extent
  }

  /**
   * The kept indices form the range [Lo, Hi): its least element is Lo and
   * its largest Hi - 1, and each kept index, moved by the offset (lines
   * 156-158), lands inside the new box.
   */
  lemma KeptRange(offset: int, box: int, extent: nat)
    ensures forall t :: t in Kept(offset, box, extent) <==> Lo(offset) <= t < Hi(offset, box, extent)
    ensures Kept(offset, box, extent) == {} <==> Hi(offset, box, extent) <= Lo(offset)
    ensures forall t :: t in Kept(offset, box, extent) ==> 0 <= t < extent && 0 <= t - offset < box
  {
    if Lo(offset) < Hi(offset, box, extent) {
      assert Lo(offset) in Kept(offset, box, extent);
    }
  }

  /** Cell p of the new box shows old cell p + offset when that cell is kept on every axis. */
  predicate Shows(extent: Triple<nat>, box: Triple<int>, offset: Triple<int>, p: Triple<int>)
  {
    p.x + offset.x in Kept(offset.x, box.x, extent.x)
    && p.y + offset.y in Kept(offset.y, box.y, extent.y)
    && p.z + offset.z in Kept(offset.z, box.z, extent.z)
  }

  /** A cell of the new box shows an old cell exactly when the shifted index is inside [Lo, Hi) on each axis. */
  lemma ShowsWindow(extent: Triple<nat>, box: Triple<int>, offset: Triple<int>, p: Triple<int>)
    ensures Shows(extent, box, offset, p) <==>
      Lo(offset.x) <= p.x + offset.x < Hi(offset.x, box.x, extent.x)
      && Lo(offset.y) <= p.y + offset.y < Hi(offset.y, box.y, extent.y)
      && Lo(offset.z) <= p.z + offset.z < Hi(offset.z, box.z, extent.z)
  {
    KeptRange(offset.x, box.x, extent.x);
    KeptRange(offset.y, box.y, extent.y);
    KeptRange(offset.z, box.z, extent.z);
  }

  /** Lines 151-159: the cropped grid, old cells inside the window, background elsewhere. */
  function CroppedCell(g: array3<int>, box: Triple<int>, offset: Triple<int>, bg: int, p: Triple<int>): (v: int)
    reads g
    ensures v == bg || exists x, y, z :: 0 <= x < g.Length0 && 0 <= y < g.Length1 && 0 <= z < g.Length2 && v == g[x, y, z]
  {
    if Shows(Shape(g), box, offset, p) then g[p.x + offset.x, p.y + offset.y, p.z + offset.z] else bg
  }

  /** One z run of the block assignment of line 159. */
  method CopyLine(c: array3<int>, g: array3<int>, offset: Triple<int>, x: int, y: int, lo: int, hi: int)
    requires c != g
    requires 0 <= x < g.Length0 && 0 <= x - offset.x < c.Length0
    requires 0 <= y < g.Length1 && 0 <= y - offset.y < c.Length1
    requires 0 <= lo <= hi <= g.Length2 && 0 <= lo - offset.z && hi - offset.z <= c.Length2
    modifies c
    ensures forall i, j, k :: 0 <= i < c.Length0 && 0 <= j < c.Length1 && 0 <= k < c.Length2 ==>
      c[i, j, k] == if i + offset.x == x && j + offset.y == y && lo <= k + offset.z < hi
        then g[x, y, k + offset.z] else old(c[i, j, k])
  {
    for z := lo to hi
      invariant forall i, j, k :: 0 <= i < c.Length0 && 0 <= j < c.Length1 && 0 <= k < c.Length2 ==>
        c[i, j, k] == if i + offset.x == x && j + offset.y == y && lo <= k + offset.z < z
          then g[x, y, k + offset.z] else old(c[i, j, k])
    {
      c[x - offset.x, y - offset.y, z - offset.z] := g[x, y, z];
    }
  }

  /** One x plane of the block assignment of line 159. */
  method CopyPlane(c: array3<int>, g: array3<int>, offset: Triple<int>, x: int, lo: Triple<int>, hi: Triple<int>)
    requires c != g
    requires 0 <= x < g.Length0 && 0 <= x - offset.x < c.Length0
    requires 0 <= lo.y <= hi.y <= g.Length1 && 0 <= lo.y - offset.y && hi.y - offset.y <= c.Length1
    requires 0 <= lo.z <= hi.z <= g.Length2 && 0 <= lo.z - offset.z && hi.z - offset.z <= c.Length2
    modifies c
    ensures forall i, j, k :: 0 <= i < c.Length0 && 0 <= j < c.Length1 && 0 <= k < c.Length2 ==>
      c[i, j, k] == if i + offset.x == x && lo.y <= j + offset.y < hi.y && lo.z <= k + offset.z < hi.z
        then g[x, j + offset.y, k + offset.z] else old(c[i, j, k])
  {
    for y := lo.y to hi.y
      invariant forall i, j, k :: 0 <= i < c.Length0 && 0 <= j < c.Length1 && 0 <= k < c.Length2 ==>
        c[i, j, k] == if i + offset.x == x && lo.y <= j + offset.y < y && lo.z <= k + offset.z < hi.z
          then g[x, j + offset.y, k + offset.z] else old(c[i, j, k])
    {
      CopyLine(c, g, offset, x, y, lo.z, hi.z);
    }
  }

  /** Line 159: old cells [lo, hi) copied to the new grid, moved back by the offset. */
  method CopyBlock(c: array3<int>, g: array3<int>, offset: Triple<int>, lo: Triple<int>, hi: Triple<int>)
    requires c != g
    requires 0 <= lo.x <= hi.x <= g.Length0 && 0 <= lo.x - offset.x && hi.x - offset.x <= c.Length0
    requires 0 <= lo.y <= hi.y <= g.Length1 && 0 <= lo.y - offset.y && hi.y - offset.y <= c.Length1
    requires 0 <= lo.z <= hi.z <= g.Length2 && 0 <= lo.z - offset.z && hi.z - offset.z <= c.Length2
    modifies c
    ensures forall i, j, k :: 0 <= i < c.Length0 && 0 <= j < c.Length1 && 0 <= k < c.Length2 ==>
      c[i, j, k] == if lo.x <= i + offset.x < hi.x && lo.y <= j + offset.y < hi.y && lo.z <= k + offset.z < hi.z
        then g[i + offset.x, j + offset.y, k + offset.z] else old(c[i, j, k])
  {
    for x := lo.x to hi.x
      invariant forall i, j, k :: 0 <= i < c.Length0 && 0 <= j < c.Length1 && 0 <= k < c.Length2 ==>
        c[i, j, k] == if lo.x <= i + offset.x < x && lo.y <= j + offset.y < hi.y && lo.z <= k + offset.z < hi.z
          then g[i + offset.x, j + offset.y, k + offset.z] else old(c[i, j, k])
    {
      CopyPlane(c, g, offset, x, lo, hi);
    }
  }

  /**
   * Lines 151 and 159 for a window that keeps an index on every axis: a
   * new grid of shape `box` filled with `bg`, then the kept block copied in.
   */
  method Paste(g: array3<int>, box: Triple<int>, offset: Triple<int>, bg: int) returns (c: array3<int>)
    requires Lo(offset.x) < Hi(offset.x, box.x, g.Length0)
    requires Lo(offset.y) < Hi(offset.y, box.y, g.Length1)
    requires Lo(offset.z) < Hi(offset.z, box.z, g.Length2)
    ensures fresh(c) && c.Length0 == box.x && c.Length1 == box.y && c.Length2 == box.z
    ensures forall i, j, k :: 0 <= i < box.x && 0 <= j < box.y && 0 <= k < box.z ==>
      c[i, j, k] == CroppedCell(g, box, offset, bg, Triple(i, j, k))
  {
    var lo := Triple(Lo(offset.x), Lo(offset.y), Lo(offset.z));
    var hi := Triple(Hi(offset.x, box.x, g.Length0), Hi(offset.y, box.y, g.Length1), Hi(offset.z, box.z, g.Length2));
    c := new int[box.x, box.y, box.z]((i, j, k) => bg);
    CopyBlock(c, g, offset, lo, hi);
    forall i, j, k | 0 <= i < box.x && 0 <= j < box.y && 0 <= k < box.z
      ensures c[i, j, k] == CroppedCell(g, box, offset, bg, Triple(i, j, k))
    {
      ShowsWindow(Shape(g), box, offset, Triple(i, j, k));
    }
  }

  /** Lines 151-159: the new grid of shape `box`, filled with the background, then the kept block copied in. */
  method Crop(g: array3<int>, box: Triple<int>, offset: Triple<int>, fill: int) returns (r: Result<array3<int>, CanvasError>)
    requires Positive(Shape(g))
    ensures r.Err? <==>
      Kept(offset.x, box.x, g.Length0) == {} || Kept(offset.y, box.y, g.Length1) == {}
      || Kept(offset.z, box.z, g.Length2) == {}
    ensures r.Err? ==> r.error == EmptyWindow
    ensures r.Ok? ==> fresh(r.value) && r.value.Length0 == box.x && r.value.Length1 == box.y && r.value.Length2 == box.z
    ensures r.Ok? ==> forall i, j, k :: 0 <= i < box.x && 0 <= j < box.y && 0 <= k < box.z ==>
      r.value[i, j, k] == CroppedCell(g, box, offset, Background(g, fill), Triple(i, j, k))
  {
    KeptRange(offset.x, box.x, g.Length0);
    KeptRange(offset.y, box.y, g.Length1);
    KeptRange(offset.z, box.z, g.Length2);
    if Hi(offset.x, box.x, g.Length0) <= Lo(offset.x) || Hi(offset.y, box.y, g.Length1) <= Lo(offset.y)
      || Hi(offset.z, box.z, g.Length2) <= Lo(offset.z)
    {
      return Err(EmptyWindow);
    }
    var c := Paste(g, box, offset, Background(g, fill));
    r := Ok(c);
  }

  // ---------------------------------------------------------------- header

  /** Physical size of one cell along each axis. */
  function CellSize(h: Header): Vec
    requires h.resolution.x != 0 && h.resolution.y != 0 && h.resolution.z != 0
  {
    Triple(h.dimension.x / h.resolution.x as real, h.dimension.y / h.resolution.y as real,
      h.dimension.z / h.resolution.z as real)
  }

  /** Lines 116-121: a header without resolution or dimension is skipped. */
  function CheckHeader(h: Header): (r: Result<Header, CanvasError>)
    ensures r.Ok? <==> h.resolution != Triple(0, 0, 0) && h.dimension != Triple(0.0, 0.0, 0.0)
    ensures r.Err? ==> (r.error == NoResolution <==> h.resolution == Triple(0, 0, 0))
    ensures r.Ok? ==> r.value == h
  {
    if h.resolution == Triple(0, 0, 0) then Err(NoResolution)
    else if h.dimension == Triple(0.0, 0.0, 0.0) then Err(NoDimension)
    else Ok(h)
  }

  /**
   * Lines 128-140: the header of the new box. Its dimension and origin are
   * divided by the old resolution, so one zero component fails, which the
   * check of lines 116-118 lets through unless all three are zero.
   */
  function NewHeader(h: Header, box: Triple<int>, offset: Triple<int>): (r: Result<Header, CanvasError>)
    ensures r.Err? <==> h.resolution.x == 0 || h.resolution.y == 0 || h.resolution.z == 0
    ensures r.Err? ==> r.error == ZeroResolution
    ensures r.Ok? ==> r.value.resolution == box && r.value.homogenization == h.homogenization
  {
    if h.resolution.x == 0 || h.resolution.y == 0 || h.resolution.z == 0 then Err(ZeroResolution)
    else
      var cell := CellSize(h);
      Ok(Header(box,
        Triple(cell.x * box.x as real, cell.y * box.y as real, cell.z * box.z as real),
        Triple(h.origin.x + cell.x * offset.x as real, h.origin.y + cell.y * offset.y as real,
          h.origin.z + cell.z * offset.z as real),
        h.homogenization))
  }

  /** A resolution with one zero component passes the header check, and the new header then fails. */
  lemma PartialResolutionFails()
    ensures var h := Header(Triple(4, 0, 4), Triple(1.0, 1.0, 1.0), Triple(0.0, 0.0, 0.0), 1);
      CheckHeader(h) == Ok(h) && NewHeader(h, Triple(2, 2, 2), Triple(0, 0, 0)) == Err(ZeroResolution)
  {
  }

  /** The new box keeps the cell size of the old one. */
  lemma NewHeaderCellSize(h: Header, box: Triple<int>, offset: Triple<int>)
    requires h.resolution.x != 0 && h.resolution.y != 0 && h.resolution.z != 0
    requires box.x != 0 && box.y != 0 && box.z != 0
    ensures NewHeader(h, box, offset).Ok?
    ensures CellSize(NewHeader(h, box, offset).value) == CellSize(h)
  {
    var cell := CellSize(h);
    MulDivCancel(cell.x, box.x as real);
    MulDivCancel(cell.y, box.y as real);
    MulDivCancel(cell.z, box.z as real);
    var n := CellSize(NewHeader(h, box, offset).value);
    assert n.x == cell.x && n.y == cell.y && n.z == cell.z;
  }

  lemma MulDivCancel(x: real, n: real)
    requires n != 0.0
    ensures x * n / n == x
  {
  }

  /**
   * The lower corner of new cell p lies where the lower corner of old cell
   * p + offset lay, which is the cell the cropped grid copies there.
   */
  lemma NewHeaderCorners(h: Header, box: Triple<int>, offset: Triple<int>, p: Triple<int>)
    requires h.resolution.x != 0 && h.resolution.y != 0 && h.resolution.z != 0
    requires box.x != 0 && box.y != 0 && box.z != 0
    ensures NewHeader(h, box, offset).Ok?
    ensures var n := NewHeader(h, box, offset).value; var cn := CellSize(n); var c := CellSize(h);
      n.origin.x + cn.x * p.x as real == h.origin.x + c.x * (p.x + offset.x) as real
      && n.origin.y + cn.y * p.y as real == h.origin.y + c.y * (p.y + offset.y) as real
      && n.origin.z + cn.z * p.z as real == h.origin.z + c.z * (p.z + offset.z) as real
  {
    NewHeaderCellSize(h, box, offset);
  }

  /** The same box at offset zero gives back the old header. */
  lemma NewHeaderIdentity(h: Header)
    requires h.resolution.x != 0 && h.resolution.y != 0 && h.resolution.z != 0
    ensures NewHeader(h, h.resolution, Triple(0, 0, 0)) == Ok(h)
  {
    var n := NewHeader(h, h.resolution, Triple(0, 0, 0)).value;
    DivMulCancel(h.dimension.x, h.resolution.x as real);
    DivMulCancel(h.dimension.y, h.resolution.y as real);
    DivMulCancel(h.dimension.z, h.resolution.z as real);
    assert n.dimension.x == h.dimension.x && n.dimension.y == h.dimension.y && n.dimension.z == h.dimension.z;
    assert n.origin.x == h.origin.x && n.origin.y == h.origin.y && n.origin.z == h.origin.z;
  }

  // ---------------------------------------------------------------- writing

  function Pow10(w: nat): nat
  {
    if w == 0 then 1 else 10 * Pow10(w - 1)
  }

  /** The number of decimal digits of a positive m, `floor(log10(m) + 1)`. */
  function Digits(m: nat): (w: nat)
    requires m >= 1
    ensures w >= 1 && Pow10(w - 1) <= m < Pow10(w)
  {
    if m < 10 then 1 else 1 + Digits(m / 10)
  }

  /**
   * Line 160: the width of the written numbers, the digit count of the
   * largest old index; `log10` fails when no old index is positive.
   */
  function FormatWidth(g: array3<int>): (r: Result<nat, CanvasError>)
    reads g
    requires Positive(Shape(g))
    ensures r.Err? <==> forall t :: 0 <= t < |Cells(g)| ==> Cells(g)[t] <= 0
    ensures r.Err? ==> r.error == NoPositiveIndex
    ensures r.Ok? ==> r.value >= 1 && Pow10(r.value - 1) <= MaxOf(Cells(g))
    ensures r.Ok? ==> forall t :: 0 <= t < |Cells(g)| ==> Cells(g)[t] < Pow10(r.value)
  {
    var m := MaxOf(Cells(g));
    if m <= 0 then Err(NoPositiveIndex) else Ok(Digits(m))
  }

  /** The grid as planes of rows of cells: entry [z][y][x] is cell (x, y, z). */
  function Planes(c: array3<int>): (f: Field3<int>)
    reads c
    ensures HasShape(f, c.Length2, c.Length1, c.Length0)
    ensures forall x, y, z :: 0 <= x < c.Length0 && 0 <= y < c.Length1 && 0 <= z < c.Length2 ==>
      f[z][y][x] == c[x, y, z]
  {
    seq(c.Length2, z requires 0 <= z < c.Length2 reads c =>
      seq(c.Length1, y requires 0 <= y < c.Length1 reads c =>
        seq(c.Length0, x requires 0 <= x < c.Length0 reads c => c[x, y, z])))
  }

  lemma {:induction false} FlattenPlaneAppend<T>(p: seq<seq<T>>, q: seq<T>)
    ensures FlattenPlane(p + [q]) == FlattenPlane(p) + q
  {
    if p == [] {
      assert [q][1..] == [];
    } else {
      assert (p + [q])[1..] == p[1..] + [q];
      FlattenPlaneAppend(p[1..], q);
    }
  }

  /**
   * Lines 170-172: one output row per (y, z), z outer and y inner, each
   * listing the x values in order.
   */
  method WriteRows(c: array3<int>) returns (rows: seq<seq<int>>)
    ensures rows == FlattenPlane(Planes(c))
  {
    ghost var planes := Planes(c);
    rows := [];
    for z := 0 to c.Length2
      invariant rows == FlattenPlane(planes[..z])
    {
      for y := 0 to c.Length1
        invariant rows == FlattenPlane(planes[..z]) + planes[z][..y]
      {
        var row := seq(c.Length0, x requires 0 <= x < c.Length0 reads c => c[x, y, z]);
        assert row == planes[z][y];
        assert planes[z][..y + 1] == planes[z][..y] + [row];
        rows := rows + [row];
      }
      assert planes[z][..c.Length1] == planes[z];
      assert planes[..z + 1] == planes[..z] + [planes[z]];
      FlattenPlaneAppend(planes[..z], planes[z]);
    }
    assert planes[..c.Length2] == planes;
  }

  /**
   * Rows written in that order read back cell by cell: run together, the
   * rows put cell (x, y, z) at its file position, so reading the output
   * again gives the same grid.
   */
  lemma RowsReadBack(f: Field3<int>, res: Triple<nat>, p: Triple<nat>)
    requires Positive(res) && HasShape(f, res.z, res.y, res.x) && InGrid(res, p)
    ensures |FlattenPlane(FlattenPlane(f))| == Product(res)
    ensures CellValue(FlattenPlane(FlattenPlane(f)), res, p) == f[p.z][p.y][p.x]
  {
    var rows := FlattenPlane(f);
    var r := p.z * res.y + p.y;
    FlattenPlaneAt(f, res.z, res.y, p.z, p.y);
    assert |rows| == res.z * res.y && r < |rows| && rows[r] == f[p.z][p.y];
    forall t | 0 <= t < |rows|
      ensures |rows[t]| == res.x
    {
      var k, j := PlaneMember(f, res.z, res.y, rows[t]);
    }
    FlattenPlaneAt(rows, |rows|, res.x, r, p.x);
    assert Encode(res, p) == r * res.x + p.x;
    ProductOrder(res);
  }

  lemma ProductOrder(res: Triple<nat>)
    ensures res.z * res.y * res.x == Product(res)
  {
    MulAssoc(res.x, res.y, res.z);
  }
}
