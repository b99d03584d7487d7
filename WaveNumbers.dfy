/**
 * Wave-number grid of a periodic field in Fourier space (`__ks` in
 * grid_filters.py): signed frequency bins on the two full axes, optional
 * zeroing of the Nyquist bin, the non-negative half axis of a real FFT,
 * each divided by a physical size, stored as (k_i, k_j, k_k) at [a][b][c].
 */
module WaveNumbers {
  import opened Triples
  import opened Lattice

  /** Signed frequency of FFT bin `b` of `n`: bins past the middle count backwards. */
  function SignedBin(b: nat, n: nat): int
  {
    if b > n / 2 then b - n else b
  }

  /** Frequency used for bin `b` of a full axis: the Nyquist bin of an even axis is zeroed for first-order operators. */
  function Bin(b: nat, n: nat, firstOrder: bool): int
  {
    if firstOrder && n % 2 == 0 && b == n / 2 then 0 else SignedBin(b, n)
  }

  /** The wave numbers of a full axis (specification of `FullAxis`). */
  function WaveNumberAxis(n: nat, size: real, firstOrder: bool): (k: seq<real>)
    requires size != 0.0
    ensures |k| == n
  {
    seq(n, b requires 0 <= b < n => Bin(b, n, firstOrder) as real / size)
  }

  /** `np.arange(n // 2 + 1) / size`: the non-negative bins kept by a real FFT. */
  function HalfAxis(n: nat, size: real): (k: seq<real>)
    requires size != 0.0
    ensures |k| == n / 2 + 1
  {
    seq(n / 2 + 1, c requires 0 <= c < n / 2 + 1 => c as real / size)
  }

  /**
   * Lines 14-18: the signed bins of one full axis divided by its size,
   * then bin n/2 set to zero when the axis is even and `firstOrder` holds.
   * With `firstOrder` an empty axis has no such bin and the source fails.
   */
  method FullAxis(n: nat, size: real, firstOrder: bool) returns (k: seq<real>)
    requires size != 0.0
    requires n >= 1 || !firstOrder
    ensures k == WaveNumberAxis(n, size, firstOrder)
  {
    k := [];
    var b := 0;
    while b < n
      invariant 0 <= b <= n
      invariant |k| == b
      invariant forall t :: 0 <= t < b ==> k[t] == SignedBin(t, n) as real / size
    {
      k := k + [SignedBin(b, n) as real / size];
      b := b + 1;
    }
    if n % 2 == 0 && firstOrder {
      k := k[n / 2 := 0.0];
    }
  }

  /**
   * `__ks(size, grid, first_order)` as written: `grid` lists the counts
   * along array axes 0, 1, 2 and axis d is divided by `size[d]`.
   */
  function KsSpec(size: Vec, grid: Triple<nat>, firstOrder: bool): (ks: Field3<Vec>)
    requires size.x != 0.0 && size.y != 0.0 && size.z != 0.0
    ensures HasShape(ks, grid.x, grid.y, grid.z / 2 + 1)
  {
    Mesh(HalfAxis(grid.z, size.z), WaveNumberAxis(grid.y, size.y, firstOrder),
         WaveNumberAxis(grid.x, size.x, firstOrder))
  }

  /** `__ks`: the three axes, then the mesh with the triple stored last axis first. */
  method Ks(size: Vec, grid: Triple<nat>, firstOrder: bool) returns (ks: Field3<Vec>)
    requires size.x != 0.0 && size.y != 0.0 && size.z != 0.0
    requires (grid.x >= 1 && grid.y >= 1) || !firstOrder
    ensures ks == KsSpec(size, grid, firstOrder)
    ensures HasShape(ks, grid.x, grid.y, grid.z / 2 + 1)
  {
    var kk := FullAxis(grid.x, size.x, firstOrder);
    var kj := FullAxis(grid.y, size.y, firstOrder);
    var ki := HalfAxis(grid.z, size.z);
    ks := Mesh(ki, kj, kk);
  }

  /** The signed bin is the representative of `b` modulo `n` in the centred range (n/2 - n, n/2]. */
  lemma SignedBinRange(b: nat, n: nat)
    requires b < n
    ensures n / 2 - n < SignedBin(b, n) <= n / 2
    ensures SignedBin(b, n) == b || SignedBin(b, n) == b - n
  {
  }

  /** No other integer congruent to `b` modulo `n` lies in the centred range. */
  lemma {:induction false} SignedBinUnique(b: nat, n: nat, r: int)
    requires b < n
    requires n / 2 - n < r <= n / 2
    requires (r - b) % n == 0
    ensures r == SignedBin(b, n)
  {
    var q := (r - b) / n;
    assert r - b == n * q;
    if q >= 1 {
      MulMonotone(n, 1, q);
      assert false;
    } else if q <= -2 {
      MulMonotone(n, q, -2);
      assert false;
    }
    if q == 0 {
      assert r == b;
    } else {
      assert r == b - n;
    }
  }

  lemma MulMonotone(n: nat, p: int, q: int)
    requires p <= q
    ensures n * p <= n * q
  {
  }

  /** Bins `b` and `n - b` carry opposite frequencies, except at the Nyquist bin of an even axis. */
  lemma SignedBinOpposite(b: nat, n: nat)
    requires 0 < b < n && 2 * b != n
    ensures SignedBin(n - b, n) == -SignedBin(b, n)
  {
  }

  /**
   * With `firstOrder` the full axis is odd, k[n - b] == -k[b] for every
   * 0 < b < n, so a first derivative of a real field stays real; zeroing
   * the Nyquist bin is what makes the even case odd as well.
   */
  lemma WaveNumberAxisOdd(n: nat, size: real)
    requires size != 0.0
    ensures forall b :: 0 < b < n ==>
      WaveNumberAxis(n, size, true)[n - b] == -WaveNumberAxis(n, size, true)[b]
  {
    var k := WaveNumberAxis(n, size, true);
    forall b | 0 < b < n
      ensures k[n - b] == -k[b]
    {
      if 2 * b != n {
        SignedBinOpposite(b, n);
        assert k[n - b] == SignedBin(n - b, n) as real / size;
        assert k[b] == SignedBin(b, n) as real / size;
      }
    }
  }

  /** Without `firstOrder` an even axis keeps +n/2 at the Nyquist bin, which has no mirror. */
  lemma NyquistKept(n: nat, size: real)
    requires size != 0.0 && n >= 2 && n % 2 == 0
    ensures WaveNumberAxis(n, size, false)[n / 2] * size == (n / 2) as real
    ensures WaveNumberAxis(n, size, false)[n - n / 2] != -WaveNumberAxis(n, size, false)[n / 2]
  {
  }

  /** Every full-axis entry is its bin's frequency over `size`: a whole number of periods across the axis. */
  lemma WaveNumberAxisBins(n: nat, size: real, firstOrder: bool, b: nat)
    requires size != 0.0 && b < n
    ensures WaveNumberAxis(n, size, firstOrder)[b] * size == Bin(b, n, firstOrder) as real
    ensures firstOrder && 2 * b == n ==> WaveNumberAxis(n, size, firstOrder)[b] == 0.0
  {
  }

  /** The half axis holds the non-negative bins 0 .. n/2 over `size`. */
  lemma HalfAxisBins(n: nat, size: real, c: nat)
    requires size != 0.0 && c <= n / 2
    ensures HalfAxis(n, size)[c] * size == c as real
    ensures size > 0.0 ==> HalfAxis(n, size)[c] >= 0.0
  {
  }

  /** Entry [a][b][c] of `__ks` holds (half-axis bin c, bin b of axis 1, bin a of axis 0). */
  lemma KsAt(size: Vec, grid: Triple<nat>, firstOrder: bool, a: nat, b: nat, c: nat)
    requires size.x != 0.0 && size.y != 0.0 && size.z != 0.0
    requires a < grid.x && b < grid.y && c <= grid.z / 2
    ensures KsSpec(size, grid, firstOrder)[a][b][c]
         == Triple(HalfAxis(grid.z, size.z)[c], WaveNumberAxis(grid.y, size.y, firstOrder)[b],
                   WaveNumberAxis(grid.x, size.x, firstOrder)[a])
  {
    MeshAt(HalfAxis(grid.z, size.z), WaveNumberAxis(grid.y, size.y, firstOrder),
           WaveNumberAxis(grid.x, size.x, firstOrder), a, b, c);
  }

  /**
   * Wave numbers for a field of array shape (Nz, Ny, Nx), which is how
   * every caller passes `grid`, with `size` in (x, y, z) order: array axis
   * 0 runs along z and is divided by the z extent, axis 2 by the x extent.
   */
  function KsIntended(size: Vec, shape: Triple<nat>, firstOrder: bool): (ks: Field3<Vec>)
    requires size.x != 0.0 && size.y != 0.0 && size.z != 0.0
    ensures HasShape(ks, shape.x, shape.y, shape.z / 2 + 1)
  {
    Mesh(HalfAxis(shape.z, size.x), WaveNumberAxis(shape.y, size.y, firstOrder),
         WaveNumberAxis(shape.x, size.z, firstOrder))
  }

  /**
   * With the intended pairing, entry [a][b][c] times the box extent along
   * each direction is the bin (c, b, a) it stands for: every plane wave
   * completes a whole number of periods across the box.
   */
  lemma KsIntendedBins(size: Vec, shape: Triple<nat>, firstOrder: bool, a: nat, b: nat, c: nat)
    requires size.x != 0.0 && size.y != 0.0 && size.z != 0.0
    requires a < shape.x && b < shape.y && c <= shape.z / 2
    ensures KsIntended(size, shape, firstOrder)[a][b][c].x * size.x == c as real
    ensures KsIntended(size, shape, firstOrder)[a][b][c].y * size.y == Bin(b, shape.y, firstOrder) as real
    ensures KsIntended(size, shape, firstOrder)[a][b][c].z * size.z == Bin(a, shape.x, firstOrder) as real
  {
    MeshAt(HalfAxis(shape.z, size.x), WaveNumberAxis(shape.y, size.y, firstOrder),
           WaveNumberAxis(shape.x, size.z, firstOrder), a, b, c);
    HalfAxisBins(shape.z, size.x, c);
    WaveNumberAxisBins(shape.y, size.y, firstOrder, b);
    WaveNumberAxisBins(shape.x, size.z, firstOrder, a);
  }

  /** For a cubic box (equal x and z extents) the two pairings coincide. */
  lemma KsCubicAgrees(size: Vec, shape: Triple<nat>, firstOrder: bool)
    requires size.x != 0.0 && size.y != 0.0 && size.z != 0.0
    requires size.x == size.z
    ensures KsSpec(size, shape, firstOrder) == KsIntended(size, shape, firstOrder)
  {
  }

  /**
   * As written, a field of shape (1, 1, 2) in a box of extent (1, 1, 2)
   * gets x wave number 1/2 at its last bin: half a period across the box,
   * where the intended pairing gives one whole period.
   */
  lemma KsPairingCounterexample()
    ensures KsSpec(Triple(1.0, 1.0, 2.0), Triple(1, 1, 2), false)[0][0][1].x * 1.0 == 0.5
    ensures KsIntended(Triple(1.0, 1.0, 2.0), Triple(1, 1, 2), false)[0][0][1].x * 1.0 == 1.0
  {
    KsAt(Triple(1.0, 1.0, 2.0), Triple(1, 1, 2), false, 0, 0, 1);
    KsIntendedBins(Triple(1.0, 1.0, 2.0), Triple(1, 1, 2), false, 0, 0, 1);
  }
}
