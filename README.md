# DAMASK grid and material-configuration core, in Dafny

This project models the parts of DAMASK (the Düsseldorf Advanced Material
Simulation Kit) that are exact arithmetic on indices and structures. It
proves properties of that model.

- **Periodic grid geometry** (`python/damask/grid_filters.py`):
  - the wave-number layout `__ks`;
  - the regular cell-centre lattice `cell_coord0` and node lattice `node_coord0`;
  - the periodic eight-neighbour averages `cell_2_node` and `node_2_cell`;
  - the inverse "grid DNA" extractors `cell_coord0_2_DNA`, `node_coord0_2_DNA` and `coord0_check`;
  - the periodic wrap step of `regrid`.
- **Material configuration editing** (`python/damask/_configmaterial.py`):
  - `material_add`, `material_rename_phase` and `material_rename_homogenization`;
  - the completeness check `is_complete`;
  - the row de-duplication of `from_table`.
- **Geometry renumbering** (`processing/pre/geom_renumber.py`): the header validation, and the relabelling of grain indices to 1..N in sorted order.
- **Geometry canvas** (`processing/pre/spectral_geomCanvas.py`):
  - reading the flat list of indices into a 3-D grid, x fastest;
  - cropping or extending it to a new box at an offset, with a background index;
  - the rescaled header;
  - the width of the written numbers;
  - the order in which the rows are written out.
- **Numerical derivative** (`processing/post/addDerivative.py`): the three-point derivative of table columns along a coordinate column.

Reals are Dafny's exact `real`. Fields are sequences indexed `[k][j][i]` (z, y, x), as numpy stores them. Where the source changes an array in place (the canvas, the derivative result, the points wrapped by `regrid`), the model uses Dafny arrays and methods. Each such method is proved against a function or predicate, and the properties are proved about that function.

Modules:

| module | source |
|---|---|
| `Triples`, `Wrappers`, `Distinct` | shared vocabulary: 3-vectors, `Option`/`Result`, and `np.unique` as sorted distinct values |
| `WaveNumbers` | `__ks` |
| `Lattice` | `cell_coord0`, `node_coord0`, and the flattening order used by `reshape` |
| `Interpolation` | `cell_2_node`, `node_2_cell` |
| `GridDna` | `cell_coord0_2_DNA`, `node_coord0_2_DNA`, `coord0_check` |
| `Regrid` | the box size and the wrap loop of `regrid` |
| `Materials` | the configuration datatypes |
| `MaterialAdd`, `MaterialRename`, `MaterialComplete`, `MaterialTable` | `material_add`, the two renames, `is_complete`, `from_table` |
| `GeomRenumber` | `geom_renumber.py` |
| `GeomCanvas` | `spectral_geomCanvas.py` |
| `Derivative` | `addDerivative.py` |

## Model

| member | source | states |
|---|---|---|
| WaveNumbers.FullAxis | python/damask/grid_filters.py:14-18 | The axis is built bin by bin and then has its Nyquist bin zeroed. The result equals the wave-number axis: bin b carries its signed frequency divided by the size, except that bin n/2 of an even axis is 0 under first order. |
| WaveNumbers.KsSpec | python/damask/grid_filters.py:4-23 | The operator as written has shape grid[0] x grid[1] x (grid[2]//2+1). |
| WaveNumbers.Ks | python/damask/grid_filters.py:4-23 | The operator is the mesh of the two full axes and the half axis. Its shape is grid[0] x grid[1] x (grid[2]//2+1). |
| WaveNumbers.SignedBinRange | python/damask/grid_filters.py:14 | A signed bin lies in the centred range (n/2-n, n/2] and is either b or b-n. |
| WaveNumbers.SignedBinUnique | python/damask/grid_filters.py:14 | The signed bin is the only value in that centred range congruent to b modulo n, so the wrap-around picks the centred representative. |
| WaveNumbers.SignedBinOpposite | python/damask/grid_filters.py:14 | Bins b and n-b carry opposite frequencies unless b is the Nyquist bin. |
| WaveNumbers.WaveNumberAxisOdd | python/damask/grid_filters.py:14-18 | With first order, k[n-b] = -k[b] for every 0 < b < n, for odd and even lengths alike. Zeroing the Nyquist bin is what makes this hold. |
| WaveNumbers.NyquistKept | python/damask/grid_filters.py:14-15 | Without first order, an even axis keeps +n/2 at the Nyquist bin, and the antisymmetry fails there. |
| WaveNumbers.WaveNumberAxisBins | python/damask/grid_filters.py:14-18 | Each entry times the axis size is its bin frequency. That frequency is 0 at the Nyquist bin of an even axis under first order. |
| WaveNumbers.HalfAxisBins | python/damask/grid_filters.py:20 | Entry c of the half axis times the size is c. The entry is non-negative for a positive size, and it is never zeroed. |
| WaveNumbers.KsAt | python/damask/grid_filters.py:22-23 | Entry [a][b][c] is the triple (k_si[c], k_sj[b], k_sk[a]), i.e. the components are stored in reversed order. |
| WaveNumbers.KsIntended | python/damask/grid_filters.py:4-23 | The corrected operator, given the array shape, has shape shape[0] x shape[1] x (shape[2]//2+1). |
| WaveNumbers.KsIntendedBins | python/damask/grid_filters.py:22-23 | In the corrected pairing, each component times the box extent along its own direction is the bin it stands for. |
| WaveNumbers.KsCubicAgrees | python/damask/grid_filters.py:4-23 | When the x and z extents are equal, the operator as written and the corrected one coincide. |
| WaveNumbers.KsPairingCounterexample | python/damask/grid_filters.py:14-20 | Take a field of array shape (1, 1, 2) in a box of extent (1, 1, 2). As written, its x wave number is half a period across the box; corrected, it is one whole period. |
| Lattice.LinspaceShape | python/damask/grid_filters.py:106-108 | `linspace` with n >= 2 points starts at start, ends at stop, and has the constant step (stop-start)/(n-1). |
| Lattice.MeshAt | python/damask/grid_filters.py:106-111 | Entry [k][j][i] of the 'ij' meshgrid of the three axes is (x_i, y_j, z_k). |
| Lattice.CellAxisAt | python/damask/grid_filters.py:104-108 | Cell axis t is origin + (t+1/2)·size/grid, with grid points in total. |
| Lattice.NodeAxisAt | python/damask/grid_filters.py:248-250 | Node axis t is origin + t·size/grid, with grid+1 points in total. |
| Lattice.CellCoord0 | python/damask/grid_filters.py:90-111 | `cell_coord0` has one entry per cell, with the shape of the grid reversed (z, y, x). |
| Lattice.CellCoord0At | python/damask/grid_filters.py:90-111 | `cell_coord0` has the shape of grid reversed. Entry [k][j][i] is origin + ((i+1/2)·size_x/grid_x, (j+1/2)·size_y/grid_y, (k+1/2)·size_z/grid_z). |
| Lattice.CellCentresInside | python/damask/grid_filters.py:104-111 | For a positive size, every cell centre lies strictly inside the box [origin, origin+size]. |
| Lattice.NodeCoord0 | python/damask/grid_filters.py:234-253 | `node_coord0` has grid+1 entries per axis, with the shape reversed (z, y, x). |
| Lattice.NodeCoord0At | python/damask/grid_filters.py:234-253 | `node_coord0` has grid+1 points per axis. Entry [k][j][i] is origin + (i·size_x/grid_x, j·size_y/grid_y, k·size_z/grid_z). |
| Lattice.NodeCorners | python/damask/grid_filters.py:248-253 | The first node is at the origin, and the last node is at origin + size. |
| Lattice.CellAxisIncreasing | python/damask/grid_filters.py:104-108 | For a positive size the cell axis is strictly increasing, so `np.unique` returns it unchanged. |
| Lattice.NodeAxisIncreasing | python/damask/grid_filters.py:248-250 | For a positive size the node axis is strictly increasing. |
| Lattice.FlattenAt | python/damask/grid_filters.py:215 | Flattening a [k][j][i] field (x fastest, z slowest) puts entry [k][j][i] at position (k·J + j)·I + i. This is the order `reshape` inverts. |
| Lattice.FlattenLength | python/damask/grid_filters.py:215 | A K x J x I field flattens to K·J·I points. |
| Lattice.FlattenMember | python/damask/grid_filters.py:215 | Every flattened point is some entry of the field. |
| Interpolation.BoxFilter | python/damask/grid_filters.py:314-328 | The eight-neighbour average shared by both directions keeps the shape of its field. |
| Interpolation.BoxFilterAt | python/damask/grid_filters.py:316-318 | Each averaged value is 0.125 times the sum of the eight periodically back-shifted neighbours (the rolls by 1 over every subset of the axes). |
| Interpolation.Cell2Node | python/damask/grid_filters.py:314-320 | The node field has one more layer than the cell field along every axis. |
| Interpolation.Cell2NodeAt | python/damask/grid_filters.py:314-320 | Node [k][j][i] is the eight-neighbour average at cell (k mod K, j mod J, i mod I). |
| Interpolation.Cell2NodeWrap | python/damask/grid_filters.py:320 | The padded last layer of every axis equals layer 0 (wrap padding). |
| Interpolation.Cell2NodeConstant | python/damask/grid_filters.py:314-320 | A constant cell field gives the same constant at every node. |
| Interpolation.Node2Cell | python/damask/grid_filters.py:322-328 | The cell field has one layer fewer than the node field along every axis. |
| Interpolation.Node2CellAt | python/damask/grid_filters.py:322-328 | As written, cell [k][j][i] is the eight-neighbour average at node (k, j, i), i.e. over nodes k-1 and k on each axis. |
| Interpolation.Node2CellConstant | python/damask/grid_filters.py:322-328 | A constant node field gives the same constant in every cell. |
| Interpolation.WrapAverage | python/damask/grid_filters.py:322-328 | As written, cell [0][0][0] of a node mesh averages the first and the last node. |
| Interpolation.Node2CellShifted | python/damask/grid_filters.py:328 | As written, with two or more cells along x, cell 0 of the node coordinates gets origin + size/2, which lies beyond the true first centre. |
| Interpolation.NodeMidpoint | python/damask/grid_filters.py:104-105 | Cell centre t is the midpoint of nodes t and t+1. |
| Interpolation.Node2CellCentred | python/damask/grid_filters.py:322-328 | Corrected: the cell field has one layer fewer than the node field along every axis. |
| Interpolation.Node2CellCentredAt | python/damask/grid_filters.py:322-328 | Corrected: cell [k][j][i] averages nodes k..k+1, j..j+1 and i..i+1. |
| Interpolation.MidpointMeshField | python/damask/grid_filters.py:322-328 | Corrected: for axes of midpoints, averaging a node mesh gives exactly the mesh of the midpoints. |
| Interpolation.Node2CellCentredCoords | python/damask/grid_filters.py:322-328 | Corrected: averaging the node coordinates gives exactly the cell-centre coordinates of the same grid, size and origin. |
| GridDna.Coords | python/damask/grid_filters.py:196 | The distinct values of one coordinate column are strictly increasing and are exactly the values of the column. They are non-empty for a non-empty input. |
| GridDna.MeshCoords | python/damask/grid_filters.py:196 | The distinct values of each column of a flattened mesh of increasing axes are those axes. |
| GridDna.CellDnaWith | python/damask/grid_filters.py:184-218 | For any regularity test: on success, the grid is positive and its product is the point count. With `ordered`, the input is exactly the flattened `cell_coord0` of the result. |
| GridDna.CellCoord0ToDna | python/damask/grid_filters.py:184-218 | On success, the grid is positive and its product is the point count. With `ordered`, the input is exactly the flattened `cell_coord0` of the result. |
| GridDna.CellAxisRecovery | python/damask/grid_filters.py:196-202 | From the centres of one axis, the extractor gets the count, the size and the origin back. A single cell gives size 0 and the cell centre as origin. |
| GridDna.CellDnaRoundTrip | python/damask/grid_filters.py:196-218 | Extracting the DNA of `cell_coord0(grid, size, origin)` succeeds. It returns (grid, size, origin) when every grid component is at least 2; a single-cell axis comes back with size 0. |
| GridDna.MissingPointRejected | python/damask/grid_filters.py:204-205 | With at least two cells along x and along y, a cell lattice with one point removed fails with the count error. |
| GridDna.NodeDnaWith | python/damask/grid_filters.py:330-360 | For any regularity test: on success, the product of grid+1 is the point count. With `ordered`, the input is exactly the flattened `node_coord0` of the result. |
| GridDna.NodeCoord0ToDna | python/damask/grid_filters.py:330-360 | On success, the product of grid+1 is the point count. With `ordered`, the input is exactly the flattened `node_coord0` of the result. |
| GridDna.NodeAxisRecovery | python/damask/grid_filters.py:342-347 | From the nodes of one axis, the extractor gets grid, size and origin back exactly. The nodes are the `linspace` the regularity test compares with. |
| GridDna.NodeDnaRoundTrip | python/damask/grid_filters.py:342-360 | Extracting the DNA of `node_coord0(grid, size, origin)` returns (grid, size, origin). |
| GridDna.NodeAxisRegularIsAxis | python/damask/grid_filters.py:352-354 | An axis that passes the node regularity test is the node axis of its own minimum, extent and count. |
| GridDna.Coord0Check | python/damask/grid_filters.py:220-231 | Acceptance implies the points are the flattened cell lattice of some grid, size and origin. |
| GridDna.Coord0CheckAccepts | python/damask/grid_filters.py:220-231 | Every cell lattice of positive size is accepted. |
| GridDna.SpacingParseCounterexample | python/damask/grid_filters.py:210-213 | As written, points with an unevenly spaced y axis are accepted (ordered off) and get a DNA; the corrected check rejects them. |
| GridDna.CellCoord0ToDnaChecked | python/damask/grid_filters.py:210-213 | Corrected: on success, the distinct values of every axis are the cell axis of the result. |
| GridDna.NodeCoord0ToDnaChecked | python/damask/grid_filters.py:352-355 | Corrected: on success, the distinct values of every axis are the node axis of the result. |
| Regrid.Outer | python/damask/grid_filters.py:369 | When every cell has the same deformation gradient F, the deformed box `outer` is F applied to the undeformed size; with the identity it is the size itself. |
| Regrid.HomogeneousAverage | python/damask/grid_filters.py:369 | The average of a field with one gradient in every cell is that gradient. |
| Regrid.WrapAxesAsWritten | python/damask/grid_filters.py:370-372 | As written, the loop moves all three coordinates of a point by the same amount. |
| Regrid.WrapAxes | python/damask/grid_filters.py:370-372 | Corrected, after the loop over the first n axes each coordinate has moved by 0 or by ±outer_d, and the coordinates of the axes not yet visited are unchanged. |
| Regrid.ShiftAll | python/damask/grid_filters.py:371-372 | As written, a selected point moves by the period in all three components. |
| Regrid.ShiftComponent | python/damask/grid_filters.py:371-372 | Corrected: only component d moves by the period, and the other two are unchanged. |
| Regrid.StepInside | python/damask/grid_filters.py:371-372 | A point already inside the box along d is left alone by both versions. |
| Regrid.WrapInsideUnchanged | python/damask/grid_filters.py:370-372 | A point inside the box is unchanged by the whole loop, as written or corrected. |
| Regrid.StepInBox | python/damask/grid_filters.py:371-372 | Corrected, a point within one period of the box along d lands in [0, outer_d]. It moves by 0 or by ±outer_d, and its other components are kept. |
| Regrid.WrapAxesInBox | python/damask/grid_filters.py:370-372 | Corrected, after the loop over the first n axes, a point near the box is inside it along each of those axes and unchanged along the rest. |
| Regrid.WrapCounterexample | python/damask/grid_filters.py:370-372 | In the unit box, (-0.5, 0.5, 0.5) is left outside the box as written, and lands at (0.5, 0.5, 0.5) corrected. |
| Regrid.RaiseAll | python/damask/grid_filters.py:371 | Every point is replaced by its raised version along d. |
| Regrid.LowerAll | python/damask/grid_filters.py:372 | Every point is replaced by its lowered version along d. |
| Regrid.WrapAsWritten | python/damask/grid_filters.py:370-372 | Every point is replaced by the as-written wrap over the three axes. |
| Regrid.Wrap | python/damask/grid_filters.py:370-372 | Every point is replaced by the corrected wrap over the three axes. |
| MaterialAdd.Leading | python/damask/_configmaterial.py:350-354 | N is at least 1 and at least every argument's leading dimension. It is attained by some argument unless it is 1. |
| MaterialAdd.Trailing | python/damask/_configmaterial.py:350-354 | n is at least 1 and at least every argument's second dimension (an 'O' cell is one quaternion). It is attained unless it is 1. |
| MaterialAdd.Dimensions | python/damask/_configmaterial.py:348-354 | The loop over the arguments computes exactly (N, n). |
| MaterialAdd.Blank | python/damask/_configmaterial.py:356 | There are N materials, each with n empty constituents. |
| MaterialAdd.FirstMisfit | python/damask/_configmaterial.py:363 | It finds nothing exactly when every argument broadcasts to (N, n). Otherwise it gives the first argument that does not, after which processing stops. |
| MaterialAdd.PutConstituents | python/damask/_configmaterial.py:366-367 | Constituent j of material i gets key k set to the broadcast entry [i, j], and nothing else. |
| MaterialAdd.PutKey | python/damask/_configmaterial.py:364-369 | Writing one key into all N materials is the specification `Put`, which keeps N materials with n constituents. |
| MaterialAdd.Build | python/damask/_configmaterial.py:356-369 | The nested loops build the new materials or stop at the first argument that cannot be broadcast. |
| MaterialAdd.MaterialAddTo | python/damask/_configmaterial.py:348-374 | The method computes the declarative result `Added` of adding the arguments to a copy of the configuration. |
| MaterialAdd.ShapedFacts | python/damask/_configmaterial.py:358-359 | The default 'v' keeps every given argument. It adds 'v' to the constituent keys and leaves the material-level keys alone. |
| MaterialAdd.FillFields | python/damask/_configmaterial.py:368-369 | A new material holds exactly the non-constituent keys, each taken from row i, column 0. |
| MaterialAdd.FillConstituent | python/damask/_configmaterial.py:366-367 | Constituent j of new material i holds exactly 'phase', 'O' and 'v' from entry [i, j]. |
| MaterialAdd.Added | python/damask/_configmaterial.py:348-374 | Adding fails only with a broadcast error. On success, there is a material list and the phase and homogenization definitions are unchanged. |
| MaterialAdd.AddedShape | python/damask/_configmaterial.py:348-374 | Adding fails exactly when some argument does not broadcast to (N, n). On success, the old materials are kept as a prefix and N new materials with n constituents follow. Phases and homogenizations are untouched. |
| MaterialAdd.AddedFill | python/damask/_configmaterial.py:371-374 | The new material list is the old one (or none) followed by the filled materials. |
| MaterialAdd.AddedEntries | python/damask/_configmaterial.py:358-369 | New material i holds exactly its row entries. Its constituent j holds its [i, j] entries, with v = 1/n when 'v' was not given. |
| MaterialRename.Rename | python/damask/_configmaterial.py:252-255 | Only the given key changes, and only when its value is in the mapping. A missing key or an unmapped value is skipped (the `KeyError` branch). |
| MaterialRename.MaterialRenamePhase | python/damask/_configmaterial.py:247-256 | The copy-and-rename loop computes `PhaseRenamed`, with the constituent filter as written. |
| MaterialRename.PhaseRenamed | python/damask/_configmaterial.py:247-256 | It fails only for a missing material list or missing constituents. On success, the number of materials and the definitions are unchanged. |
| MaterialRename.PhaseRenamedFrame | python/damask/_configmaterial.py:247-256 | It fails exactly when there is no material list or a selected material has no constituents. Otherwise only the 'phase' of selected, mapped constituents changes; counts, other keys, materials and definitions are unchanged. |
| MaterialRename.MaterialRenameHomogenization | python/damask/_configmaterial.py:276-283 | The copy-and-rename loop computes `HomogenizationRenamed`. |
| MaterialRename.HomogenizationRenamed | python/damask/_configmaterial.py:276-283 | It fails exactly when there is no material list. On success, the number of materials and the definitions are unchanged. |
| MaterialRename.HomogenizationRenamedFrame | python/damask/_configmaterial.py:276-283 | It fails exactly when there is no material list. Otherwise only the 'homogenization' of selected materials with a mapped name changes; everything else is unchanged. |
| MaterialRename.ConstituentListIgnored | python/damask/_configmaterial.py:253 | As written, any constituent list leaves the configuration unchanged. |
| MaterialRename.ConstituentListByIndex | python/damask/_configmaterial.py:253 | Corrected: constituent j of a selected material is renamed exactly when j is in the list. |
| MaterialRename.ConstituentFilterCounterexample | python/damask/_configmaterial.py:253 | Renaming phase A to B in constituent 0 does nothing as written, and yields B corrected. |
| MaterialComplete.CheckConstituents | python/damask/_configmaterial.py:164-173 | It reports whether every constituent has 'O' and 'phase', and returns the set of phase names used. |
| MaterialComplete.CheckDefinitions | python/damask/_configmaterial.py:175-183 | It reports whether every definition has the required key. |
| MaterialComplete.Complete | python/damask/_configmaterial.py:145-192 | A complete configuration defines at least one homogenization, since its first material names one that must be defined. |
| MaterialComplete.IsComplete | python/damask/_configmaterial.py:145-192 | It is true exactly when all of these hold: the three top-level keys exist; there is a material; every material names a homogenization; every constituent has 'O' and 'phase'; every phase has 'lattice' and every homogenization 'N_constituents'; and every referenced name is defined. |
| MaterialComplete.DefaultIncomplete | python/damask/_configmaterial.py:145-152 | A freshly created configuration is not complete. |
| MaterialTable.FirstOccurrences | python/damask/_configmaterial.py:93-94 | The kept row indices are increasing first occurrences, and every first occurrence is kept. |
| MaterialTable.FirstOccurrencesCover | python/damask/_configmaterial.py:93-94 | Every row equals some kept row. |
| MaterialTable.FirstOccurrencesDistinct | python/damask/_configmaterial.py:93-94 | Kept rows are pairwise different. |
| MaterialTable.KeptShape | python/damask/_configmaterial.py:95-97 | The kept columns are well formed, fit (N, 1) with N the number of distinct rows, and so give N = distinct rows and n = 1. |
| MaterialTable.FromTable | python/damask/_configmaterial.py:91-97 | It fails with the nothing-to-stack error exactly when there is no column. On success, the phase and homogenization definitions are the empty ones of a fresh configuration. |
| MaterialTable.FromTableMaterials | python/damask/_configmaterial.py:91-97 | `from_table` succeeds. New material u holds, under each column name, that column's value at the u-th kept row: in its single constituent for 'phase', 'O' and 'v', and at material level otherwise. |
| MaterialTable.FromTableDuplicateRows | python/damask/_configmaterial.py:93-97 | Three rows, two of them equal, give two materials. |
| GeomRenumber.HeaderErrors | processing/pre/geom_renumber.py:46-52 | There are no errors exactly when the grid is positive and the size is positive. Each complaint is present exactly when its condition fails. |
| GeomRenumber.GrainIDs | processing/pre/geom_renumber.py:65 | The grain indices are strictly increasing and are exactly the values that occur. |
| GeomRenumber.Renumber | processing/pre/geom_renumber.py:65-71 | The loop gives every cell the new index of its original value, and counts the distinct values. |
| GeomRenumber.NewIDIsPosition | processing/pre/geom_renumber.py:68-69 | The i-th distinct index becomes i+1. |
| GeomRenumber.NewIDRange | processing/pre/geom_renumber.py:65-71 | Every new index lies in 1..N, with N the number of distinct old indices. |
| GeomRenumber.NewIDOnto | processing/pre/geom_renumber.py:65-71 | Every value in 1..N is used by some cell. |
| GeomRenumber.NewIDOrder | processing/pre/geom_renumber.py:65-69 | Old a < b implies new a < new b. |
| GeomRenumber.NewHeader | processing/pre/geom_renumber.py:60-71 | The origin is reset to zero and the count is the new number of indices; grid, size and homogenization are kept. |
| GeomCanvas.DecodeInGrid | processing/pre/spectral_geomCanvas.py:146-148 | The cell of the i-th value is inside the grid exactly when i < a·b·c. |
| GeomCanvas.Decode | processing/pre/spectral_geomCanvas.py:146-148 | The x and y indices of the i-th value are always on the grid (only z can run off), and encoding the cell gives i back. |
| GeomCanvas.DecodeEncode | processing/pre/spectral_geomCanvas.py:146-148 | Cell to file position and back gives the same cell. |
| GeomCanvas.Read | processing/pre/spectral_geomCanvas.py:142-149 | More values than cells is an error. Otherwise every cell holds the value at its x-fastest file position, or 0 when the file is shorter. |
| GeomCanvas.MaxOf | processing/pre/spectral_geomCanvas.py:152 | The result is at least every element and equal to one of them. |
| GeomCanvas.Background | processing/pre/spectral_geomCanvas.py:152 | A positive fill is the background. Without one, the background exceeds every old index. |
| GeomCanvas.BackgroundIsNew | processing/pre/spectral_geomCanvas.py:152 | Without a positive fill, the background index differs from (exceeds) every old index. |
| GeomCanvas.BackgroundIsNext | processing/pre/spectral_geomCanvas.py:152 | Without a positive fill, the background is one more than some old index. |
| GeomCanvas.Range | processing/pre/spectral_geomCanvas.py:153-155 | `xrange(a, b)` holds exactly the integers in [a, b). |
| GeomCanvas.KeptRange | processing/pre/spectral_geomCanvas.py:153-158 | The kept indices of an axis are the interval [max(offset, 0), min(offset+box, extent)). Each kept x lies in the old grid, and x - offset lies in the new one. |
| GeomCanvas.ShowsWindow | processing/pre/spectral_geomCanvas.py:153-159 | A new cell shows an old one exactly when its shifted position is in the kept interval on all three axes. |
| GeomCanvas.CopyBlock | processing/pre/spectral_geomCanvas.py:159 | The block [lo, hi) of the old grid lands at position minus offset, and every other cell keeps its value. |
| GeomCanvas.Crop | processing/pre/spectral_geomCanvas.py:151-159 | It fails exactly when an axis keeps no index. Otherwise the new grid has the box shape; a cell inside the window holds the old value at position plus offset, and any other cell holds the background. |
| GeomCanvas.CroppedCell | processing/pre/spectral_geomCanvas.py:151-159 | Every cell of the new grid holds the background or the index of some old cell. |
| GeomCanvas.Paste | processing/pre/spectral_geomCanvas.py:151-159 | For a window that keeps an index on every axis, the new grid has the box shape and every cell holds its `CroppedCell` value. |
| GeomCanvas.CheckHeader | processing/pre/spectral_geomCanvas.py:116-121 | A header is used exactly when it has a resolution and a dimension. The resolution is checked first, so a header missing both is reported as missing its resolution. |
| GeomCanvas.NewHeader | processing/pre/spectral_geomCanvas.py:128-140 | It fails exactly when some component of the old resolution is zero (the division of lines 133-139). Otherwise the new header has the box as its resolution and keeps the homogenization. |
| GeomCanvas.PartialResolutionFails | processing/pre/spectral_geomCanvas.py:116-139 | Resolution (4, 0, 4) passes the header check, and the new header then fails with the zero-resolution error. |
| GeomCanvas.NewHeaderCellSize | processing/pre/spectral_geomCanvas.py:132-135 | With non-zero old and new resolutions, the new header exists and has the same cell size as the old grid. |
| GeomCanvas.NewHeaderCorners | processing/pre/spectral_geomCanvas.py:132-139 | New cell p sits where old cell p + offset sat. |
| GeomCanvas.NewHeaderIdentity | processing/pre/spectral_geomCanvas.py:128-139 | The same box at offset 0 gives back the old header. |
| GeomCanvas.Digits | processing/pre/spectral_geomCanvas.py:160 | A positive m has w digits: 10^(w-1) <= m < 10^w. |
| GeomCanvas.FormatWidth | processing/pre/spectral_geomCanvas.py:160 | It fails exactly when no old index is positive (`log10` of a non-positive maximum). Otherwise the width w is the digit count of the largest old index, and every old index is below 10^w. |
| GeomCanvas.WriteRows | processing/pre/spectral_geomCanvas.py:170-172 | The output has one row per (y, z), z outer and y inner, each row listing the x values in order. |
| GeomCanvas.RowsReadBack | processing/pre/spectral_geomCanvas.py:170-172 | Reading the written rows back with the same resolution gives every cell its value again. |
| Derivative.Derive | processing/post/addDerivative.py:16-35 | The result has the shape of `what`. Entry (i, j) is the slope of column j at row i: a forward difference at the first row, a backward one at the last, and the three-point formula in between. |
| Derivative.Slope | processing/post/addDerivative.py:23-33 | A constant column has slope 0 in every row, ends included. |
| Derivative.InteriorRow | processing/post/addDerivative.py:23-28 | Row i of the result gets the interior slope of every column, and every other row is unchanged. |
| Derivative.EndRows | processing/post/addDerivative.py:30-33 | The first and last rows get the one-sided slopes of every column, and the interior rows are unchanged. |
| Derivative.ThreePointConstant | processing/post/addDerivative.py:23-28 | The interior formula gives 0 on three equal values. |
| Derivative.Weights | processing/post/addDerivative.py:23-28 | The three interior weights sum to 0, take first moment 1 and take second moment 0 about c[i]. |
| Derivative.ThreePointQuadratic | processing/post/addDerivative.py:23-28 | On a parabola p·c² + q·c + r, the three-point formula gives its derivative 2p·c + q at the middle point. |
| Derivative.QuadraticInterior | processing/post/addDerivative.py:21-28 | For quadratic data, every interior row is the exact derivative. |
| Derivative.QuadraticEnds | processing/post/addDerivative.py:30-33 | For quadratic data, the end rows are the chord slopes p·(c0+c1) + q. |
| Derivative.LinearExact | processing/post/addDerivative.py:21-33 | For linear data, every row is the slope. |

## Left out

- The FFT operators of grid_filters.py and everything built on them: `curl`, `divergence`, `gradient`, the displacement fields and the deformed coordinates. The displacement terms of `regrid` (lines 365-367) are therefore absent; the wrap step starts from given points.
- The nearest-neighbour query of `regrid` (cKDTree, lines 374-375). It is a foreign library.
- `np.allclose`: every comparison is exact equality over `real`.
- Floating point: the model uses exact reals, so rounding, the order of evaluation and values such as 1/3 are not modelled.
- Interpolation.Cell2Node: scalar fields only. Vector and tensor fields are interpolated component by component in the source.
- Interpolation.Node2Cell: the node field needs at least one layer per axis; an empty array is not modelled.
- Regrid.Wrap: works on a flat array of points, not on the 4-D coordinate array; the wrap is the same for each point.
- WaveNumbers.Ks: requires a non-zero size on every axis. With first order it requires non-empty full axes, where the source fails on the index assignment.
- GridDna.CellCoord0ToDna: the `ordered` comparison and the regularity test are exact. Input that is close but not equal is rejected here and accepted by the source.
- `load`, `save`, `load_DREAM3D` and `is_valid` of the material configuration: file I/O, and orientation objects that are not part of this model.
- The order of dictionary keys and YAML output. Maps are unordered.
- MaterialAdd.MaterialAddTo: arguments are given as rectangular 2-D tables (a scalar is 1 x 1, a list of length L is L x 1). `util.shapeshifter` is not part of this model. An argument named 'constituents' and repeated names are excluded; Python keyword arguments rule out the latter anyway.
- MaterialAdd.MaterialAddTo: numpy's failure to broadcast is an error value, not an exception with a message.
- `Config.copy` is taken as a deep copy. The value semantics of the model make the receiver unchangeable.
- MaterialComplete.IsComplete: the printed messages are not modelled, only the verdict.
- MaterialTable.FromTableMaterials: `table.get` and `squeeze` are replaced by the columns themselves. Rows are compared as whole tuples of values, in the same way `np.unique(..., axis=0)` compares them.
- In geom_renumber.py: header parsing, `croak` messages, skipping a file, and the output width and layout (lines 96-98). `GeomRenumber.HeaderErrors` returns the complaints instead.
- GeomRenumber.Renumber: works on the flat list of cells. The relabelling is element-wise, so the 3-D shape does not matter.
- In spectral_geomCanvas.py:
  - option parsing;
  - taking a missing resolution from the header (lines 91-97);
  - ASCII header parsing;
  - the output number format and the `twoD` joining;
  - file rename and close.
- GeomCanvas.Read: requires a positive resolution, where the source divides by it. Fewer values than cells leave zeros, as in the source.
- GeomCanvas.Read: indices are unbounded integers. The source stores them in a 32-bit array (line 142), so values outside that range wrap around there.
- GeomCanvas.Crop: requires a non-empty old grid, where the source's `max()` would fail. A new box with a negative extent is not modelled.
- GeomCanvas.Crop: the new grid is a 32-bit array in the source (line 151), so a fill or a background `max()+1` beyond that range wraps around there; the model does not wrap.
- GeomCanvas.FormatWidth: `floor(log10(m) + 1)` is taken as the exact digit count of m; floating-point rounding of `log10` is not modelled. The width is not applied to the written rows.
- Derivative.Derive: requires at least two rows, and different coordinates at distance one and two. With fewer than two rows the source fails with an `IndexError` at lines 30-31. Equal coordinates there give infinities or NaN from float division, not an error.
- Derivative.Derive: works on exact reals. The source's result takes the dtype of `what` (line 18), so for an integer table the derivatives are truncated to integers there.

## Findings

| source | as written | input that shows it | evidently intended | confidence | as-written member | corrected member |
|---|---|---|---|---|---|---|
| python/damask/grid_filters.py:328 | `node_2_cell` keeps `c[:-1,:-1,:-1]`, so cell k averages nodes k-1 and k, and cell 0 wraps to the last node layer | the node coordinates of grid (2, 1, 1), size (1, 1, 1), origin 0: cell 0 gets x = 0.5 instead of 0.25 | keep `c[1:,1:,1:]`, so cell k averages nodes k and k+1, and node coordinates map to cell centres | not executed | Interpolation.Node2CellShifted | Interpolation.Node2CellCentredCoords |
| python/damask/grid_filters.py:371-372 | `c[np.where(c[...,d] < 0)] += outer[d]` selects whole points and shifts all three components | the point (-0.5, 0.5, 0.5) in the unit box stays at (-0.5, 0.5, 0.5) after the loop | shift only component d, so a point within one period of the box ends inside it: (0.5, 0.5, 0.5) | not executed | Regrid.WrapCounterexample | Regrid.WrapAxesInBox |
| python/damask/grid_filters.py:210-213 | `not A and B and C` reads as `(not A) and B and C`, so the error fires only when x is irregular and y and z are regular | centres with x axis {0.5, 1.5}, y axis {0.5, 1.0, 2.5}, z axis {0.5}, `ordered` off: accepted as grid (2, 3, 1), size (2, 3, 0) | raise when any axis is irregular (`not (A and B and C)`), as at lines 352-355 too | not executed | GridDna.SpacingParseCounterexample | GridDna.CellCoord0ToDnaChecked |
| python/damask/grid_filters.py:14-20 | `__ks` divides array axis 0 by `size[0]` and the half axis 2 by `size[2]`. Its callers (lines 37, 61, 81, 127) pass the array shape (z, y, x), while `size` is (x, y, z) | field shape (1, 1, 2) in a box of extent (1, 1, 2): the last x bin gets wave number 1/2 instead of 1 | divide array axis 0 by the z extent and axis 2 by the x extent | not executed | WaveNumbers.KsPairingCounterexample | WaveNumbers.KsIntendedBins |
| python/damask/_configmaterial.py:253 | `c not in constituent` compares the constituent dictionary with a list of indices, so any given list skips every constituent | one material with constituent {phase: A}, mapping {A: B}, `constituent=[0]`: nothing is renamed | select constituents by their index in the list | not executed | MaterialRename.ConstituentListIgnored | MaterialRename.ConstituentListByIndex |
