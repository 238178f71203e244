# feplot, modelled in Dafny

feplot plots finite-element results. It has two front ends:
- a Qt/pyvista viewer (`_plotter.py`) for XDMF time series;
- a matplotlib plotter (`pylab.py`) for FElupe fields.

Under the GUI and plotting calls sits a small amount of pure logic, and this project models that logic and proves properties of it:

- **Mesh-type naming** (`helpers.py`): the table from scikit-fem class names to cell-type tags, the class name cut out of `str(type(mesh))`, and the transposes that adapt a scikit-fem mesh.
- **Field summary** (`_xdmf.py`): point- and cell-field names with their component counts, all taken from step 0.
- **Viewer bookkeeping** (`_plotter.py`):
  - the animation frame counter;
  - the scalar and component menus and the `data_size` table;
  - component labels;
  - the scalar lookup (point data first, then cell data);
  - component selection and the colour range;
  - the deformed coordinates shown for a step.
- **Primitive decomposition** (`tools.py`): one polygon per cell in 2-D. In 3-D, one polygon per convex-hull facet of each cell, with the per-facet value rows aligned to the polygons and one colour per facet.
- **Result plotting** (`pylab.py`):
  - keyword options;
  - the data refresh and the optional deformation of a copied mesh;
  - component selection (a negative component means the mean);
  - the 2-D/3-D dispatch;
  - the colour-bar span.
- **Helpers** (`_helpers.py`): in-place coordinate update and the icon path.

Modules:
- `Errors`: Python exceptions as error values, and `Partial` for a call that raises after changing some state.
- `Arrays`: the numpy subset that is used.
- `Text`: `re.sub('[^A-Z]', '', s)` and decimal formatting.
- `MeshTypes`: `helpers.py`.
- `Support`: `_helpers.py`.
- `Xdmf`: `_xdmf.py`.
- `Tools`: `tools.py`.
- `Viewer`: `_plotter.py`.
- `Pylab`: `pylab.py`.

Values are exact reals, arrays are sequences of rows, and names are strings.

A call that raises in Python returns `Err(e)`, or `Partial(state, Some(e))` when it had already changed state. `e` is named after the Python exception: KeyError, IndexError, ValueError, UnboundLocalError, AttributeError, TypeError, or QhullError for the hull. There are no custom error types.

Several inputs come from foreign code and are parameters here:
- **The convex hull** (scipy's Delaunay) is a function parameter `Hull`. It either fails or returns facets of three local indices below the cell size.
- **An XDMF reader** is the list of what `read_data(k)` returns for each step. The reader indexes its list of steps like a Python list.
- **A FElupe field** is its region mesh plus its displacement as `fem.project` returns it.

## Model

| member | source | states |
|---|---|---|
| MeshTypes.CellTypeOf | feplot/helpers.py:24-36 | the tag of a class name in the table; a name outside it raises KeyError naming the class |
| MeshTypes.MappingDomain | feplot/helpers.py:24-36 | the table is defined for exactly the eleven listed scikit-fem class names |
| MeshTypes.SolidTags | feplot/helpers.py:25-28 | linear tetrahedra and hexahedra get the `_sk` tags; quadratic ones get `tetra10` and `hexahedron27` |
| MeshTypes.MappingNotInjective | feplot/helpers.py:30-32 | two different class names (`MeshTri1`, `MeshTri1DG`) share the `triangle` tag |
| MeshTypes.LastIndexOf | feplot/helpers.py:45 | `rindex`: the position of the last occurrence, or none when the character does not occur (where Python raises ValueError) |
| MeshTypes.ClassName | feplot/helpers.py:44-45 | the slice between the last `.` and the last `'` exists exactly when both characters occur, otherwise ValueError; the name holds no `.` |
| MeshTypes.ClassNameOfRepr | feplot/helpers.py:44-45 | for any module path and any class name free of `.` and `'`, the class name is recovered from `<class 'module.Name'>` |
| MeshTypes.TriangleReprExample | feplot/helpers.py:44-45 | `<class 'skfem.mesh.MeshTri1'>` yields `MeshTri1` and hence `triangle` |
| MeshTypes.NewSKMesh | feplot/helpers.py:40-45 | points are the transposed `doflocs` and cells the transposed `t`, element by element; ValueError for a repr without `.`/`'`, KeyError for an unknown class |
| Arrays.Transpose | feplot/helpers.py:42-43 | `m.T`: entry `[i][j]` is `m[j][i]` and the dimensions swap |
| Arrays.TransposeInvolution | feplot/helpers.py:42-43 | transposing twice gives the array back when no dimension is 0 |
| Support.UpdateMesh | feplot/_helpers.py:30-33 | `points += du`: defined exactly when `du` broadcasts onto the points (else ValueError); the point count, dimension and cells are kept and each coordinate gains the broadcast displacement |
| Arrays.AddInPlace | feplot/_helpers.py:32 | numpy in-place addition: the shape of the left operand is kept; ValueError exactly when the right operand does not broadcast |
| Arrays.AddInPlaceUndo | feplot/_helpers.py:32 | adding a displacement and then its negation restores the coordinates |
| Support.UpdateMeshUndo | feplot/_helpers.py:30-33 | updating a mesh by `du` and then by `-du` gives the original mesh back |
| Arrays.AddInPlaceTwice | feplot/_plotter.py:273 | two successive in-place additions of same-shaped arrays add both |
| Support.IconFile | feplot/_helpers.py:25-28 | the path is the package directory, `\icons\`, the file name and `.png`, each at its place, with backslashes on every system |
| Support.IconFileInjective | feplot/_helpers.py:25-28 | different icon names give different paths |
| Xdmf.Get | feplot/_plotter.py:230-239 | a dict lookup finds a value exactly when the key is among the dict's keys, and the found pair is in the dict |
| Xdmf.FieldSizeExamples | feplot/_xdmf.py:42 | `_size` is 1 for a 1-D field, 3 for an `(n, 3)` field and 9 for an `(n, 3, 3)` field |
| Xdmf.FieldSizeCounts | feplot/_xdmf.py:42 | `_size` times the first dimension is the number of elements, so it is the component count per entry |
| Xdmf.CellSizes | feplot/_xdmf.py:46 | one size per cell field, each taken from the field's first block; a field without blocks raises IndexError |
| Xdmf.GetScalarsInfo | feplot/_xdmf.py:39-46 | point names and sizes are aligned by position and have equal length, the same holds for the cell lists, everything comes from step 0, and an empty reader raises IndexError |
| Xdmf.ScalarsInfoFromFirstStep | feplot/_xdmf.py:41 | two readers that agree on step 0 give the same summary |
| Viewer.AnimateFrames | feplot/_plotter.py:176-182 | below the last step the counter moves up by one, otherwise it wraps to 0; from a counter in `[0, len(steps)]` it stays in that range |
| Viewer.FramesPeriod | feplot/_plotter.py:176-182 | the animation counter returns to its value after exactly `len(steps) + 1` ticks and not earlier |
| Viewer.FramesSplit | feplot/_plotter.py:176-182 | ticking `a` then `b` times is ticking `a + b` times |
| Viewer.FramesClimb | feplot/_plotter.py:176-182 | below the last step the counter climbs by one per tick |
| Viewer.FramesWrap | feplot/_plotter.py:176-182 | from the last step the counter wraps to 0 |
| Viewer.ZipMap | feplot/_plotter.py:283 | `dict(zip(names, sizes))` holds every zipped name and nothing else, and maps a name to the size at its last occurrence |
| Viewer.DataSize | feplot/_plotter.py:283-285 | the `data_size` keys are the point names together with the cell names; a cell entry overrides a point entry of the same name |
| Viewer.ShowSummary | feplot/_plotter.py:282-285 | the scalar menu lists the point names then the cell names with the first current; nothing but the menu and `data_size` changes |
| Viewer.CheckScalars | feplot/_plotter.py:277-285 | the menu is cleared before the reader is asked, so a failing summary leaves it empty and the error propagates; otherwise the menus show the summary |
| Viewer.ScalarsInfoConsistent | feplot/_xdmf.py:43-46 | the reader's summary pairs every name with a size |
| Viewer.UpdateComponents | feplot/_plotter.py:287-294 | no change while `data_size` is empty; otherwise exactly `data_size[scalar]` labels, label `i` being the scalar's letters A-Z followed by decimal `i`, all distinct; an unknown scalar raises KeyError after the menu was cleared |
| Viewer.LabelIndex | feplot/_plotter.py:293-294 | the component index can be read back from the digits that follow the letters of its label |
| Viewer.LabelsDistinct | feplot/_plotter.py:293-294 | different component indices give different labels |
| Text.UpperLetters | feplot/_plotter.py:294 | `re.sub('[^A-Z]', '', s)` yields only upper-case letters, each taken from `s`, and is no longer than `s` |
| Text.UpperLettersFixpoint | feplot/_plotter.py:294 | the filter leaves a string unchanged exactly when the string is all upper-case letters |
| Text.UpperLettersIdempotent | feplot/_plotter.py:294 | filtering twice is filtering once |
| Text.UpperLettersAppend | feplot/_plotter.py:294 | the filter distributes over concatenation |
| Text.Decimal | feplot/_plotter.py:294 | the decimal form of `i` is a non-empty digit string without a leading zero (except for 0 itself) |
| Text.DecimalRoundTrip | feplot/_plotter.py:294 | reading the decimal digits of `n` back gives `n` |
| Text.DecimalInjective | feplot/_plotter.py:294 | different numbers have different decimal forms |
| Viewer.ReadData | feplot/_plotter.py:227 | the reader returns step `k` for `-len <= k < len` with Python list indexing and raises IndexError otherwise |
| Viewer.SelectScalars | feplot/_plotter.py:230-235 | a point field wins (preference `point`); otherwise the first block of the cell field (preference `cell`, IndexError without blocks); a name in neither raises UnboundLocalError for `scalars` |
| Viewer.Rows | feplot/_plotter.py:273 | how numpy lines a displacement up with the points: a 1-D array is one row of its entries, a 2-D array its rows |
| Viewer.RowsOneAxis | feplot/_plotter.py:273 | a 1-D displacement with one entry per coordinate adds its entry `j` to coordinate `j` of every point |
| Viewer.Displacement | feplot/_plotter.py:239 | the step's `Displacement` point field, lined up as numpy does, exactly when the step has one, otherwise KeyError |
| Viewer.Draw | feplot/_plotter.py:198-275 | the first load binds `self._mesh` to `self.mesh` before shifting (so it stays bound when the shift raises) and draws the shifted points, which as written become `self.mesh` and `self._mesh` too; later loads set the legend, bind column `_c` of the scalars reshaped to `(n, -1)` with colour range its `[min, max]`, raise AttributeError while `self._mesh` is unset, and draw `self._mesh`'s points plus the displacement; `self._mesh` is left alone by later loads |
| Viewer.Load | feplot/_plotter.py:222-275 | nothing changes when the component text is empty; otherwise the counter becomes `k` (not clamped), and the points a load adds to are kept when the shift does not land on the mesh itself |
| Viewer.LoadTime | feplot/_plotter.py:198-209 | as written: only a successful first load changes `self.mesh`; later loads keep `self._mesh`, the counter becomes `k` and both menus are kept |
| Viewer.LoadTimeFixed | feplot/_plotter.py:222-275 | corrected: no load changes `self.mesh` or the points loads add to |
| Viewer.LoadShows | feplot/_plotter.py:273 | a successful load draws the points it adds to (`self.mesh` on the first load, `self._mesh` after), as they were before the call, plus the step's displacement; as written the first load also moves `self.mesh` and `self._mesh` there |
| Viewer.LoadTimeLookup | feplot/_plotter.py:230-239 | a point field sets preference `point`; a cell-only field with a first block sets preference `cell` and that block as scalars whatever happens later, and one without blocks raises IndexError; a name in neither raises UnboundLocalError; after a found scalar the bar title is set, and a step without `Displacement` then raises KeyError with the actor untouched |
| Viewer.LoadTimeMissingStep | feplot/_plotter.py:226-227 | a step the reader lacks raises IndexError after the counter has already moved to it |
| Viewer.LoadTimeCompounds | feplot/_plotter.py:200-207 | as written, when a first load of step `j` and a later load of step `k` both succeed, the second draws reference + `d_j` + `d_k` |
| Viewer.LoadTimeFixedShowsStep | feplot/_plotter.py:273 | corrected, a successful load of step `k` draws reference + `d_k` whatever was loaded before |
| Viewer.LoadTimeTwiceExample | feplot/_plotter.py:198-209 | a point at 0.0 whose step moves it by 1.0 is drawn at 2.0 after a second load of that step as written, and at 1.0 corrected |
| Viewer.UpdateData | feplot/_plotter.py:296-299 | before any file is opened reading `self.reader` raises AttributeError; otherwise the current step is reloaded, keeping the counter, both menus and, once something is drawn, both meshes |
| Viewer.UpdateDataShowsCurrentStep | feplot/_plotter.py:296-299 | a successful reload draws the points loads add to plus the displacement of the current step |
| Viewer.Open | feplot/_plotter.py:211-217 | the new mesh and step list are installed, the menus are rebuilt from the summary (a failing summary stops there with an empty scalar menu), and what is drawn is kept unless reset |
| Viewer.ReadXdmf | feplot/_plotter.py:211-220 | as written: the menus are rebuilt, step 0 is loaded when there is a component, and once something is drawn `self._mesh` stays the previous file's |
| Viewer.ReadXdmfShowsOldMesh | feplot/_plotter.py:211-220 | as written, re-opening while something is drawn shows step 0's displacement added to the previous file's `self._mesh` |
| Viewer.ReadXdmfFixed | feplot/_plotter.py:211-220 | corrected: what is drawn is dropped, so the points loads add to are the new file's mesh |
| Viewer.ReadXdmfFixedShowsNewMesh | feplot/_plotter.py:211-220 | corrected, a successful open draws the new mesh plus step 0's displacement |
| Viewer.ReopenExample | feplot/_plotter.py:211-220 | opening the one-point example file while a mesh at 5.0 is drawn shows the point at 6.0 as written and at 1.0 corrected |
| Viewer.ReadXdmfComponents | feplot/_plotter.py:216-217 | right after the scalar menu is rebuilt, the current scalar has a size, so rebuilding the component menu never raises KeyError |
| Arrays.Reshape | feplot/_plotter.py:249-251 | `reshape(n, -1)`: `n` rows of the row size whose concatenation is the flat data; ValueError when `n` is 0 |
| Arrays.ReshapeAt | feplot/_plotter.py:249-251 | entry `[i][j]` of the reshaped array is flat element `i * rowSize + j` |
| Arrays.Column | feplot/_plotter.py:251 | `m[:, c]` has one value per row, the row's entry `c`; IndexError when `c` is not a column |
| Arrays.Span | feplot/pylab.py:87 | `[min, max]` with `min <= max`, both taken from the values and bounding every value; ValueError on no values |
| Arrays.Min | feplot/_plotter.py:272 | `min()` is one of the values and at most each of them |
| Arrays.Max | feplot/_plotter.py:272 | `max()` is one of the values and at least each of them |
| Arrays.MeanBetween | feplot/tools.py:51 | a mean lies between the smallest and the largest value averaged |
| Arrays.MeanWithin | feplot/tools.py:51 | a mean lies within any bounds that hold of all values averaged |
| Arrays.RowMeans | feplot/pylab.py:98-99 | `mean(-1)`: one mean per row, each between the row's min and max |
| Arrays.TakeCols | feplot/pylab.py:77 | `m[:, :k]` keeps every row's first `k` entries (all when fewer) |
| Tools.Quatplot | feplot/tools.py:28-34 | one polygon per cell, and vertex `j` of polygon `i` is `(u[cells[i][j]], v[cells[i][j]])`; ValueError for coordinate lists of different length, IndexError for an index out of range |
| Tools.SortIndices | feplot/tools.py:41 | `np.sort(cell)` is sorted and a permutation of the cell |
| Tools.SortedUnique | feplot/tools.py:41 | two sorted sequences with the same elements are equal |
| Tools.SortDependsOnMultiset | feplot/tools.py:41 | cells with the same index multiset sort to the same sequence |
| Tools.AllBelowPermutation | feplot/tools.py:41 | sorting does not change whether all indices are in range |
| Tools.Take | feplot/tools.py:41 | `a[idx]` has one entry per index, entry `j` being `a[idx[j]]` |
| Tools.CellPieces | feplot/tools.py:41-46 | IndexError for a cell index out of range of the points; for an in-range cell, a failing hull of its sorted points is a Qhull error, a value index out of range is IndexError, and otherwise piece `p` is hull facet `p` of the sorted cell: its vertex `j` is `points[s[f[j]]]` and its value `j` is `values[s[f[j]]]` for `s` the sorted cell and `f` the facet |
| Tools.CellPiecesOrderInsensitive | feplot/tools.py:41 | for a fixed hull, a cell's pieces depend only on its index multiset |
| Tools.ConcatOk | feplot/tools.py:40-46 | the loop over the cells succeeds exactly when every cell succeeds |
| Tools.ConcatFirstError | feplot/tools.py:40-46 | a failing loop fails with the error of a cell all of whose predecessors succeeded |
| Tools.ConcatAt | feplot/tools.py:44-46 | after a successful loop, piece `p` of cell `c` sits at position `p` after the pieces of the cells before `c` |
| Tools.ConcatStopsAtError | feplot/tools.py:40-46 | once a cell has failed, the later cells do not change the result |
| Tools.Decompose | feplot/tools.py:40-46 | every piece is a triangle: three vertices and three values |
| Tools.DecomposeFacets | feplot/tools.py:40-46 | the decomposition succeeds exactly when every cell does; then each cell's sorted points have a hull, and piece `p` of cell `c` (after the pieces of the earlier cells) is hull facet `p` of that cell, vertex and value taken from the same point index |
| Tools.DecomposeOk | feplot/tools.py:40-46 | the decomposition succeeds exactly when every cell does |
| Tools.DecomposeFacetAt | feplot/tools.py:44-46 | in a successful decomposition, piece `p` of cell `c` is hull facet `p` of that cell's sorted points, vertex and value from the same mesh point |
| Tools.DecomposeFirstError | feplot/tools.py:40-46 | a failing decomposition reports the error of the first failing cell |
| Tools.Polyplot | feplot/tools.py:36-58 | the decomposition's error propagates, and no facets at all raises AxisError; on success the pieces are the decomposition, with one colour per facet, the mean of its three values and between their min and max |
| Pylab.ApplyOptions | feplot/pylab.py:55-58 | each of `deformed`, `show_mesh`, `show_min_max`, `grid`, `n_ticks` given as a keyword overwrites the attribute; the others stay |
| Pylab.ApplyOptionsIdempotent | feplot/pylab.py:55-58 | applying the same keywords twice is applying them once, and no keywords change nothing |
| Pylab.LabelOf | feplot/pylab.py:59-62 | the colour-bar label is the `label` keyword, `?` without one |
| Pylab.SelectComponent | feplot/pylab.py:98-101 | negative component: the mean of every row; otherwise column `component` (IndexError past the last); one value per row |
| Pylab.SelectUniformRows | feplot/pylab.py:98-101 | where all components of every row are equal, the mean selection equals any column |
| Pylab.Deform | feplot/pylab.py:70-77 | without `deformed` the mesh is unchanged; with it the call succeeds exactly when the first `dim` displacement columns broadcast onto the points (else ValueError), and then they are added coordinate by coordinate for a same-shaped displacement |
| Pylab.DeformIgnoresExtraColumns | feplot/pylab.py:77 | displacement columns beyond the point dimension do not affect the result |
| Pylab.Prepare | feplot/pylab.py:55-77 | options are applied first; `update` takes the region's mesh, otherwise the stored data, which is missing (AttributeError) before any refresh; the data is then deformed |
| Pylab.PrepareWithoutUpdateReapplies | feplot/pylab.py:63-77 | a later call without `update` deforms the stored, already deformed points again |
| Pylab.Plot | feplot/pylab.py:51-134 | errors of the preparation and the selection propagate; in 3-D the decomposition's error propagates and no facets raises AxisError; in 2-D fewer than two coordinates raise IndexError and, with `show_mesh`, the outlines' error propagates; on success the 3-D path is taken exactly when the points have three coordinates, the figure holds the selected values, and the colour bar spans their `[min, max]` under the chosen label |
| Pylab.PlotDisplacement | feplot/pylab.py:136-146 | the data is refreshed from the region mesh before plotting, so the shown points are the region mesh deformed exactly once whatever was plotted before; the plotted values are the displacement's selected component; a `label` also among the extra keywords raises TypeError before anything changes, and an `update` or `values` among them raises TypeError after the refresh |

## Left out

- Qt widgets, the toolbar, slider, timer, menus and key events: UI plumbing. `update_slider` and the `interpolate_before_map` flag set in `read_xdmf` are widget settings.
- Signal connections are not modelled. In the application a change of menu text triggers `update_components` or `update_data`, and the model calls these directly.
- pyvista and vtk rendering: `add_mesh`, camera, legend box, anti-aliasing, `set_focus`, `update_view`. The actor is reduced to its points, the active scalar array, its title and its colour range. What `add_mesh` binds on the first load is not modelled, so the first-load actor records no active array and no range.
- matplotlib: figures, contour plots, colour-bar axes, tick locators, the `%.1e` min/max text and the view/grid helpers. These are plotting backend and float formatting.
- scipy's Delaunay and convex hull: the hull is a function parameter. matplotlib's `Triangulation`/`TriAnalyzer` are left out entirely, along with their own errors, for example too few points or values of the wrong length in the 2-D path.
- meshio reading, XML step lists and `get_mesh`/`get_steps`: foreign I/O. A reader is the list of its steps' data.
- `fem.project`: a foreign solver. A field carries its projected displacement.
- `entities.arrow_3d`, the tests and `setup.py`: trigonometric drawing code and scripts without assertions.
- `SKMesh.copy` and the mesh copies in `plot`/`plot_displacement`: values in the model are immutable, so a deep copy is the value itself. Modifying a copy cannot affect the original by construction.
- Arrays with 0 rows: a sequence of rows cannot remember numpy's column count, so such an array is taken to have 0 columns.
- Arrays.Mean: numpy's `nan` mean of an empty row has no exact-real counterpart.
- Pylab.SelectComponent requires every row to be non-empty for a negative component. numpy would give `nan` there.
- Pylab.Plot: the displacement, values and points are 2-D arrays. One-dimensional value arrays, which numpy would broadcast or reject differently, are not modelled. Python truthiness of non-boolean option values is not modelled either.
- Viewer.Draw: `self._mesh.points + Displacement` is modelled as an in-place addition onto the mesh's shape. A displacement that numpy would broadcast to a larger shape than the points is not modelled.
- Viewer.Draw: the dataset `add_mesh` draws is taken to be a separate object from `self._mesh`; pyvista is not part of this model. Were it the same object, every later load would also shift `self._mesh`.
- Viewer.Displacement: only 1-D and 2-D displacement arrays are modelled as numpy lines them up. An array with three or more axes is taken as rows along its first axis, where numpy would broadcast or reject it.
- Viewer.Draw: requires a non-negative component index. The viewer only gets there with non-empty component text, which implies a valid index.
- Viewer.ReadData: the reader's own behaviour beyond Python list indexing of its steps is not modelled.
- Values are exact reals, not IEEE doubles. Means and the colour bounds derived from them are exact here; numpy rounds, so its mean of `[0.1, 0.1, 0.1]` is `0.10000000000000002`. This affects Arrays.MeanBetween, Arrays.RowMeans, Pylab.SelectUniformRows and the colour bound in Tools.Polyplot, which hold for the exact means only. Likewise Arrays.AddInPlaceUndo, Support.UpdateMeshUndo and Pylab.PrepareWithoutUpdateReapplies are exact identities: in doubles `(0.1 + 0.2) - 0.2` is `0.10000000000000003`, and `(p + d) + d` need not equal `p + 2d`.
- Pylab.Prepare: `plot(update=False)` projects the new field's values onto the stored `self.data['region']` (pylab.py:73-74), while the model takes the new field's projected displacement as given.

## Findings

| source | as written | input that shows it | evidently intended | confidence | as-written member | corrected member |
|---|---|---|---|---|---|---|
| feplot/_plotter.py:198-209 | `read_mesh` shifts the loaded mesh object in place: `self._mesh`, `self._undeformed_mesh` and `self.mesh` are one object. Every later `load_time` then draws `self._mesh.points` plus the step's displacement (line 273), so the first step's displacement is counted twice | a one-point mesh at 0.0 whose only step has displacement 1.0: opening the file, then reloading step 0 (for example by changing the component), draws the point at 2.0 (Viewer.LoadTimeTwiceExample, Viewer.LoadTimeCompounds) | the drawn points are the reference points plus the displacement of the step shown (Viewer.LoadTimeFixedShowsStep) | not executed; high, since the three names are assigned the same object and `update_mesh` mutates it | Viewer.LoadTime | Viewer.LoadTimeFixed |
| feplot/_plotter.py:211-220 | `read_xdmf` rebinds `self.mesh` only. `self._mesh` is bound only in `read_mesh` (line 200), which runs only while no actor exists (line 240), so after a second file is opened every load draws the first file's `self._mesh` plus the new file's displacement | a mesh at 5.0 is drawn; opening a one-point file at 0.0 whose step 0 moves it by 1.0 draws the point at 6.0 (Viewer.ReopenExample, Viewer.ReadXdmfShowsOldMesh) | the new file's mesh plus its step-0 displacement, here 1.0 (Viewer.ReadXdmfFixedShowsNewMesh) | not executed; medium, since it holds whenever the actor survives a re-open, which nothing in the class resets | Viewer.ReadXdmf | Viewer.ReadXdmfFixed |
