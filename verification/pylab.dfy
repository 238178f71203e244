/** `feplot/pylab.py`: the result plotter for FElupe fields. A call applies the keyword options,
    refreshes its copy of the region mesh, deforms it by the projected displacement, selects one
    component (or the component mean) of the values, and dispatches to the 2-D path (contour plus
    cell outlines) or the 3-D path (hull facets), ending with a colour bar over the selected values.
    Figures are reduced to the data they are drawn from. */
module Pylab {
  import opened Errors
  import opened Arrays
  import opened Support
  import opened Tools

  // ---------------------------------------------------------------------------------------------
  // Options

  /** The plotter attributes the keyword options can overwrite. */
  datatype Settings = Settings(showMesh: bool, showMinMax: bool, deformed: bool, nTicks: int, grid: bool)

  /** The keyword arguments `plot` reads; a missing keyword is None. */
  datatype Keywords = Keywords(
    deformed: Option<bool>, showMesh: Option<bool>, showMinMax: Option<bool>,
    grid: Option<bool>, nTicks: Option<int>, labelText: Option<string>)

  const NoKeywords := Keywords(None, None, None, None, None, None)

  /** The option keywords overwrite the attribute of the same name; the others stay. */
  function ApplyOptions(s: Settings, kw: Keywords): (r: Settings)
    ensures r.deformed == kw.deformed.GetOr(s.deformed)
    ensures r.showMesh == kw.showMesh.GetOr(s.showMesh)
    ensures r.showMinMax == kw.showMinMax.GetOr(s.showMinMax)
    ensures r.grid == kw.grid.GetOr(s.grid)
    ensures r.nTicks == kw.nTicks.GetOr(s.nTicks)
  {
    Settings(kw.showMesh.GetOr(s.showMesh), kw.showMinMax.GetOr(s.showMinMax),
             kw.deformed.GetOr(s.deformed), kw.nTicks.GetOr(s.nTicks), kw.grid.GetOr(s.grid))
  }

  /** Options only overwrite: applying the same keywords again changes nothing, and no keywords
      leave the settings as they are. */
  lemma ApplyOptionsIdempotent(s: Settings, kw: Keywords)
    ensures ApplyOptions(ApplyOptions(s, kw), kw) == ApplyOptions(s, kw)
    ensures ApplyOptions(s, NoKeywords) == s
  {
  }

  /** The colour-bar label: the `label` keyword, `?` without one. */
  function LabelOf(kw: Keywords): (r: string)
    ensures kw.labelText.None? ==> r == "?"
    ensures kw.labelText.Some? ==> r == kw.labelText.value
  {
    kw.labelText.GetOr("?")
  }

  // ---------------------------------------------------------------------------------------------
  // Component selection and deformation

  /** `values.mean(-1)` for a negative component, `values[:, component]` otherwise. numpy gives nan
      for the mean of an empty row, so the mean is only taken over rows that have entries. */
  function SelectComponent(values: Matrix, component: int): (r: Result<seq<real>>)
    requires Rectangular(values)
    requires component < 0 ==> forall i :: 0 <= i < |values| ==> |values[i]| > 0
    ensures r.Ok? <==> component < 0 || component < Cols(values)
    ensures r.Err? ==> r.error == IndexError
    ensures r.Ok? ==> |r.value| == |values|
    ensures component >= 0 && r.Ok? ==> forall i :: 0 <= i < |values| ==> r.value[i] == values[i][component]
    ensures component < 0 ==> forall i :: 0 <= i < |values| ==>
              r.value[i] == Mean(values[i]) && Min(values[i]) <= r.value[i] <= Max(values[i])
  {
    if component < 0 then Ok(RowMeans(values)) else Column(values, component)
  }

  /** When every component of a row holds the same value, the mean selection and any single
      component agree. */
  lemma SelectUniformRows(values: Matrix, component: nat)
    requires Rectangular(values) && component < Cols(values)
    requires forall i, j :: 0 <= i < |values| && 0 <= j < |values[i]| ==> values[i][j] == values[i][0]
    ensures SelectComponent(values, -1) == SelectComponent(values, component)
  {
    var mean := SelectComponent(values, -1).value;
    var column := SelectComponent(values, component).value;
    forall i | 0 <= i < |values|
      ensures mean[i] == column[i]
    {
      MeanWithin(values[i], values[i][0], values[i][0]);
      assert values[i][component] == values[i][0];
    }
    assert mean == column;
  }

  /** `points[:, :dim] += du[:, :dim]` with `dim` the point dimension, when `deformed`: only the
      first `dim` displacement components are added; an unbroadcastable displacement raises
      ValueError and leaves the points alone. */
  function Deform(mesh: Mesh, du: Matrix, deformed: bool): (r: Result<Mesh>)
    requires Rectangular(mesh.points) && Rectangular(du)
    ensures !deformed ==> r == Ok(mesh)
    ensures r.Ok? <==> !deformed || Broadcastable(mesh.points, TakeCols(du, Cols(mesh.points)))
    ensures r.Err? ==> r.error == ValueError
    ensures r.Ok? ==> r.value.cells == mesh.cells && |r.value.points| == |mesh.points| &&
                      Rectangular(r.value.points) && Cols(r.value.points) == Cols(mesh.points)
    ensures deformed && |du| == |mesh.points| && Cols(du) >= Cols(mesh.points) ==>
              r.Ok? && forall i, j :: 0 <= i < |mesh.points| && 0 <= j < Cols(mesh.points) ==>
                r.value.points[i][j] == mesh.points[i][j] + du[i][j]
  {
    if deformed then UpdateMesh(mesh, TakeCols(du, Cols(mesh.points))) else Ok(mesh)
  }

  /** Displacement components beyond the point dimension play no part. */
  lemma DeformIgnoresExtraColumns(mesh: Mesh, du: Matrix, dv: Matrix, deformed: bool)
    requires Rectangular(mesh.points) && Rectangular(du) && Rectangular(dv)
    requires |du| == |dv| && Cols(du) >= Cols(mesh.points) && Cols(dv) >= Cols(mesh.points)
    requires forall i, j :: 0 <= i < |du| && 0 <= j < Cols(mesh.points) ==> du[i][j] == dv[i][j]
    ensures Deform(mesh, du, deformed) == Deform(mesh, dv, deformed)
  {
    var dim := Cols(mesh.points);
    var a := TakeCols(du, dim);
    var b := TakeCols(dv, dim);
    forall i | 0 <= i < |a|
      ensures a[i] == b[i]
    {
      assert |a[i]| == dim == |b[i]|;
    }
    assert a == b;
  }

  // ---------------------------------------------------------------------------------------------
  // The plotter

  /** A FElupe field as the plotter reads it: the region's mesh and the displacement projected to
      the mesh points (one row per point). */
  datatype Field = Field(mesh: Mesh, displacement: Matrix)

  predicate FieldWellFormed(field: Field) {
    Rectangular(field.mesh.points) && Rectangular(field.displacement)
  }

  /** What a figure is drawn from: in 2-D the points, the selected values and the cell outlines when
      the mesh is shown; in 3-D the hull decomposition and the selected values. */
  datatype Figure =
    | Figure2D(points: Matrix, values: seq<real>, outlines: Option<seq<seq<(real, real)>>>)
    | Figure3D(decomposition: Decomposition, values: seq<real>)

  /** The colour bar: its label, the `[min, max]` span, and whether the span is written under the
      label. */
  datatype Colorbar = Colorbar(text: string, span: (real, real), withMinMax: bool)

  /** `self.data` holds the plotter's own copy of the region mesh (None before the first refresh). */
  datatype Plotter = Plotter(settings: Settings, data: Option<Mesh>, figure: Option<Figure>, colorbar: Option<Colorbar>)

  /** `Plotter()`: mesh shown, min/max shown, deformed, 8 ticks, no grid, no data. */
  const NewPlotter := Plotter(Settings(true, true, true, 8, false), None, None, None)

  predicate PlotterWellFormed(p: Plotter) {
    p.data.Some? ==> Rectangular(p.data.value.points)
  }

  /** The mesh `plot` deforms: a fresh copy of the region mesh with `update`, the stored one
      otherwise. */
  function Source(p: Plotter, field: Field, update: bool): Option<Mesh> {
    if update then Some(field.mesh) else p.data
  }

  /** The first part of `plot`: options, label, data refresh and deformation. Without `update` and
      without earlier data, reading `points.shape` of the missing entry raises AttributeError. */
  function Prepare(p: Plotter, field: Field, update: bool, kw: Keywords): (r: Partial<Plotter>)
    requires FieldWellFormed(field) && PlotterWellFormed(p)
    ensures PlotterWellFormed(r.state)
    ensures r.state.settings == ApplyOptions(p.settings, kw)
    ensures r.state.figure == p.figure && r.state.colorbar == p.colorbar
    ensures Source(p, field, update).None? ==> r == Partial(p.(settings := ApplyOptions(p.settings, kw)), Some(AttributeError))
    ensures Source(p, field, update).Some? ==>
              match Deform(Source(p, field, update).value, field.displacement, ApplyOptions(p.settings, kw).deformed)
              case Ok(m) => r.error.None? && r.state.data == Some(m)
              case Err(e) => r.error == Some(e) && r.state.data == Source(p, field, update)
  {
    var settings := ApplyOptions(p.settings, kw);
    var p1 := p.(settings := settings, data := Source(p, field, update));
    match p1.data
    case None => Partial(p1, Some(AttributeError))
    case Some(mesh) =>
      match Deform(mesh, field.displacement, settings.deformed)
      case Err(e) => Partial(p1, Some(e))
      case Ok(m) => Partial(p1.(data := Some(m)), None)
  }

  /** Plotting again without `update` deforms the already deformed data once more: with a
      same-shaped displacement the stored points carry it twice. */
  lemma PrepareWithoutUpdateReapplies(p: Plotter, field: Field, kw: Keywords)
    requires FieldWellFormed(field) && PlotterWellFormed(p)
    requires ApplyOptions(p.settings, kw).deformed
    requires |field.displacement| == |field.mesh.points| && Cols(field.displacement) == Cols(field.mesh.points)
    ensures var once := Prepare(p, field, true, kw);
            var twice := Prepare(once.state, field, false, kw);
            && once.error.None? && twice.error.None?
            && forall i, j :: 0 <= i < |field.mesh.points| && 0 <= j < Cols(field.mesh.points) ==>
                 twice.state.data.value.points[i][j] == field.mesh.points[i][j] + 2.0 * field.displacement[i][j]
  {
    var once := Prepare(p, field, true, kw);
    var m1 := once.state.data.value;
    assert ApplyOptions(once.state.settings, kw) == once.state.settings;
    var twice := Prepare(once.state, field, false, kw);
    var m2 := twice.state.data.value;
    forall i, j | 0 <= i < |field.mesh.points| && 0 <= j < Cols(field.mesh.points)
      ensures m2.points[i][j] == field.mesh.points[i][j] + 2.0 * field.displacement[i][j]
    {
      assert m1.points[i][j] == field.mesh.points[i][j] + field.displacement[i][j];
    }
  }

  /** `plot(field, values, component, update, **kwds)`. After the preparation, the selected values
      go to the 3-D path when the points have three coordinates and to the 2-D path otherwise; the
      figure is recorded, and then the colour bar spans the selected values. */
  method Plot(p: Plotter, field: Field, values: Matrix, component: int, update: bool, kw: Keywords, hull: Hull)
    returns (r: Partial<Plotter>)
    requires FieldWellFormed(field) && PlotterWellFormed(p) && Rectangular(values) && HullWellFormed(hull)
    requires component < 0 ==> forall i :: 0 <= i < |values| ==> |values[i]| > 0
    ensures r.state.settings == ApplyOptions(p.settings, kw)
    ensures Prepare(p, field, update, kw).error.Some? ==> r == Prepare(p, field, update, kw)
    ensures Prepare(p, field, update, kw).error.None? && SelectComponent(values, component).Err? ==>
              r == Partial(Prepare(p, field, update, kw).state, Some(IndexError))
    ensures r.error.None? ==>
              && Prepare(p, field, update, kw).error.None?
              && r.state.data == Prepare(p, field, update, kw).state.data
              && SelectComponent(values, component).Ok?
              && var selected := SelectComponent(values, component).value;
                 var mesh := r.state.data.value;
                 && |selected| > 0
                 && r.state.figure.Some? && r.state.figure.value.values == selected
                 && (r.state.figure.value.Figure3D? <==> Cols(mesh.points) == 3)
                 && r.state.colorbar == Some(Colorbar(LabelOf(kw), (Min(selected), Max(selected)), r.state.settings.showMinMax))
    ensures r.error.None? && r.state.figure.value.Figure3D? ==>
              var mesh := r.state.data.value;
              Decompose(mesh.points, r.state.figure.value.values, mesh.cells, hull) == Ok(r.state.figure.value.decomposition.pieces)
    ensures Prepare(p, field, update, kw).error.None? && SelectComponent(values, component).Ok? ==>
              var mesh := Prepare(p, field, update, kw).state.data.value;
              var selected := SelectComponent(values, component).value;
              && (Cols(mesh.points) == 3 && Decompose(mesh.points, selected, mesh.cells, hull).Err? ==>
                    r.error == Some(Decompose(mesh.points, selected, mesh.cells, hull).error))
              && (Cols(mesh.points) == 3 && Decompose(mesh.points, selected, mesh.cells, hull) == Ok([]) ==>
                    r.error == Some(AxisError))
              && (Cols(mesh.points) < 2 ==> r.error == Some(IndexError))
              && (2 <= Cols(mesh.points) && Cols(mesh.points) != 3 && r.state.settings.showMesh &&
                  Quatplot(Column(mesh.points, 0).value, Column(mesh.points, 1).value, mesh.cells).Err? ==>
                    r.error == Some(Quatplot(Column(mesh.points, 0).value, Column(mesh.points, 1).value, mesh.cells).error))
    ensures r.error.None? && r.state.figure.value.Figure2D? ==>
              var mesh := r.state.data.value;
              && Cols(mesh.points) >= 2
              && r.state.figure.value.points == mesh.points
              && (r.state.figure.value.outlines.Some? <==> r.state.settings.showMesh)
              && (r.state.settings.showMesh ==>
                    Quatplot(Column(mesh.points, 0).value, Column(mesh.points, 1).value, mesh.cells) ==
                    Ok(r.state.figure.value.outlines.value))
  {
    var prepared := Prepare(p, field, update, kw);
    if prepared.error.Some? {
      return prepared;
    }
    var q := prepared.state;
    var mesh := q.data.value;
    var selection := SelectComponent(values, component);
    if selection.Err? {
      return Partial(q, Some(selection.error));
    }
    var selected := selection.value;
    var figure: Figure;
    if Cols(mesh.points) == 3 {
      var d := Polyplot(mesh.points, mesh.cells, selected, hull);
      if d.Err? {
        return Partial(q, Some(d.error));
      }
      figure := Figure3D(d.value, selected);
    } else {
      if Cols(mesh.points) < 2 {
        return Partial(q, Some(IndexError));
      }
      var outlines: Option<seq<seq<(real, real)>>> := None;
      if q.settings.showMesh {
        var e := Quatplot(Column(mesh.points, 0).value, Column(mesh.points, 1).value, mesh.cells);
        if e.Err? {
          return Partial(q, Some(e.error));
        }
        outlines := Some(e.value);
      }
      figure := Figure2D(mesh.points, selected, outlines);
    }
    var drawn := q.(figure := Some(figure));
    var span := Span(selected);
    if span.Err? {
      return Partial(drawn, Some(span.error));
    }
    r := Partial(drawn.(colorbar := Some(Colorbar(LabelOf(kw), span.value, q.settings.showMinMax))), None);
  }

  /** `plot_displacement(field, label, component, **kwds)`: the data is refreshed from a fresh copy
      of the region mesh, then the projected displacement itself is plotted without a further
      refresh. `label` is a parameter of its own, so a `label` among the extra keywords means it was
      passed twice: Python raises TypeError while binding the arguments, before the body runs.
      `duplicate` says whether the extra keywords hold `update` or `values`, which clash with the
      arguments the body passes to `plot` and raise TypeError there, after the refresh. Since the
      data is refreshed first, the shown geometry is the region mesh deformed once, whatever was
      plotted before. */
  method PlotDisplacement(p: Plotter, field: Field, caption: string, component: int, kw: Keywords, duplicate: bool, hull: Hull)
    returns (r: Partial<Plotter>)
    requires FieldWellFormed(field) && PlotterWellFormed(p) && HullWellFormed(hull)
    requires component < 0 ==> forall i :: 0 <= i < |field.displacement| ==> |field.displacement[i]| > 0
    ensures kw.labelText.Some? ==> r == Partial(p, Some(TypeError))
    ensures kw.labelText.None? && duplicate ==> r == Partial(p.(data := Some(field.mesh)), Some(TypeError))
    ensures r.error.None? ==>
              && Deform(field.mesh, field.displacement, r.state.settings.deformed).Ok?
              && r.state.data == Some(Deform(field.mesh, field.displacement, r.state.settings.deformed).value)
              && r.state.figure.Some?
              && SelectComponent(field.displacement, component).Ok?
              && r.state.figure.value.values == SelectComponent(field.displacement, component).value
              && r.state.colorbar.Some? && r.state.colorbar.value.text == caption
  {
    if kw.labelText.Some? {
      return Partial(p, Some(TypeError));
    }
    var refreshed := p.(data := Some(field.mesh));
    if duplicate {
      return Partial(refreshed, Some(TypeError));
    }
    r := Plot(refreshed, field, field.displacement, component, false, kw.(labelText := Some(caption)), hull);
  }
}
