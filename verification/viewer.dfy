/** `feplot/_plotter.py`: the interactive viewer's bookkeeping. It keeps the animation frame counter,
    the scalar and component menus built from the reader's field summary, and the binding of one time
    step to the displayed mesh: deformed coordinates, active scalar component, colour range and the
    substep legend. Widgets, actors and the render window are reduced to the values they hold. */
module Viewer {
  import opened Errors
  import opened Arrays
  import opened Text
  import opened Xdmf

  // ---------------------------------------------------------------------------------------------
  // Animation

  /** `animate_frames`: the next value of the frame counter. */
  function AnimateFrames(current: int, stepCount: nat): (r: int)
    ensures 0 <= current <= stepCount ==> 0 <= r <= stepCount
    ensures current < stepCount ==> r == current + 1
    ensures current >= stepCount ==> r == 0
  {
    if current < stepCount then current + 1 else 0
  }

  /** The frame counter after `ticks` timer ticks. */
  function Frames(current: int, stepCount: nat, ticks: nat): int {
    if ticks == 0 then current else AnimateFrames(Frames(current, stepCount, ticks - 1), stepCount)
  }

  /** Ticking `a` then `b` times is ticking `a + b` times. */
  lemma {:induction false} FramesSplit(current: int, stepCount: nat, a: nat, b: nat)
    ensures Frames(current, stepCount, a + b) == Frames(Frames(current, stepCount, a), stepCount, b)
  {
    if b > 0 {
      FramesSplit(current, stepCount, a, b - 1);
      assert a + b - 1 == a + (b - 1);
    }
  }

  /** Below the last step the counter climbs by one per tick. */
  lemma {:induction false} FramesClimb(current: int, stepCount: nat, ticks: nat)
    requires 0 <= current && current + ticks <= stepCount
    ensures Frames(current, stepCount, ticks) == current + ticks
  {
    if ticks > 0 {
      FramesClimb(current, stepCount, ticks - 1);
    }
  }

  /** From the last step the counter wraps to 0. */
  lemma FramesWrap(current: int, stepCount: nat)
    requires 0 <= current <= stepCount
    ensures Frames(current, stepCount, stepCount - current + 1) == 0
  {
    FramesSplit(current, stepCount, stepCount - current, 1);
    FramesClimb(current, stepCount, stepCount - current);
  }

  /** The animation cycle has period exactly `stepCount + 1`: from any step the counter walks
      `..., stepCount, 0, 1, ...`, comes back after `stepCount + 1` ticks and not before. */
  lemma FramesPeriod(current: int, stepCount: nat)
    requires 0 <= current <= stepCount
    ensures Frames(current, stepCount, stepCount + 1) == current
    ensures forall t :: 0 < t <= stepCount ==> Frames(current, stepCount, t) != current
  {
    var up := stepCount - current + 1;
    FramesWrap(current, stepCount);
    FramesSplit(current, stepCount, up, current);
    FramesClimb(0, stepCount, current);
    assert up + current == stepCount + 1;
    forall t | 0 < t <= stepCount
      ensures Frames(current, stepCount, t) != current
    {
      if t < up {
        FramesClimb(current, stepCount, t);
      } else {
        FramesSplit(current, stepCount, up, t - up);
        FramesClimb(0, stepCount, t - up);
        assert t == up + (t - up);
      }
    }
  }

  // ---------------------------------------------------------------------------------------------
  // Menus

  /** A QComboBox: its items and the index of the current one (-1 when there is none). */
  datatype Combo = Combo(items: seq<string>, index: int) {
    /** `currentText()`: the empty string when no item is current. */
    function CurrentText(): string {
      if 0 <= index < |items| then items[index] else ""
    }
  }

  /** `clear()` */
  const Cleared := Combo([], -1)

  /** `addItems(xs)`: appended at the end; adding to an empty combo makes the first item current. */
  function AddItems(c: Combo, xs: seq<string>): Combo {
    Combo(c.items + xs, if |c.items| == 0 && |xs| > 0 then 0 else c.index)
  }

  /** `dict(zip(names, sizes))`: the pairs in order, a later repeated name overriding an earlier
      one, and the longer list cut to the shorter. */
  function ZipMap<K>(names: seq<K>, sizes: seq<nat>): (m: map<K, nat>)
    ensures forall i :: 0 <= i < |names| && i < |sizes| ==> names[i] in m
    ensures forall k :: k in m ==> k in names[..ZipLength(names, sizes)]
    ensures forall i :: 0 <= i < |names| && i < |sizes| && LastOccurrence(names, |sizes|, i) ==> m[names[i]] == sizes[i]
  {
    if |names| == 0 || |sizes| == 0 then map[]
    else
      var rest := ZipMap(names[1..], sizes[1..]);
      var m := map[names[0] := sizes[0]] + rest;
      assert forall k :: k in m ==> k in names[..ZipLength(names, sizes)] by {
        forall k | k in m
          ensures k in names[..ZipLength(names, sizes)]
        {
          if k != names[0] {
            var j :| 0 <= j < ZipLength(names[1..], sizes[1..]) && names[1..][j] == k;
            assert names[..ZipLength(names, sizes)][j + 1] == k;
          } else {
            assert names[..ZipLength(names, sizes)][0] == k;
          }
        }
      }
      assert forall i :: 0 <= i < |names| && i < |sizes| ==> names[i] in m by {
        forall i | 0 <= i < |names| && i < |sizes|
          ensures names[i] in m
        {
          if i > 0 {
            assert names[i] == names[1..][i - 1];
          }
        }
      }
      assert forall i :: 0 <= i < |names| && i < |sizes| && LastOccurrence(names, |sizes|, i) ==> m[names[i]] == sizes[i] by {
        forall i | 0 <= i < |names| && i < |sizes| && LastOccurrence(names, |sizes|, i)
          ensures m[names[i]] == sizes[i]
        {
          if i > 0 {
            assert names[i] == names[1..][i - 1] && sizes[i] == sizes[1..][i - 1];
            assert LastOccurrence(names[1..], |sizes[1..]|, i - 1);
          }
        }
      }
      m
  }

  /** How many pairs `zip` makes. */
  function ZipLength<A, B>(xs: seq<A>, ys: seq<B>): nat {
    if |xs| <= |ys| then |xs| else |ys|
  }

  /** `i` is the last position below `bound` where `names[i]` occurs. */
  predicate LastOccurrence<K(==)>(names: seq<K>, bound: nat, i: nat)
    requires i < |names|
  {
    forall j :: i < j < |names| && j < bound ==> names[j] != names[i]
  }

  /** The summary pairs every name with a size. */
  predicate Consistent(info: ScalarsInfo) {
    |info.pointNames| == |info.pointSizes| && |info.cellNames| == |info.cellSizes|
  }

  /** `data_size`: `dict(zip(point names, point sizes))` updated by the cell pairs, so a cell field
      overrides a point field of the same name. */
  function DataSize(info: ScalarsInfo): (m: map<string, nat>)
    ensures forall i :: 0 <= i < |info.pointNames| && i < |info.pointSizes| ==> info.pointNames[i] in m
    ensures forall i :: 0 <= i < |info.cellNames| && i < |info.cellSizes| ==> info.cellNames[i] in m
    ensures Consistent(info) ==> forall n :: n in m <==> n in info.pointNames || n in info.cellNames
    ensures forall i :: 0 <= i < |info.cellNames| && i < |info.cellSizes| && LastOccurrence(info.cellNames, |info.cellSizes|, i) ==>
              m[info.cellNames[i]] == info.cellSizes[i]
    ensures forall i :: 0 <= i < |info.pointNames| && i < |info.pointSizes| && info.pointNames[i] !in info.cellNames &&
                        LastOccurrence(info.pointNames, |info.pointSizes|, i) ==>
              m[info.pointNames[i]] == info.pointSizes[i]
  {
    var points := ZipMap(info.pointNames, info.pointSizes);
    var cells := ZipMap(info.cellNames, info.cellSizes);
    UpdateKeys(info.pointNames, points, info.cellNames, cells);
    UpdateValues(info.pointNames, info.pointSizes, points, info.cellNames, cells);
    points + cells
  }

  /** Keys of `points.update(cells)` when each map's keys are exactly its list of names. */
  lemma UpdateKeys<K>(pn: seq<K>, points: map<K, nat>, cn: seq<K>, cells: map<K, nat>)
    ensures (forall i :: 0 <= i < |pn| ==> pn[i] in points) && (forall k :: k in points ==> k in pn) &&
            (forall i :: 0 <= i < |cn| ==> cn[i] in cells) && (forall k :: k in cells ==> k in cn) ==>
            forall n :: n in points + cells <==> n in pn || n in cn
  {
  }

  /** A name from the first list that the second does not mention keeps its first-map value. */
  lemma UpdateValues<K>(pn: seq<K>, ps: seq<nat>, points: map<K, nat>, cn: seq<K>, cells: map<K, nat>)
    ensures (forall k :: k in cells ==> k in cn) &&
            (forall i :: 0 <= i < |pn| && i < |ps| && LastOccurrence(pn, |ps|, i) ==> pn[i] in points && points[pn[i]] == ps[i]) ==>
            forall i :: 0 <= i < |pn| && i < |ps| && pn[i] !in cn && LastOccurrence(pn, |ps|, i) ==> (points + cells)[pn[i]] == ps[i]
  {
  }

  /** The reader's summary is consistent. */
  lemma ScalarsInfoConsistent(reader: Reader)
    requires GetScalarsInfo(reader).Ok?
    ensures Consistent(GetScalarsInfo(reader).value)
  {
  }

  /** The menus and sizes `check_scalars` builds from a summary: the scalar menu lists the point
      fields then the cell fields with the first one current, `data_size` is the summary's, and
      nothing else changes. */
  function ShowSummary(s: State, info: ScalarsInfo): (r: State)
    ensures r.scalarCombo.items == info.pointNames + info.cellNames
    ensures r.scalarCombo.CurrentText() == if |info.pointNames + info.cellNames| > 0 then (info.pointNames + info.cellNames)[0] else ""
    ensures r.dataSize == DataSize(info)
    ensures r == s.(scalarCombo := r.scalarCombo, dataSize := r.dataSize)
  {
    s.(scalarCombo := AddItems(AddItems(Cleared, info.pointNames), info.cellNames), dataSize := DataSize(info))
  }

  /** `check_scalars`: the scalar menu is cleared before the reader is asked, so a failing reader
      leaves it empty; otherwise the menus show the reader's summary. */
  function CheckScalars(s: State, reader: Reader): (r: Partial<State>)
    ensures r.error.Some? <==> GetScalarsInfo(reader).Err?
    ensures GetScalarsInfo(reader).Err? ==> r == Partial(s.(scalarCombo := Cleared), Some(GetScalarsInfo(reader).error))
    ensures GetScalarsInfo(reader).Ok? ==> r == Partial(ShowSummary(s, GetScalarsInfo(reader).value), None)
  {
    match GetScalarsInfo(reader)
    case Err(e) => Partial(s.(scalarCombo := Cleared), Some(e))
    case Ok(info) => Partial(ShowSummary(s, info), None)
  }

  /** Component label `i` of `scalar`: the scalar name reduced to its letters `A`-`Z`, then `i` in
      decimal. */
  function Label(scalar: string, i: nat): string {
    UpperLetters(scalar) + Decimal(i)
  }

  /** The component index can be read back from its label, so the labels of one scalar are all
      different. */
  lemma LabelIndex(scalar: string, i: nat)
    ensures var l := Label(scalar, i);
            |UpperLetters(scalar)| <= |l| &&
            (forall c :: 0 <= c < |l| - |UpperLetters(scalar)| ==> IsDigit(l[|UpperLetters(scalar)|..][c])) &&
            DigitsValue(l[|UpperLetters(scalar)|..]) == i
  {
    var l := Label(scalar, i);
    assert l[|UpperLetters(scalar)|..] == Decimal(i);
    DecimalRoundTrip(i);
  }

  lemma LabelsDistinct(scalar: string, i: nat, j: nat)
    requires i != j
    ensures Label(scalar, i) != Label(scalar, j)
  {
    LabelIndex(scalar, i);
    LabelIndex(scalar, j);
  }

  /** `update_components`: nothing happens while `data_size` is empty; otherwise the component menu
      is rebuilt with one label per component of the current scalar, a scalar missing from
      `data_size` raising KeyError after the menu was cleared. */
  function UpdateComponents(s: State): (r: Partial<State>)
    ensures |s.dataSize| == 0 ==> r == Partial(s, None)
    ensures |s.dataSize| > 0 && s.scalarCombo.CurrentText() !in s.dataSize ==>
              r == Partial(s.(componentCombo := Cleared), Some(KeyError(s.scalarCombo.CurrentText())))
    ensures |s.dataSize| > 0 && s.scalarCombo.CurrentText() in s.dataSize ==>
              r.error.None? &&
              var scalar := s.scalarCombo.CurrentText();
              var items := r.state.componentCombo.items;
              && |items| == s.dataSize[scalar]
              && (forall i :: 0 <= i < |items| ==> items[i] == UpperLetters(scalar) + Decimal(i))
              && (forall i, j :: 0 <= i < j < |items| ==> items[i] != items[j])
              && r.state.componentCombo.index == if |items| > 0 then 0 else -1
    ensures r.state.scalarCombo == s.scalarCombo && r.state.dataSize == s.dataSize
  {
    if |s.dataSize| == 0 then Partial(s, None)
    else
      var scalar := s.scalarCombo.CurrentText();
      if scalar !in s.dataSize then Partial(s.(componentCombo := Cleared), Some(KeyError(scalar)))
      else
        var labels := seq(s.dataSize[scalar], i requires 0 <= i < s.dataSize[scalar] => Label(scalar, i));
        assert forall i, j :: 0 <= i < j < |labels| ==> labels[i] != labels[j] by {
          forall i, j | 0 <= i < j < |labels|
            ensures labels[i] != labels[j]
          {
            LabelsDistinct(scalar, i, j);
          }
        }
        Partial(s.(componentCombo := AddItems(Cleared, labels)), None)
  }

  // ---------------------------------------------------------------------------------------------
  // Loading a time step

  datatype Preference = PointPreference | CellPreference

  /** The mesh actor on screen: its coordinates, the scalar array bound to it, the scalar-bar title and
      the colour range last pushed to the scalar bar. */
  datatype Actor = Actor(
    points: Matrix,
    active: Option<(Preference, string, seq<real>)>,
    title: string,
    range: Option<(real, real)>)

  /** The viewer's state. `mesh` is `self.mesh`, the mesh object `read_xdmf` took from the reader.
      `loaded` is `self._mesh` (None until the first load): the first load binds it, and
      `self._undeformed_mesh`, to the object `self.mesh` names at that moment, and only the first
      load does, so after a later `read_xdmf` the two name different meshes. */
  datatype State = State(
    steps: seq<string>,
    currentSubstep: int,
    dataSize: map<string, nat>,
    scalarCombo: Combo,
    componentCombo: Combo,
    mesh: Matrix,
    loaded: Option<Matrix>,
    preference: Option<Preference>,
    scalars: Option<NdArray>,
    barTitle: string,
    legend: Option<string>,
    actor: Option<Actor>)

  /** Both meshes are 2-D arrays of coordinates. */
  predicate StateWellFormed(s: State) {
    Rectangular(s.mesh) && (s.loaded.Some? ==> Rectangular(s.loaded.value))
  }

  /** The points the next load adds the step's displacement to: `self.mesh` while nothing is drawn
      (the first load goes through `read_mesh`), `self._mesh` afterwards. */
  function Reference(s: State): Option<Matrix> {
    if s.actor.None? then Some(s.mesh) else s.loaded
  }

  /** All arrays a reader returns are well-formed numpy arrays. */
  predicate SampleWellFormed(sample: Sample) {
    && (forall i :: 0 <= i < |sample.pointData| ==> WellFormed(sample.pointData[i].1))
    && (forall i, b :: 0 <= i < |sample.cellData| && 0 <= b < |sample.cellData[i].1| ==> WellFormed(sample.cellData[i].1[b]))
  }

  predicate ReaderWellFormed(reader: Reader) {
    forall k :: 0 <= k < |reader| ==> SampleWellFormed(reader[k])
  }

  /** `reader.read_data(k)`: the reader indexes its list of steps like a Python list, so a negative
      `k` counts from the end and anything else out of range raises IndexError. */
  function ReadData(reader: Reader, k: int): (r: Result<Sample>)
    ensures r.Ok? <==> -|reader| <= k < |reader|
    ensures r.Err? ==> r.error == IndexError
    ensures 0 <= k < |reader| ==> r == Ok(reader[k])
    ensures r.Ok? ==> r.value in reader
  {
    if 0 <= k < |reader| then Ok(reader[k])
    else if -|reader| <= k < 0 then Ok(reader[|reader| + k])
    else Err(IndexError)
  }

  /** The active scalar of a step: point data first, then the first block of cell data. A name in
      neither leaves `scalars` unassigned and its next use raises UnboundLocalError. */
  function SelectScalars(sample: Sample, scalar: string): (r: Result<(Preference, NdArray)>)
    ensures scalar in Keys(sample.pointData) ==> r.Ok? && r.value.0 == PointPreference && (scalar, r.value.1) in sample.pointData
    ensures scalar !in Keys(sample.pointData) && scalar in Keys(sample.cellData) ==>
              match Get(sample.cellData, scalar)
              case Some(blocks) => if |blocks| == 0 then r == Err(IndexError) else r == Ok((CellPreference, blocks[0]))
              case None => false
    ensures scalar !in Keys(sample.pointData) && scalar !in Keys(sample.cellData) ==> r == Err(UnboundLocalError("scalars"))
  {
    match Get(sample.pointData, scalar)
    case Some(a) => Ok((PointPreference, a))
    case None =>
      match Get(sample.cellData, scalar)
      case Some(blocks) => if |blocks| == 0 then Err(IndexError) else Ok((CellPreference, blocks[0]))
      case None => Err(UnboundLocalError("scalars"))
  }

  /** A well-formed array as the 2-D array numpy lines up with the points when adding it to them: a
      1-D array of `m` entries broadcasts like one row of `m` columns (numpy aligns trailing axes), an
      array with more axes is taken as rows along its first axis. */
  function Rows(a: NdArray): (m: Matrix)
    requires WellFormed(a)
    ensures Rectangular(m)
    ensures |a.shape| == 1 ==> |m| == 1 && m[0] == a.flat
    ensures |a.shape| > 1 ==> |m| == a.shape[0] && (|m| > 0 ==> Cols(m) == RowSize(a))
  {
    if |a.shape| == 1 then [a.flat] else Chunk(a.flat, a.shape[0], RowSize(a))
  }

  /** Adding a 1-D displacement adds its entry `j` to coordinate `j` of every point. */
  lemma RowsOneAxis(points: Matrix, a: NdArray)
    requires Rectangular(points) && WellFormed(a) && |a.shape| == 1 && |a.flat| == Cols(points)
    ensures AddInPlace(points, Rows(a)).Ok?
    ensures forall i, j :: 0 <= i < |points| && 0 <= j < Cols(points) ==>
              AddInPlace(points, Rows(a)).value[i][j] == points[i][j] + a.flat[j]
  {
    var b := Rows(a);
    forall i, j | 0 <= i < |points| && 0 <= j < Cols(points)
      ensures AddInPlace(points, b).value[i][j] == points[i][j] + a.flat[j]
    {
      assert Broadcast(points, b, i, j) == b[0][if Cols(b) == 1 then 0 else j];
    }
  }

  /** The `Displacement` point field of a step. */
  function Displacement(sample: Sample): (r: Result<Matrix>)
    requires SampleWellFormed(sample)
    ensures r.Ok? <==> "Displacement" in Keys(sample.pointData)
    ensures r.Err? ==> r.error == KeyError("Displacement")
    ensures r.Ok? ==> Rectangular(r.value) && exists a :: ("Displacement", a) in sample.pointData && WellFormed(a) && r.value == Rows(a)
  {
    match Get(sample.pointData, "Displacement")
    case None => Err(KeyError("Displacement"))
    case Some(a) =>
      assert exists i :: 0 <= i < |sample.pointData| && sample.pointData[i] == ("Displacement", a);
      Ok(Rows(a))
  }

  function LegendText(k: int): string {
    "Substep: " + IntText(k)
  }

  /** The last part of `load_time(k)`, once the step, its scalar array and its displacement are
      known. The first time (no actor yet) `read_mesh` binds `self._mesh` to `self.mesh`, shifts it
      by the displacement and draws it; `shared` says whether the shift lands on that mesh object
      itself (as the source does, which also moves `self.mesh`) or on a copy. Later times the chosen
      component is bound to the actor, the colour range is that component's span, and the actor's
      points become `self._mesh`'s points plus the displacement (AttributeError while `self._mesh`
      is None). */
  function Draw(s: State, k: int, preference: Preference, scalar: string, scalars: NdArray, du: Matrix, shared: bool): (r: Partial<State>)
    requires StateWellFormed(s) && Rectangular(du) && WellFormed(scalars) && s.componentCombo.index >= 0
    ensures StateWellFormed(r.state)
    ensures r.state == s.(legend := r.state.legend, actor := r.state.actor, mesh := r.state.mesh, loaded := r.state.loaded)
    ensures !shared || s.actor.Some? || r.error.Some? ==> r.state.mesh == s.mesh
    ensures !shared ==> Reference(r.state) == Reference(s)
    ensures s.actor.Some? ==> r.state.loaded == s.loaded && r.state.actor.Some?
    ensures r.error.None? ==>
              && Reference(s).Some? && Broadcastable(Reference(s).value, du)
              && r.state.legend == Some(LegendText(k))
              && r.state.actor.Some? && r.state.actor.value.title == s.barTitle
              && AddInPlace(Reference(s).value, du) == Ok(r.state.actor.value.points)
              && (s.actor.None? && shared ==> r.state.mesh == r.state.actor.value.points && r.state.loaded == Some(r.state.mesh))
    ensures s.actor.Some? && s.loaded.None? && Reshape(scalars).Ok? && s.componentCombo.index < Cols(Reshape(scalars).value) ==>
              r.error == Some(AttributeError)
    ensures r.error.None? && s.actor.Some? ==>
              && r.state.actor.value.active.Some?
              && var data := r.state.actor.value.active.value.2;
                 && r.state.actor.value.active.value.0 == preference
                 && r.state.actor.value.active.value.1 == scalar
                 && |data| == scalars.shape[0] > 0
                 && Column(Reshape(scalars).value, s.componentCombo.index) == Ok(data)
                 && r.state.actor.value.range == Some((Min(data), Max(data)))
                 && Min(data) <= Max(data)
                 && forall i :: 0 <= i < |data| ==> Min(data) <= data[i] <= Max(data)
  {
    if s.actor.None? then
      var s0 := s.(loaded := Some(s.mesh));
      match AddInPlace(s.mesh, du)
      case Err(e) => Partial(s0, Some(e))
      case Ok(shifted) =>
        var s1 := s0.(actor := Some(Actor(shifted, None, s.barTitle, None)), legend := Some(LegendText(k)));
        Partial(if shared then s1.(mesh := shifted, loaded := Some(shifted)) else s1, None)
    else
      var s1 := s.(legend := Some(LegendText(k)));
      match Reshape(scalars)
      case Err(e) => Partial(s1, Some(e))
      case Ok(table) =>
        match Column(table, s.componentCombo.index)
        case Err(e) => Partial(s1, Some(e))
        case Ok(data) =>
          var actor := s.actor.value.(active := Some((preference, scalar, data)), title := s.barTitle,
                                      range := Some((Min(data), Max(data))));
          var s2 := s1.(actor := Some(actor));
          match s.loaded
          case None => Partial(s2, Some(AttributeError))
          case Some(base) =>
            match AddInPlace(base, du)
            case Err(e) => Partial(s2, Some(e))
            case Ok(points) => Partial(s2.(actor := Some(actor.(points := points))), None)
  }

  /** `load_time(k)`: with an empty component menu nothing changes; otherwise the counter becomes `k`
      (it is not clamped: a `k` the reader does not have raises IndexError after the counter moved),
      the scalar is looked up in point data then cell data, the bar title is the component's label,
      a step without `Displacement` raises KeyError, and the step is drawn. */
  function Load(s: State, k: int, reader: Reader, shared: bool): (r: Partial<State>)
    requires StateWellFormed(s) && ReaderWellFormed(reader)
    ensures StateWellFormed(r.state)
    ensures r.state == s.(currentSubstep := r.state.currentSubstep, preference := r.state.preference, scalars := r.state.scalars,
                          barTitle := r.state.barTitle, legend := r.state.legend, actor := r.state.actor, mesh := r.state.mesh,
                          loaded := r.state.loaded)
    ensures s.componentCombo.CurrentText() == "" ==> r == Partial(s, None)
    ensures s.componentCombo.CurrentText() != "" ==> r.state.currentSubstep == k
    ensures !shared ==> Reference(r.state) == Reference(s)
    ensures r.error.Some? || s.actor.Some? ==> r.state.mesh == s.mesh
    ensures s.actor.Some? ==> r.state.loaded == s.loaded
  {
    if s.componentCombo.CurrentText() == "" then Partial(s, None)
    else
      var s1 := s.(currentSubstep := k);
      match ReadData(reader, k)
      case Err(e) => Partial(s1, Some(e))
      case Ok(sample) =>
        var scalar := s.scalarCombo.CurrentText();
        match SelectScalars(sample, scalar)
        case Err(e) => Partial(s1, Some(e))
        case Ok((preference, scalars)) =>
          var s2 := s1.(preference := Some(preference), scalars := Some(scalars),
                        barTitle := s.componentCombo.CurrentText() + "\n ");
          match Displacement(sample)
          case Err(e) => Partial(s2, Some(e))
          case Ok(du) => Draw(s2, k, preference, scalar, scalars, du, shared)
  }

  /** `load_time(k)` as written: on the first call the mesh object `self.mesh` names is shifted. */
  function LoadTime(s: State, k: int, reader: Reader): (r: Partial<State>)
    requires StateWellFormed(s) && ReaderWellFormed(reader)
    ensures StateWellFormed(r.state)
    ensures r.state.componentCombo == s.componentCombo && r.state.scalarCombo == s.scalarCombo
    ensures r.error.Some? || s.actor.Some? || s.componentCombo.CurrentText() == "" ==> r.state.mesh == s.mesh
    ensures s.actor.Some? ==> r.state.loaded == s.loaded
    ensures s.componentCombo.CurrentText() == "" ==> r == Partial(s, None)
    ensures s.componentCombo.CurrentText() != "" ==> r.state.currentSubstep == k
  {
    Load(s, k, reader, true)
  }

  /** `load_time(k)` with the reference geometry kept apart from the drawn one: the points every
      load adds to stay what they were. */
  function LoadTimeFixed(s: State, k: int, reader: Reader): (r: Partial<State>)
    requires StateWellFormed(s) && ReaderWellFormed(reader)
    ensures StateWellFormed(r.state)
    ensures r.state.mesh == s.mesh && Reference(r.state) == Reference(s)
    ensures r.state.componentCombo == s.componentCombo && r.state.scalarCombo == s.scalarCombo
    ensures s.componentCombo.CurrentText() != "" ==> r.state.currentSubstep == k
  {
    Load(s, k, reader, false)
  }

  /** The reader has step `k` and the step has a displacement field. */
  predicate HasDisplacement(reader: Reader, k: int)
    requires ReaderWellFormed(reader)
  {
    ReadData(reader, k).Ok? && Displacement(ReadData(reader, k).value).Ok?
  }

  /** The displacement of step `k`, as numpy lines it up with the points. */
  function StepDisplacement(reader: Reader, k: int): (du: Matrix)
    requires ReaderWellFormed(reader) && HasDisplacement(reader, k)
    ensures Rectangular(du)
  {
    Displacement(ReadData(reader, k).value).value
  }

  /** What a successful load puts on screen: the reference points (as they were before the call)
      plus the step's displacement. */
  lemma LoadShows(s: State, k: int, reader: Reader, shared: bool)
    requires StateWellFormed(s) && ReaderWellFormed(reader)
    requires s.componentCombo.CurrentText() != ""
    ensures var r := Load(s, k, reader, shared);
            r.error.None? ==>
              && HasDisplacement(reader, k)
              && r.state.actor.Some? && Reference(s).Some?
              && AddInPlace(Reference(s).value, StepDisplacement(reader, k)) == Ok(r.state.actor.value.points)
              && (s.actor.None? && shared ==> r.state.mesh == r.state.actor.value.points && r.state.loaded == Some(r.state.mesh))
  {
    if Load(s, k, reader, shared).error.None? {
      var sample := ReadData(reader, k).value;
      var sel := SelectScalars(sample, s.scalarCombo.CurrentText());
      assert sel.Ok?;
      assert Displacement(sample).Ok?;
    }
  }

  /** The stages of a load in the source's order: the step is read, the scalar is looked up (a
      point field wins and sets preference `point`; otherwise the first block of a cell field, setting
      preference `cell`; a name in neither raises UnboundLocalError), the bar title is set, and only
      then is `Displacement` looked up. */
  lemma LoadTimeLookup(s: State, k: int, reader: Reader)
    requires StateWellFormed(s) && ReaderWellFormed(reader)
    requires s.componentCombo.CurrentText() != "" && 0 <= k < |reader|
    ensures var scalar := s.scalarCombo.CurrentText();
            var r := LoadTime(s, k, reader);
            var sample := reader[k];
            && (scalar in Keys(sample.pointData) ==> r.state.preference == Some(PointPreference))
            && (scalar !in Keys(sample.pointData) && scalar in Keys(sample.cellData) ==>
                  var blocks := Get(sample.cellData, scalar).value;
                  && (|blocks| > 0 ==> r.state.preference == Some(CellPreference) && r.state.scalars == Some(blocks[0]))
                  && (|blocks| == 0 ==> r == Partial(s.(currentSubstep := k), Some(IndexError))))
            && (scalar !in Keys(sample.pointData) && scalar !in Keys(sample.cellData) ==>
                  r == Partial(s.(currentSubstep := k), Some(UnboundLocalError("scalars"))))
            && (SelectScalars(sample, scalar).Ok? ==> r.state.barTitle == s.componentCombo.CurrentText() + "\n ")
            && (SelectScalars(sample, scalar).Ok? && "Displacement" !in Keys(sample.pointData) ==>
                  r.error == Some(KeyError("Displacement")) && r.state.actor == s.actor)
  {
  }

  /** A step the reader does not have raises IndexError, after the counter has moved to it. */
  lemma LoadTimeMissingStep(s: State, k: int, reader: Reader)
    requires StateWellFormed(s) && ReaderWellFormed(reader)
    requires s.componentCombo.CurrentText() != "" && (k >= |reader| || k < -|reader|)
    ensures LoadTime(s, k, reader) == Partial(s.(currentSubstep := k), Some(IndexError))
  {
  }

  /** As written, a load after the first one draws the step's displacement on top of the first
      step's: the first load shifted the loaded mesh itself, and later loads add to that mesh. */
  lemma LoadTimeCompounds(s: State, j: int, k: int, reader: Reader)
    requires StateWellFormed(s) && ReaderWellFormed(reader)
    requires s.componentCombo.CurrentText() != "" && s.actor.None?
    ensures var r1 := LoadTime(s, j, reader);
            var r2 := LoadTime(r1.state, k, reader);
            r1.error.None? && r2.error.None? ==>
              && HasDisplacement(reader, j) && HasDisplacement(reader, k)
              && var dj := StepDisplacement(reader, j);
                 var dk := StepDisplacement(reader, k);
                 var shown := r2.state.actor.value.points;
                 |dj| == |dk| == |s.mesh| && Cols(dj) == Cols(dk) == Cols(s.mesh) ==>
                   forall i, d :: 0 <= i < |s.mesh| && 0 <= d < Cols(s.mesh) ==>
                     shown[i][d] == s.mesh[i][d] + dj[i][d] + dk[i][d]
  {
    var r1 := LoadTime(s, j, reader);
    var r2 := LoadTime(r1.state, k, reader);
    if r1.error.None? && r2.error.None? {
      LoadShows(s, j, reader, true);
      LoadShows(r1.state, k, reader, true);
      var dj := StepDisplacement(reader, j);
      var dk := StepDisplacement(reader, k);
      if |dj| == |dk| == |s.mesh| && Cols(dj) == Cols(dk) == Cols(s.mesh) {
        AddInPlaceTwice(s.mesh, dj, dk);
      }
    }
  }

  /** With the reference geometry kept apart, every load draws the reference points plus that
      step's displacement alone, whatever was loaded before. */
  lemma LoadTimeFixedShowsStep(s: State, j: int, k: int, reader: Reader)
    requires StateWellFormed(s) && ReaderWellFormed(reader)
    requires s.componentCombo.CurrentText() != ""
    ensures var r1 := LoadTimeFixed(s, j, reader);
            var r2 := LoadTimeFixed(r1.state, k, reader);
            r2.error.None? ==>
              && HasDisplacement(reader, k) && Reference(s).Some?
              && AddInPlace(Reference(s).value, StepDisplacement(reader, k)) == Ok(r2.state.actor.value.points)
  {
    var r1 := LoadTimeFixed(s, j, reader);
    LoadShows(r1.state, k, reader, false);
  }

  lemma AddOneExample(x: real)
    ensures AddInPlace([[x]], [[1.0]]) == Ok([[x + 1.0]])
  {
    assert Cols([[x]]) == 1 && Cols([[1.0]]) == 1;
    assert Broadcast([[x]], [[1.0]], 0, 0) == 1.0;
    var r := AddInPlace([[x]], [[1.0]]).value;
    assert |r| == 1 && |r[0]| == 1 && r[0][0] == x + 1.0;
    assert r[0] == [x + 1.0];
    assert r == [[x + 1.0]];
  }

  /** A one-point mesh at 0 with a single step that moves it by 1, the `Displacement` field chosen. */
  function ExampleState(): State {
    State(["0"], 0, map["Displacement" := 1], Combo(["Displacement"], 0), Combo(["D0"], 0),
          [[0.0]], None, None, None, "", None, None)
  }

  function ExampleReader(): Reader {
    [Sample(0.0, [("Displacement", NdArray([1, 1], [1.0]))], [])]
  }

  /** The facts about the example reader the example lemmas use. */
  lemma ExampleReaderFacts()
    ensures ReaderWellFormed(ExampleReader())
    ensures Displacement(ExampleReader()[0]) == Ok([[1.0]])
    ensures SelectScalars(ExampleReader()[0], "Displacement") == Ok((PointPreference, NdArray([1, 1], [1.0])))
    ensures Reshape(NdArray([1, 1], [1.0])) == Ok([[1.0]])
    ensures Column([[1.0]], 0) == Ok([1.0])
  {
    var a := NdArray([1, 1], [1.0]);
    var reader := ExampleReader();
    assert RowSize(a) == 1 by {
      assert [1, 1][1..] == [1];
      assert [1][1..] == [];
    }
    assert ReaderWellFormed(reader);
    assert Get(reader[0].pointData, "Displacement") == Some(a);
    assert Chunk([1.0], 1, 1) == [[1.0]] by {
      assert [1.0][..1] == [1.0] && [1.0][1..] == [];
    }
    assert Column([[1.0]], 0) == Ok([1.0]) by {
      assert Cols([[1.0]]) == 1;
      var c := Column([[1.0]], 0).value;
      assert |c| == 1 && c[0] == 1.0;
      assert c == [1.0];
    }
  }

  /** Loading that step twice (opening the file, then reloading the same step) draws the point at 2
      as written, and at 1 with the reference geometry kept apart. */
  lemma LoadTimeTwiceExample()
    ensures ReaderWellFormed(ExampleReader()) && StateWellFormed(ExampleState())
    ensures var once := LoadTime(ExampleState(), 0, ExampleReader());
            var twice := LoadTime(once.state, 0, ExampleReader());
            twice.error.None? && twice.state.actor.Some? && twice.state.actor.value.points == [[2.0]]
    ensures var once := LoadTimeFixed(ExampleState(), 0, ExampleReader());
            var twice := LoadTimeFixed(once.state, 0, ExampleReader());
            twice.error.None? && twice.state.actor.Some? && twice.state.actor.value.points == [[1.0]]
  {
    var s := ExampleState();
    var reader := ExampleReader();
    ExampleReaderFacts();
    assert s.componentCombo.CurrentText() == "D0";
    AddOneExample(0.0);
    AddOneExample(1.0);
    var once := LoadTime(s, 0, reader);
    assert once.state.loaded == Some([[1.0]]);
    assert once.state.actor.Some?;
    var twice := LoadTime(once.state, 0, reader);
    assert twice.state.actor.value.points == [[2.0]];
    var fixedOnce := LoadTimeFixed(s, 0, reader);
    assert fixedOnce.state.loaded == Some([[0.0]]);
    var fixedTwice := LoadTimeFixed(fixedOnce.state, 0, reader);
    assert fixedTwice.state.actor.value.points == [[1.0]];
  }

  // ---------------------------------------------------------------------------------------------
  // Reloading and opening

  /** `update_data`: reload the current step. `self.reader` exists only once a file was opened
      (None here before that), and reading the missing attribute raises AttributeError. */
  function UpdateData(s: State, reader: Option<Reader>): (r: Partial<State>)
    requires StateWellFormed(s) && (reader.Some? ==> ReaderWellFormed(reader.value))
    ensures reader.None? ==> r == Partial(s, Some(AttributeError))
    ensures r.state.currentSubstep == s.currentSubstep
    ensures r.state.componentCombo == s.componentCombo && r.state.scalarCombo == s.scalarCombo
    ensures s.actor.Some? ==> r.state.mesh == s.mesh && r.state.loaded == s.loaded
  {
    match reader
    case None => Partial(s, Some(AttributeError))
    case Some(rd) => LoadTime(s, s.currentSubstep, rd)
  }

  /** A successful reload shows the current step: the points loads add to (as they were before the
      reload) plus the displacement of step `currentSubstep`. */
  lemma UpdateDataShowsCurrentStep(s: State, reader: Reader)
    requires StateWellFormed(s) && ReaderWellFormed(reader)
    requires s.componentCombo.CurrentText() != ""
    ensures var r := UpdateData(s, Some(reader));
            r.error.None? ==>
              && HasDisplacement(reader, s.currentSubstep) && Reference(s).Some?
              && AddInPlace(Reference(s).value, StepDisplacement(reader, s.currentSubstep)) == Ok(r.state.actor.value.points)
  {
    LoadShows(s, s.currentSubstep, reader, true);
  }

  /** `read_xdmf`, up to the load of step 0: take the reader's mesh and step list, then rebuild the
      menus; an error in one stage stops the sequence with the state as that stage left it. `reset`
      says whether what is on screen is dropped first. The slider range and the interpolation flag
      are widget settings and not modelled. */
  function Open(s: State, reader: Reader, meshPoints: Matrix, steps: seq<string>, reset: bool): (r: Partial<State>)
    requires StateWellFormed(s) && Rectangular(meshPoints)
    ensures StateWellFormed(r.state)
    ensures r.state.steps == steps && r.state.mesh == meshPoints
    ensures reset ==> r.state.actor.None? && r.state.loaded.None?
    ensures !reset ==> r.state.actor == s.actor && r.state.loaded == s.loaded
    ensures r.state.dataSize == CheckScalars(s.(mesh := meshPoints, steps := steps), reader).state.dataSize
    ensures GetScalarsInfo(reader).Err? ==> r.error == Some(GetScalarsInfo(reader).error) && r.state.scalarCombo == Cleared
    ensures GetScalarsInfo(reader).Ok? ==>
              && r.error.None?
              && r.state.scalarCombo == ShowSummary(s, GetScalarsInfo(reader).value).scalarCombo
              && r.state.componentCombo == UpdateComponents(CheckScalars(s, reader).state).state.componentCombo
  {
    var s0 := if reset then s.(actor := None, loaded := None) else s;
    var s1 := s0.(mesh := meshPoints, steps := steps);
    var checked := CheckScalars(s1, reader);
    if checked.error.Some? then checked
    else
      ReadXdmfComponents(s1, reader);
      UpdateComponents(checked.state)
  }

  /** `read_xdmf` as written: `self.mesh` is rebound, but `self._mesh` and the actor stay, so once
      something is drawn, step 0 is drawn on top of the previous file's loaded mesh. */
  function ReadXdmf(s: State, reader: Reader, meshPoints: Matrix, steps: seq<string>): (r: Partial<State>)
    requires StateWellFormed(s) && Rectangular(meshPoints) && ReaderWellFormed(reader)
    ensures StateWellFormed(r.state)
    ensures r.state.steps == steps
    ensures s.actor.Some? ==> r.state.mesh == meshPoints && r.state.loaded == s.loaded
    ensures GetScalarsInfo(reader).Err? ==> r.error == Some(GetScalarsInfo(reader).error) && r.state.scalarCombo == Cleared
    ensures GetScalarsInfo(reader).Ok? ==> r.state.scalarCombo == ShowSummary(s, GetScalarsInfo(reader).value).scalarCombo
    ensures GetScalarsInfo(reader).Ok? && r.state.componentCombo.CurrentText() != "" ==> r.state.currentSubstep == 0
  {
    var menus := Open(s, reader, meshPoints, steps, false);
    if menus.error.Some? then menus else LoadTime(menus.state, 0, reader)
  }

  /** `read_xdmf` corrected: what is on screen is dropped, so step 0 goes through `read_mesh` with
      the new mesh, and loads keep that mesh as their reference. */
  function ReadXdmfFixed(s: State, reader: Reader, meshPoints: Matrix, steps: seq<string>): (r: Partial<State>)
    requires StateWellFormed(s) && Rectangular(meshPoints) && ReaderWellFormed(reader)
    ensures StateWellFormed(r.state)
    ensures r.state.steps == steps && r.state.mesh == meshPoints
    ensures Reference(r.state) == Some(meshPoints)
    ensures GetScalarsInfo(reader).Err? ==> r.error == Some(GetScalarsInfo(reader).error) && r.state.scalarCombo == Cleared
    ensures GetScalarsInfo(reader).Ok? ==> r.state.scalarCombo == ShowSummary(s, GetScalarsInfo(reader).value).scalarCombo
    ensures GetScalarsInfo(reader).Ok? && r.state.componentCombo.CurrentText() != "" ==> r.state.currentSubstep == 0
  {
    var menus := Open(s, reader, meshPoints, steps, true);
    if menus.error.Some? then menus else LoadTimeFixed(menus.state, 0, reader)
  }

  /** Corrected, opening a file shows that file's mesh plus step 0's displacement, whatever was
      shown before. */
  lemma ReadXdmfFixedShowsNewMesh(s: State, reader: Reader, meshPoints: Matrix, steps: seq<string>)
    requires StateWellFormed(s) && Rectangular(meshPoints) && ReaderWellFormed(reader)
    ensures var r := ReadXdmfFixed(s, reader, meshPoints, steps);
            r.error.None? && r.state.componentCombo.CurrentText() != "" ==>
              HasDisplacement(reader, 0) && AddInPlace(meshPoints, StepDisplacement(reader, 0)) == Ok(r.state.actor.value.points)
  {
    var menus := Open(s, reader, meshPoints, steps, true);
    if menus.error.None? && menus.state.componentCombo.CurrentText() != "" {
      LoadShows(menus.state, 0, reader, false);
    }
  }

  /** As written, re-opening while a mesh is drawn shows step 0 of the new file on the previous
      file's loaded mesh. */
  lemma ReadXdmfShowsOldMesh(s: State, reader: Reader, meshPoints: Matrix, steps: seq<string>)
    requires StateWellFormed(s) && Rectangular(meshPoints) && ReaderWellFormed(reader)
    requires s.actor.Some?
    ensures var r := ReadXdmf(s, reader, meshPoints, steps);
            r.error.None? && r.state.componentCombo.CurrentText() != "" ==>
              && HasDisplacement(reader, 0) && s.loaded.Some?
              && AddInPlace(s.loaded.value, StepDisplacement(reader, 0)) == Ok(r.state.actor.value.points)
  {
    var menus := Open(s, reader, meshPoints, steps, false);
    if menus.error.None? && menus.state.componentCombo.CurrentText() != "" {
      LoadShows(menus.state, 0, reader, true);
    }
  }

  /** Opening the example file selects its one field and that field's one component. */
  lemma ExampleOpens(s: State, reset: bool)
    requires StateWellFormed(s)
    ensures var menus := Open(s, ExampleReader(), [[0.0]], ["0"], reset);
            && menus.error.None?
            && menus.state.scalarCombo.CurrentText() == "Displacement"
            && menus.state.componentCombo.index == 0
            && menus.state.componentCombo.CurrentText() != ""
  {
    var reader := ExampleReader();
    ExampleReaderFacts();
    var info := GetScalarsInfo(reader).value;
    assert info.pointNames == ["Displacement"] && info.cellNames == [];
    assert info.pointSizes == [1] by {
      assert [1, 1][1..] == [1];
      assert [1][1..] == [];
    }
    assert LastOccurrence(info.pointNames, |info.pointSizes|, 0);
    assert DataSize(info)["Displacement"] == 1;
  }

  /** Loading the example step adds 1 to a one-point reference at `x`, whether or not a mesh is
      already drawn. */
  lemma ExampleLoad(s: State, x: real, shared: bool)
    requires StateWellFormed(s) && Reference(s) == Some([[x]])
    requires s.scalarCombo.CurrentText() == "Displacement" && s.componentCombo.index == 0 && s.componentCombo.CurrentText() != ""
    ensures var r := Load(s, 0, ExampleReader(), shared);
            r.error.None? && r.state.actor.Some? && r.state.actor.value.points == [[x + 1.0]]
  {
    ExampleReaderFacts();
    AddOneExample(x);
    LoadShows(s, 0, ExampleReader(), shared);
  }

  /** The example file opened while a mesh at 5 is drawn: as written the point is drawn at 6, on
      the old mesh; corrected at 1, on the new one. */
  lemma ReopenExample()
    ensures var s := ExampleState().(mesh := [[5.0]], loaded := Some([[5.0]]), actor := Some(Actor([[5.0]], None, "", None)));
            && StateWellFormed(s) && ReaderWellFormed(ExampleReader())
            && var asWritten := ReadXdmf(s, ExampleReader(), [[0.0]], ["0"]);
               var fixed := ReadXdmfFixed(s, ExampleReader(), [[0.0]], ["0"]);
               && asWritten.error.None? && asWritten.state.actor.value.points == [[6.0]]
               && fixed.error.None? && fixed.state.actor.value.points == [[1.0]]
  {
    var s := ExampleState().(mesh := [[5.0]], loaded := Some([[5.0]]), actor := Some(Actor([[5.0]], None, "", None)));
    var reader := ExampleReader();
    ExampleReaderFacts();
    ExampleOpens(s, false);
    ExampleOpens(s, true);
    var kept := Open(s, reader, [[0.0]], ["0"], false);
    var reset := Open(s, reader, [[0.0]], ["0"], true);
    ExampleLoad(kept.state, 5.0, true);
    ExampleLoad(reset.state, 0.0, false);
  }

  /** Right after `check_scalars` the current scalar always has a size, so `update_components`
      cannot raise KeyError when a file is opened; with any field at all, the component menu is
      rebuilt for the first field. */
  lemma ReadXdmfComponents(s: State, reader: Reader)
    requires GetScalarsInfo(reader).Ok?
    ensures var info := GetScalarsInfo(reader).value;
            var names := info.pointNames + info.cellNames;
            var updated := UpdateComponents(CheckScalars(s, reader).state);
            && updated.error.None?
            && (|names| > 0 ==> |updated.state.componentCombo.items| == DataSize(info)[names[0]])
  {
    var info := GetScalarsInfo(reader).value;
    var names := info.pointNames + info.cellNames;
    var checked := CheckScalars(s, reader).state;
    ScalarsInfoConsistent(reader);
    if |names| > 0 {
      assert names[0] in info.pointNames || names[0] in info.cellNames;
      assert checked.scalarCombo.CurrentText() == names[0];
      assert names[0] in checked.dataSize;
    } else {
      assert |info.pointNames| == 0 && |info.cellNames| == 0;
      assert checked.dataSize.Keys == {};
    }
  }
}
