/** `feplot/_xdmf.py`: the per-step data the XDMF time-series reader supplies, and the summary of its
    fields (names and component counts) the viewer builds its menus from. The reader itself (meshio,
    XML parsing) is not modelled: a reader is the list of what `read_data(k)` returns for each step. */
module Xdmf {
  import opened Errors
  import opened Arrays

  /** An insertion-ordered Python dict with string keys, as the list of its items. A dict never holds
      a key twice, so the first pair with a key is the only one; the type does not enforce this, and
      `Get` returns the first match. */
  type Dict<V> = seq<(string, V)>

  function Keys<V>(d: Dict<V>): (r: seq<string>)
    ensures |r| == |d| && forall i :: 0 <= i < |d| ==> r[i] == d[i].0
  {
    seq(|d|, i requires 0 <= i < |d| => d[i].0)
  }

  /** `d.get(k)`: the value stored under `k`, if any. */
  function Get<V>(d: Dict<V>, k: string): (r: Option<V>)
    ensures r.Some? <==> k in Keys(d)
    ensures r.Some? ==> (k, r.value) in d
  {
    if |d| == 0 then None
    else if d[0].0 == k then Some(d[0].1)
    else Get(d[1..], k)
  }

  /** What `read_data(k)` returns for one step: the time, the point fields (one array per name,
      first axis over points) and the cell fields (one array per cell block per name). */
  datatype Sample = Sample(time: real, pointData: Dict<NdArray>, cellData: Dict<seq<NdArray>>)

  /** The reader, as the samples of its steps in order. */
  type Reader = seq<Sample>

  /** The result of `get_scalars_info()`: point-field names with their sizes, and cell-field names
      with their sizes, each pair of lists aligned by position. */
  datatype ScalarsInfo = ScalarsInfo(
    pointNames: seq<string>, pointSizes: seq<nat>,
    cellNames: seq<string>, cellSizes: seq<nat>)

  /** `_size(v)`: the product of the dimensions after the first, i.e. the number of components per
      point or cell. A 1-D field has size 1 and an `(n, 3, 3)` field has size 9. */
  function FieldSize(v: NdArray): nat {
    RowSize(v)
  }

  lemma FieldSizeExamples(n: nat)
    ensures FieldSize(NdArray([n], [])) == 1
    ensures FieldSize(NdArray([n, 3], [])) == 3
    ensures FieldSize(NdArray([n, 3, 3], [])) == 9
  {
    assert [n, 3, 3][1..] == [3, 3];
    assert [n, 3][1..] == [3];
    assert [3, 3][1..] == [3];
    assert [3][1..] == [];
  }

  /** Every entry along the first axis holds `FieldSize` elements. */
  lemma FieldSizeCounts(v: NdArray)
    requires WellFormed(v)
    ensures v.shape[0] * FieldSize(v) == |v.flat|
  {
  }

  /** `[_size(v[0]) for v in cell_data.values()]`: sizes come from each field's first block; a field
      with no block raises IndexError. */
  function CellSizes(cellData: Dict<seq<NdArray>>): (r: Result<seq<nat>>)
    ensures r.Ok? <==> forall i :: 0 <= i < |cellData| ==> |cellData[i].1| > 0
    ensures r.Err? ==> r.error == IndexError
    ensures r.Ok? ==> |r.value| == |cellData|
    ensures r.Ok? ==> forall i :: 0 <= i < |cellData| ==> r.value[i] == FieldSize(cellData[i].1[0])
  {
    if |cellData| == 0 then Ok([])
    else if |cellData[0].1| == 0 then Err(IndexError)
    else
      var rest :- CellSizes(cellData[1..]);
      Ok([FieldSize(cellData[0].1[0])] + rest)
  }

  /** `get_scalars_info()`: everything is read from step 0 (an empty reader raises IndexError). */
  function GetScalarsInfo(reader: Reader): (r: Result<ScalarsInfo>)
    ensures r.Ok? <==> |reader| > 0 && forall i :: 0 <= i < |reader[0].cellData| ==> |reader[0].cellData[i].1| > 0
    ensures r.Err? ==> r.error == IndexError
    ensures r.Ok? ==> |r.value.pointNames| == |r.value.pointSizes| == |reader[0].pointData|
    ensures r.Ok? ==> forall i :: 0 <= i < |reader[0].pointData| ==>
                        r.value.pointNames[i] == reader[0].pointData[i].0 &&
                        r.value.pointSizes[i] == FieldSize(reader[0].pointData[i].1)
    ensures r.Ok? ==> |r.value.cellNames| == |r.value.cellSizes| == |reader[0].cellData|
    ensures r.Ok? ==> forall i :: 0 <= i < |reader[0].cellData| ==>
                        r.value.cellNames[i] == reader[0].cellData[i].0 &&
                        r.value.cellSizes[i] == FieldSize(reader[0].cellData[i].1[0])
  {
    if |reader| == 0 then Err(IndexError)
    else
      var sample := reader[0];
      var pointSizes := seq(|sample.pointData|, i requires 0 <= i < |sample.pointData| => FieldSize(sample.pointData[i].1));
      var cellSizes :- CellSizes(sample.cellData);
      Ok(ScalarsInfo(Keys(sample.pointData), pointSizes, Keys(sample.cellData), cellSizes))
  }

  /** Later steps play no part: two readers that agree on step 0 give the same summary. */
  lemma ScalarsInfoFromFirstStep(a: Reader, b: Reader)
    requires |a| > 0 && |b| > 0 && a[0] == b[0]
    ensures GetScalarsInfo(a) == GetScalarsInfo(b)
  {
  }
}
