/** `feplot/helpers.py`: naming of scikit-fem mesh classes and the adaptation of a scikit-fem mesh
    to the points/cells/cell-type triple the plotters consume. */
module MeshTypes {
  import opened Errors
  import opened Arrays

  /** The static table from scikit-fem mesh class name to cell-type tag. */
  const MeshTypeMapping: map<string, string> := map[
    "MeshTet1" := "tetra_sk",
    "MeshTet2" := "tetra10",
    "MeshHex1" := "hexahedron_sk",
    "MeshHex2" := "hexahedron27",
    "MeshWedge1" := "wedge",
    "MeshTri1" := "triangle",
    "MeshTri2" := "triangle6",
    "MeshTri1DG" := "triangle",
    "MeshQuad1" := "quad",
    "MeshQuad2" := "quad9",
    "MeshLine1" := "line"
  ]

  /** `MESH_TYPE_MAPPING[name]`; a class missing from the table raises KeyError. */
  function CellTypeOf(className: string): (r: Result<string>)
    ensures r.Ok? <==> className in MeshTypeMapping
    ensures r.Err? ==> r.error == KeyError(className)
  {
    if className in MeshTypeMapping then Ok(MeshTypeMapping[className]) else Err(KeyError(className))
  }

  /** The table knows exactly eleven class names. */
  lemma MappingDomain()
    ensures MeshTypeMapping.Keys == {
              "MeshTet1", "MeshTet2", "MeshHex1", "MeshHex2", "MeshWedge1", "MeshTri1",
              "MeshTri2", "MeshTri1DG", "MeshQuad1", "MeshQuad2", "MeshLine1" }
  {
  }

  /** Linear tetrahedra and hexahedra get the scikit-fem node-ordering variants; quadratic ones get
      the 10- and 27-node tags. */
  lemma SolidTags()
    ensures CellTypeOf("MeshTet1") == Ok("tetra_sk") && CellTypeOf("MeshHex1") == Ok("hexahedron_sk")
    ensures CellTypeOf("MeshTet2") == Ok("tetra10") && CellTypeOf("MeshHex2") == Ok("hexahedron27")
  {
  }

  /** The table is not injective: two class names share the `triangle` tag. */
  lemma MappingNotInjective()
    ensures exists a, b :: a in MeshTypeMapping && b in MeshTypeMapping && a != b && MeshTypeMapping[a] == MeshTypeMapping[b]
  {
    assert MeshTypeMapping["MeshTri1"] == MeshTypeMapping["MeshTri1DG"] == "triangle";
  }

  // ---------------------------------------------------------------------------------------------
  // Extracting the class name from `str(type(mesh))`

  /** `s.rindex(c)`, or None where Python raises ValueError. */
  function LastIndexOf(s: string, c: char): (r: Option<nat>)
    ensures r.Some? ==> r.value < |s| && s[r.value] == c
    ensures r.Some? ==> forall i :: r.value < i < |s| ==> s[i] != c
    ensures r.None? ==> forall i :: 0 <= i < |s| ==> s[i] != c
  {
    if |s| == 0 then None
    else if s[|s| - 1] == c then Some(|s| - 1)
    else LastIndexOf(s[..|s| - 1], c)
  }

  /** Python slice `s[i:j]` with in-range non-negative bounds: empty when `j` is before `i`. */
  function Slice(s: string, i: nat, j: nat): string
    requires i <= |s| && j <= |s|
  {
    if i <= j then s[i..j] else ""
  }

  /** `type_[type_.rindex('.')+1:type_.rindex('\'')]`: the text strictly between the last `.` and
      the last `'` of a type's repr. */
  function ClassName(typeRepr: string): (r: Result<string>)
    ensures r.Ok? <==> '.' in typeRepr && '\'' in typeRepr
    ensures r.Err? ==> r.error == ValueError
    ensures r.Ok? ==> '.' !in r.value && |r.value| < |typeRepr|
  {
    match LastIndexOf(typeRepr, '.')
    case None => Err(ValueError)
    case Some(dot) =>
      match LastIndexOf(typeRepr, '\'')
      case None => Err(ValueError)
      case Some(quote) => Ok(Slice(typeRepr, dot + 1, quote))
  }

  /** What `str(type(mesh))` looks like for a class `name` defined in module `moduleName`. */
  function TypeRepr(moduleName: string, name: string): string {
    "<class '" + moduleName + "." + name + "'>"
  }

  /** The occurrence of `c` at `k` is the last one when none follows it. */
  lemma LastIndexOfAt(s: string, c: char, k: nat)
    requires k < |s| && s[k] == c
    requires forall i :: k < i < |s| ==> s[i] != c
    ensures LastIndexOf(s, c) == Some(k)
  {
  }

  /** The class name is recovered from the repr of any class whose name has no `.` and no `'`,
      whatever module (dotted or not) defines it. */
  lemma ClassNameOfRepr(moduleName: string, name: string)
    requires '.' !in name && '\'' !in name
    ensures ClassName(TypeRepr(moduleName, name)) == Ok(name)
  {
    var s := TypeRepr(moduleName, name);
    var dot := 8 + |moduleName|;
    var quote := dot + 1 + |name|;
    assert s[dot] == '.';
    assert s[quote] == '\'';
    assert forall i :: dot < i < |s| ==> s[i] != '.' by {
      forall i | dot < i < |s| ensures s[i] != '.' {
        if i < quote {
          assert s[i] == name[i - dot - 1];
        }
      }
    }
    assert forall i :: quote < i < |s| ==> s[i] != '\'';
    LastIndexOfAt(s, '.', dot);
    LastIndexOfAt(s, '\'', quote);
    assert s[dot + 1..quote] == name;
  }

  /** The scikit-fem triangle mesh class resolves to `MeshTri1` and so to the `triangle` tag. */
  lemma TriangleReprExample()
    ensures ClassName(TypeRepr("skfem.mesh", "MeshTri1")) == Ok("MeshTri1")
    ensures CellTypeOf("MeshTri1") == Ok("triangle")
  {
    ClassNameOfRepr("skfem.mesh", "MeshTri1");
  }

  // ---------------------------------------------------------------------------------------------
  // SKMesh

  /** The parts of a scikit-fem mesh the adapter reads: `doflocs` (one row per coordinate), `t`
      (one row per local vertex), and `str(type(mesh))`. */
  datatype SkfemMesh = SkfemMesh(doflocs: Matrix, t: seq<seq<nat>>, typeRepr: string)

  /** A mesh as the plotters consume it: one row per point, one row per cell, one cell-type tag. */
  datatype SKMesh = SKMesh(points: Matrix, cells: seq<seq<nat>>, cellType: string)

  /** `SKMesh(mesh)`: transpose the coordinate and connectivity arrays, then name the cell type;
      a repr without `.` or `'` raises ValueError and an unknown class raises KeyError. */
  function NewSKMesh(m: SkfemMesh): (r: Result<SKMesh>)
    requires Rectangular(m.doflocs) && Rectangular(m.t)
    ensures r.Ok? <==> ClassName(m.typeRepr).Ok? && ClassName(m.typeRepr).value in MeshTypeMapping
    ensures ClassName(m.typeRepr).Err? ==> r == Err(ValueError)
    ensures ClassName(m.typeRepr).Ok? && ClassName(m.typeRepr).value !in MeshTypeMapping ==>
              r == Err(KeyError(ClassName(m.typeRepr).value))
    ensures r.Ok? ==> r.value.cellType == MeshTypeMapping[ClassName(m.typeRepr).value]
    ensures r.Ok? ==> |r.value.points| == Cols(m.doflocs) && |r.value.cells| == Cols(m.t)
    ensures r.Ok? ==> forall i, d :: 0 <= i < |r.value.points| && 0 <= d < |m.doflocs| ==>
                        |r.value.points[i]| == |m.doflocs| && r.value.points[i][d] == m.doflocs[d][i]
    ensures r.Ok? ==> forall k, j :: 0 <= k < |r.value.cells| && 0 <= j < |m.t| ==>
                        |r.value.cells[k]| == |m.t| && r.value.cells[k][j] == m.t[j][k]
  {
    var points := Transpose(m.doflocs);
    var cells := Transpose(m.t);
    var name :- ClassName(m.typeRepr);
    var cellType :- CellTypeOf(name);
    Ok(SKMesh(points, cells, cellType))
  }
}
