/** `feplot/_helpers.py`: in-place coordinate update of a mesh, and icon path building. */
module Support {
  import opened Errors
  import opened Arrays

  /** The two fields of a meshio or felupe mesh the viewer touches. */
  datatype Mesh = Mesh(points: Matrix, cells: seq<seq<nat>>)

  /** `update_mesh(mesh, du)`: `mesh.points += du`, then the same mesh is returned. A `du` numpy
      cannot broadcast onto the points raises ValueError and leaves the mesh as it was. */
  function UpdateMesh(mesh: Mesh, du: Matrix): (r: Result<Mesh>)
    requires Rectangular(mesh.points) && Rectangular(du)
    ensures r.Ok? <==> Broadcastable(mesh.points, du)
    ensures r.Err? ==> r.error == ValueError
    ensures r.Ok? ==> r.value.cells == mesh.cells
    ensures r.Ok? ==> |r.value.points| == |mesh.points| && Rectangular(r.value.points)
    ensures r.Ok? ==> Cols(r.value.points) == Cols(mesh.points)
    ensures r.Ok? ==> forall i, j :: 0 <= i < |mesh.points| && 0 <= j < Cols(mesh.points) ==>
                        r.value.points[i][j] == mesh.points[i][j] + Broadcast(mesh.points, du, i, j)
  {
    var points :- AddInPlace(mesh.points, du);
    Ok(mesh.(points := points))
  }

  /** Updating by `du` and then by `-du` gives back the original mesh. */
  lemma UpdateMeshUndo(mesh: Mesh, du: Matrix)
    requires Rectangular(mesh.points) && Rectangular(du) && Broadcastable(mesh.points, du)
    ensures Rectangular(Negate(du)) && UpdateMesh(mesh, du).Ok?
    ensures UpdateMesh(UpdateMesh(mesh, du).value, Negate(du)) == Ok(mesh)
  {
    AddInPlaceUndo(mesh.points, du);
  }

  /** `icon_file(filename)`: the package directory, then `\icons\`, the name and `.png`. The
      separators are backslashes whatever the operating system; the package directory is a parameter
      because it comes from the file system. */
  function IconFile(packageDir: string, filename: string): (r: string)
    ensures |r| == |packageDir| + |filename| + 11
    ensures r[..|packageDir|] == packageDir
    ensures r[|packageDir|..|packageDir| + 7] == "\\icons\\"
    ensures r[|packageDir| + 7..|r| - 4] == filename
    ensures r[|r| - 4..] == ".png"
  {
    packageDir + "\\icons\\" + filename + ".png"
  }

  /** The icon name is what sits between the `\icons\` directory and the `.png` suffix, so different
      names give different paths. */
  lemma IconFileInjective(packageDir: string, a: string, b: string)
    requires IconFile(packageDir, a) == IconFile(packageDir, b)
    ensures a == b
  {
    var p := IconFile(packageDir, a);
    assert a == p[|packageDir| + 7..|p| - 4] == b;
  }
}
