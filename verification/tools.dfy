/** `feplot/tools.py`: decomposition of a mesh into drawable polygons. `quatplot` draws one polygon
    per 2-D cell; `polyplot` draws the convex-hull facets of every 3-D cell, with one value row per
    facet. The convex hull (scipy's Delaunay) is a parameter: any function from a cell's points to
    triangles of local indices, or None where Qhull fails on a degenerate cell. */
module Tools {
  import opened Errors
  import opened Arrays

  // ---------------------------------------------------------------------------------------------
  // Sorting a cell's point indices (`np.sort(cell)`)

  predicate Sorted(s: seq<nat>) {
    forall i, j :: 0 <= i < j < |s| ==> s[i] <= s[j]
  }

  function Insert(x: nat, s: seq<nat>): (r: seq<nat>)
    requires Sorted(s)
    ensures Sorted(r)
    ensures multiset(r) == multiset(s) + multiset{x}
  {
    if |s| == 0 then [x]
    else if x <= s[0] then [x] + s
    else
      var t := Insert(x, s[1..]);
      assert s == [s[0]] + s[1..];
      assert forall k :: 0 <= k < |t| ==> s[0] <= t[k] by {
        forall k | 0 <= k < |t|
          ensures s[0] <= t[k]
        {
          assert t[k] in multiset(t);
          if t[k] != x {
            assert t[k] in multiset(s[1..]);
            var j :| 0 <= j < |s[1..]| && s[1..][j] == t[k];
            assert s[j + 1] == t[k];
          }
        }
      }
      [s[0]] + t
  }

  /** `np.sort(cell)`: the same indices in ascending order. */
  function SortIndices(s: seq<nat>): (r: seq<nat>)
    ensures Sorted(r)
    ensures multiset(r) == multiset(s)
  {
    if |s| == 0 then []
    else
      assert s == [s[0]] + s[1..];
      Insert(s[0], SortIndices(s[1..]))
  }

  /** There is only one sorted arrangement of a multiset of indices. */
  lemma {:induction false} SortedUnique(a: seq<nat>, b: seq<nat>)
    requires Sorted(a) && Sorted(b) && multiset(a) == multiset(b)
    ensures a == b
    decreases |a|
  {
    assert |a| == |multiset(a)| == |multiset(b)| == |b|;
    if |a| > 0 {
      assert a[0] in multiset(b) && b[0] in multiset(a);
      assert b[0] <= a[0] by {
        var j :| 0 <= j < |b| && b[j] == a[0];
      }
      assert a[0] <= b[0] by {
        var j :| 0 <= j < |a| && a[j] == b[0];
      }
      assert a == [a[0]] + a[1..];
      assert b == [b[0]] + b[1..];
      assert multiset(a) == multiset{a[0]} + multiset(a[1..]);
      assert multiset(b) == multiset{b[0]} + multiset(b[1..]);
      assert multiset(a[1..]) == multiset(a) - multiset{a[0]};
      assert multiset(b[1..]) == multiset(b) - multiset{b[0]};
      SortedUnique(a[1..], b[1..]);
    }
  }

  /** The sorted indices depend only on the multiset of a cell's indices, not on their order. */
  lemma SortDependsOnMultiset(c1: seq<nat>, c2: seq<nat>)
    requires multiset(c1) == multiset(c2)
    ensures SortIndices(c1) == SortIndices(c2)
  {
    SortedUnique(SortIndices(c1), SortIndices(c2));
  }

  // ---------------------------------------------------------------------------------------------
  // Fancy indexing

  predicate AllBelow(s: seq<nat>, n: nat) {
    forall i :: 0 <= i < |s| ==> s[i] < n
  }

  /** Whether all indices are in range does not depend on their order. */
  lemma AllBelowPermutation(a: seq<nat>, b: seq<nat>, n: nat)
    requires multiset(a) == multiset(b)
    ensures AllBelow(a, n) <==> AllBelow(b, n)
  {
    forall i | 0 <= i < |a|
      ensures exists j :: 0 <= j < |b| && b[j] == a[i]
    {
      assert a[i] in multiset(b);
    }
    forall i | 0 <= i < |b|
      ensures exists j :: 0 <= j < |a| && a[j] == b[i]
    {
      assert b[i] in multiset(a);
    }
  }

  /** `xs[idx]` for an integer index array `idx`. */
  function Take<T>(xs: seq<T>, idx: seq<nat>): (r: seq<T>)
    requires AllBelow(idx, |xs|)
    ensures |r| == |idx| && forall i :: 0 <= i < |idx| ==> r[i] == xs[idx[i]]
  {
    seq(|idx|, i requires 0 <= i < |idx| => xs[idx[i]])
  }

  // ---------------------------------------------------------------------------------------------
  // quatplot

  predicate CellsBelow(cells: seq<seq<nat>>, n: nat) {
    forall i :: 0 <= i < |cells| ==> AllBelow(cells[i], n)
  }

  /** `quatplot(u, v, cells)`: `np.c_[u, v][cells]`, one polygon per cell whose vertex `j` is the
      point `cells[i][j]`. `np.c_` of unequal lengths raises ValueError and an index past the points
      raises IndexError. */
  function Quatplot(u: seq<real>, v: seq<real>, cells: seq<seq<nat>>): (r: Result<seq<seq<(real, real)>>>)
    ensures r.Ok? <==> |u| == |v| && CellsBelow(cells, |u|)
    ensures |u| != |v| ==> r == Err(ValueError)
    ensures |u| == |v| && !CellsBelow(cells, |u|) ==> r == Err(IndexError)
    ensures r.Ok? ==> |r.value| == |cells|
    ensures r.Ok? ==> forall i :: 0 <= i < |cells| ==> |r.value[i]| == |cells[i]|
    ensures r.Ok? ==> forall i, j :: 0 <= i < |cells| && 0 <= j < |cells[i]| ==>
                        r.value[i][j] == (u[cells[i][j]], v[cells[i][j]])
  {
    if |u| != |v| then Err(ValueError)
    else if !CellsBelow(cells, |u|) then Err(IndexError)
    else
      var uv := seq(|u|, k requires 0 <= k < |u| => (u[k], v[k]));
      Ok(seq(|cells|, i requires 0 <= i < |cells| => Take(uv, cells[i])))
  }

  // ---------------------------------------------------------------------------------------------
  // polyplot

  /** A hull facet: three local indices into the cell's (sorted) points. */
  type Facet = seq<nat>

  /** A polygon in world coordinates, one point per vertex. */
  type Polygon = seq<seq<real>>

  /** `Delaunay(points).convex_hull`, or None where Qhull raises. */
  type Hull = seq<seq<real>> -> Option<seq<Facet>>

  predicate FacetsWithin(fs: seq<Facet>, n: nat) {
    forall p :: 0 <= p < |fs| ==> |fs[p]| == 3 && AllBelow(fs[p], n)
  }

  /** What the decomposition assumes of the hull: triangles whose indices are below the number of
      points it was given. */
  ghost predicate HullWellFormed(hull: Hull) {
    forall pts :: hull(pts).Some? ==> FacetsWithin(hull(pts).value, |pts|)
  }

  /** One facet drawn for a cell: its polygon and the values at its three vertices. */
  datatype Piece = Piece(poly: Polygon, row: seq<real>)

  /** `piece` is facet `f` of the cell whose sorted indices are `s`: vertex `j` and value `j` are the
      coordinates and the value of mesh point `s[f[j]]`. */
  predicate IsFacet(points: Matrix, values: seq<real>, s: seq<nat>, f: Facet, piece: Piece) {
    && |f| == 3 && |piece.poly| == 3 && |piece.row| == 3
    && forall j :: 0 <= j < 3 ==>
         f[j] < |s| && s[f[j]] < |points| && s[f[j]] < |values| &&
         piece.poly[j] == points[s[f[j]]] && piece.row[j] == values[s[f[j]]]
  }

  /** `pieces` are the facets `fs` in order: piece `p` is facet `p`. */
  predicate FacetsOf(points: Matrix, values: seq<real>, s: seq<nat>, fs: seq<Facet>, pieces: seq<Piece>) {
    && |pieces| == |fs|
    && forall p :: 0 <= p < |fs| ==> IsFacet(points, values, s, fs[p], pieces[p])
  }

  /** Every piece is a triangle with a row of three values. */
  predicate Triangles(pieces: seq<Piece>) {
    forall p :: 0 <= p < |pieces| ==> |pieces[p].poly| == 3 && |pieces[p].row| == 3
  }

  /** One iteration of `polyplot`'s loop: sort the cell, gather its points, take the hull, and gather
      the facets' points and values. An index past the points raises IndexError before the hull is
      taken; a hull failure raises QhullError, uncaught; an index past the values raises IndexError
      after it. */
  function CellPieces(points: Matrix, values: seq<real>, cell: seq<nat>, hull: Hull): (r: Result<seq<Piece>>)
    requires HullWellFormed(hull)
    ensures r.Ok? ==> Triangles(r.value)
    ensures !AllBelow(cell, |points|) ==> r == Err(IndexError)
    ensures AllBelow(cell, |points|) ==>
              var s := SortIndices(cell);
              && AllBelow(s, |points|)
              && (hull(Take(points, s)).None? ==> r == Err(QhullError))
              && (hull(Take(points, s)).Some? && !AllBelow(cell, |values|) ==> r == Err(IndexError))
              && (hull(Take(points, s)).Some? && AllBelow(cell, |values|) ==>
                    r.Ok? && FacetsOf(points, values, s, hull(Take(points, s)).value, r.value))
  {
    var s := SortIndices(cell);
    AllBelowPermutation(s, cell, |points|);
    AllBelowPermutation(s, cell, |values|);
    if !AllBelow(s, |points|) then Err(IndexError)
    else
      var newPoints := Take(points, s);
      match hull(newPoints)
      case None => Err(QhullError)
      case Some(fs) =>
        assert FacetsWithin(fs, |s|);
        if !AllBelow(s, |values|) then Err(IndexError)
        else
          var newValues := Take(values, s);
          Ok(seq(|fs|, p requires 0 <= p < |fs| => Piece(Take(newPoints, fs[p]), Take(newValues, fs[p]))))
  }

  /** For a fixed hull, the pieces of a cell depend only on the multiset of its indices: reordering
      a cell's vertices does not change what is drawn. */
  lemma CellPiecesOrderInsensitive(points: Matrix, values: seq<real>, c1: seq<nat>, c2: seq<nat>, hull: Hull)
    requires HullWellFormed(hull)
    requires multiset(c1) == multiset(c2)
    ensures CellPieces(points, values, c1, hull) == CellPieces(points, values, c2, hull)
  {
    SortDependsOnMultiset(c1, c2);
  }

  // ---------------------------------------------------------------------------------------------
  // The loop over the cells

  /** What the loop body gives for each cell, in order. */
  function CellResults(points: Matrix, values: seq<real>, cells: seq<seq<nat>>, hull: Hull): (rs: seq<Result<seq<Piece>>>)
    requires HullWellFormed(hull)
    ensures |rs| == |cells|
  {
    seq(|cells|, c requires 0 <= c < |cells| => CellPieces(points, values, cells[c], hull))
  }

  /** `polys.extend(...)` cell after cell: the pieces of every result in turn, or the exception of
      the first result that is one. */
  function Concat(rs: seq<Result<seq<Piece>>>): (r: Result<seq<Piece>>)
    ensures r.Ok? ==> |r.value| == PieceCount(rs)
    ensures r.Ok? && (forall c :: 0 <= c < |rs| && rs[c].Ok? ==> Triangles(rs[c].value)) ==> Triangles(r.value)
    decreases |rs|
  {
    if |rs| == 0 then Ok([])
    else
      var front := Concat(rs[..|rs| - 1]);
      var last := rs[|rs| - 1];
      if front.Err? then Err(front.error)
      else if last.Err? then Err(last.error)
      else Ok(front.value + last.value)
  }

  /** How many pieces the results hold; a failed result holds none. */
  function PieceCount(rs: seq<Result<seq<Piece>>>): nat {
    if |rs| == 0 then 0
    else PieceCount(rs[..|rs| - 1]) + (if rs[|rs| - 1].Ok? then |rs[|rs| - 1].value| else 0)
  }

  /** The loop gets through every cell exactly when no single cell raises. */
  lemma {:induction false} ConcatOk(rs: seq<Result<seq<Piece>>>)
    ensures Concat(rs).Ok? <==> forall c :: 0 <= c < |rs| ==> rs[c].Ok?
    decreases |rs|
  {
    if |rs| > 0 {
      var init := rs[..|rs| - 1];
      ConcatOk(init);
      assert forall c :: 0 <= c < |init| ==> init[c] == rs[c];
    }
  }

  /** A failing loop raises the exception of the first cell that raises. */
  lemma {:induction false} ConcatFirstError(rs: seq<Result<seq<Piece>>>)
    ensures Concat(rs).Err? ==>
              exists c :: 0 <= c < |rs| && rs[c] == Err(Concat(rs).error) && forall d :: 0 <= d < c ==> rs[d].Ok?
    decreases |rs|
  {
    if Concat(rs).Err? {
      var init := rs[..|rs| - 1];
      assert forall c :: 0 <= c < |init| ==> init[c] == rs[c];
      if Concat(init).Err? {
        ConcatFirstError(init);
        var c :| 0 <= c < |init| && init[c] == Err(Concat(init).error) && forall d :: 0 <= d < c ==> init[d].Ok?;
        assert rs[c] == Err(Concat(rs).error);
      } else {
        ConcatOk(init);
      }
    }
  }

  /** Where the loop puts a cell's pieces: piece `p` of result `c` is entry `PieceCount(rs[..c]) + p`
      of the output. */
  lemma {:induction false} ConcatAt(rs: seq<Result<seq<Piece>>>, c: nat, p: nat)
    requires c < |rs|
    ensures Concat(rs).Ok? ==>
              && rs[c].Ok?
              && (p < |rs[c].value| ==>
                    PieceCount(rs[..c]) + p < |Concat(rs).value| && Concat(rs).value[PieceCount(rs[..c]) + p] == rs[c].value[p])
    decreases |rs|
  {
    if Concat(rs).Ok? {
      var init := rs[..|rs| - 1];
      if c < |rs| - 1 {
        assert init[c] == rs[c] && init[..c] == rs[..c];
        ConcatAt(init, c, p);
      } else {
        assert rs[..c] == init;
      }
    }
  }

  /** What `polys` and `new_values` hold after the loop has processed `cells`, or the exception of
      the first cell that raised. */
  function Decompose(points: Matrix, values: seq<real>, cells: seq<seq<nat>>, hull: Hull): (r: Result<seq<Piece>>)
    requires HullWellFormed(hull)
    ensures r.Ok? ==> Triangles(r.value)
  {
    var rs := CellResults(points, values, cells, hull);
    assert forall c :: 0 <= c < |rs| && rs[c].Ok? ==> Triangles(rs[c].value) by {
      forall c | 0 <= c < |rs| && rs[c].Ok?
        ensures Triangles(rs[c].value)
      {
        assert rs[c] == CellPieces(points, values, cells[c], hull);
      }
    }
    Concat(rs)
  }

  /** The decomposition draws every facet of every cell and nothing else: piece `p` of cell `c` sits
      at a fixed place in the output and is hull facet `p` of that cell's sorted points, with the
      values of the same mesh points. A cell that raises stops the loop with the first such
      exception. */
  lemma DecomposeFacets(points: Matrix, values: seq<real>, cells: seq<seq<nat>>, hull: Hull, c: nat, p: nat)
    requires HullWellFormed(hull)
    requires c < |cells|
    ensures var r := Decompose(points, values, cells, hull);
            var rs := CellResults(points, values, cells, hull);
            var s := SortIndices(cells[c]);
            && (r.Ok? <==> forall d :: 0 <= d < |cells| ==> CellPieces(points, values, cells[d], hull).Ok?)
            && (r.Ok? ==>
                  && AllBelow(s, |points|) && hull(Take(points, s)).Some?
                  && var fs := hull(Take(points, s)).value;
                     p < |fs| ==>
                       PieceCount(rs[..c]) + p < |r.value| &&
                       IsFacet(points, values, s, fs[p], r.value[PieceCount(rs[..c]) + p]))
  {
    DecomposeOk(points, values, cells, hull);
    DecomposeFacetAt(points, values, cells, hull, c, p);
  }

  /** The decomposition succeeds exactly when every cell does. */
  lemma DecomposeOk(points: Matrix, values: seq<real>, cells: seq<seq<nat>>, hull: Hull)
    requires HullWellFormed(hull)
    ensures Decompose(points, values, cells, hull).Ok? <==>
              forall d :: 0 <= d < |cells| ==> CellPieces(points, values, cells[d], hull).Ok?
  {
    var rs := CellResults(points, values, cells, hull);
    ConcatOk(rs);
    assert forall d :: 0 <= d < |cells| ==> rs[d] == CellPieces(points, values, cells[d], hull);
  }

  /** Piece `p` of cell `c` in a successful decomposition is hull facet `p` of that cell. */
  lemma DecomposeFacetAt(points: Matrix, values: seq<real>, cells: seq<seq<nat>>, hull: Hull, c: nat, p: nat)
    requires HullWellFormed(hull)
    requires c < |cells|
    ensures var r := Decompose(points, values, cells, hull);
            var rs := CellResults(points, values, cells, hull);
            var s := SortIndices(cells[c]);
            r.Ok? ==>
              && AllBelow(s, |points|) && hull(Take(points, s)).Some?
              && var fs := hull(Take(points, s)).value;
                 p < |fs| ==>
                   PieceCount(rs[..c]) + p < |r.value| &&
                   IsFacet(points, values, s, fs[p], r.value[PieceCount(rs[..c]) + p])
  {
    var rs := CellResults(points, values, cells, hull);
    ConcatAt(rs, c, p);
    assert rs[c] == CellPieces(points, values, cells[c], hull);
  }

  /** A failing decomposition raises the exception of the first cell that raises. */
  lemma DecomposeFirstError(points: Matrix, values: seq<real>, cells: seq<seq<nat>>, hull: Hull)
    requires HullWellFormed(hull)
    ensures var r := Decompose(points, values, cells, hull);
            r.Err? ==> exists c :: 0 <= c < |cells| && CellPieces(points, values, cells[c], hull) == Err(r.error) &&
                                   forall d :: 0 <= d < c ==> CellPieces(points, values, cells[d], hull).Ok?
  {
    var rs := CellResults(points, values, cells, hull);
    ConcatFirstError(rs);
    assert forall d :: 0 <= d < |cells| ==> rs[d] == CellPieces(points, values, cells[d], hull);
  }

  /** What `polyplot` hands to the 3-D collection: the facet pieces (polygons with their vertex
      values) and the colour of each facet. */
  datatype Decomposition = Decomposition(pieces: seq<Piece>, colors: seq<real>)

  /** `polyplot(points, cells, values)`: the loop over the cells, then `np.array(new_values).mean(1)`
      for the facet colours. With no facet at all the array is 1-D and `mean(1)` raises AxisError. */
  method Polyplot(points: Matrix, cells: seq<seq<nat>>, values: seq<real>, hull: Hull) returns (r: Result<Decomposition>)
    requires HullWellFormed(hull)
    ensures Decompose(points, values, cells, hull).Err? ==> r == Err(Decompose(points, values, cells, hull).error)
    ensures Decompose(points, values, cells, hull) == Ok([]) ==> r == Err(AxisError)
    ensures r.Ok? ==> Decompose(points, values, cells, hull) == Ok(r.value.pieces) && |r.value.pieces| > 0
    ensures r.Ok? ==> |r.value.colors| == |r.value.pieces|
    ensures r.Ok? ==> forall p :: 0 <= p < |r.value.colors| ==>
                        |r.value.pieces[p].row| == 3 && r.value.colors[p] == Mean(r.value.pieces[p].row) &&
                        Min(r.value.pieces[p].row) <= r.value.colors[p] <= Max(r.value.pieces[p].row)
  {
    var rs := CellResults(points, values, cells, hull);
    var pieces: seq<Piece> := [];
    var i := 0;
    while i < |cells|
      invariant 0 <= i <= |cells|
      invariant Concat(rs[..i]) == Ok(pieces)
    {
      var cell := CellPieces(points, values, cells[i], hull);
      assert rs[..i + 1][..i] == rs[..i] && rs[i] == cell;
      if cell.Err? {
        ConcatStopsAtError(rs, i + 1);
        return Err(cell.error);
      }
      pieces := pieces + cell.value;
      i := i + 1;
    }
    assert rs[..i] == rs;
    if |pieces| == 0 {
      return Err(AxisError);
    }
    var rows := seq(|pieces|, p requires 0 <= p < |pieces| => pieces[p].row);
    var colors := RowMeans(rows);
    r := Ok(Decomposition(pieces, colors));
  }

  /** Once the loop has failed on a prefix, the remaining cells do not change the result. */
  lemma {:induction false} ConcatStopsAtError(rs: seq<Result<seq<Piece>>>, i: nat)
    requires i <= |rs|
    ensures Concat(rs[..i]).Err? ==> Concat(rs) == Concat(rs[..i])
    decreases |rs| - i
  {
    if Concat(rs[..i]).Ok? {
    } else if i < |rs| {
      var next := rs[..i + 1];
      assert next[..|next| - 1] == rs[..i];
      ConcatStopsAtError(rs, i + 1);
    } else {
      assert rs[..i] == rs;
    }
  }
}
