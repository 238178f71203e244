/** The part of numpy the modelled code uses: 2-D arrays as sequences of rows, n-D arrays as a shape
    over flat row-major data, broadcasting in-place addition, reshape, column selection and the
    min/max/mean reductions. Values are exact reals. */
module Arrays {
  import opened Errors

  type Matrix = seq<seq<real>>

  /** Number of columns of a row-major 2-D array. A 0-row array is taken to have 0 columns, since a
      sequence of rows cannot remember the width numpy keeps in its shape. */
  function Cols<T>(m: seq<seq<T>>): nat {
    if |m| == 0 then 0 else |m[0]|
  }

  /** Every numpy 2-D array is rectangular. */
  predicate Rectangular<T>(m: seq<seq<T>>) {
    forall i :: 0 <= i < |m| ==> |m[i]| == Cols(m)
  }

  /** `m.T` */
  function Transpose<T>(m: seq<seq<T>>): (r: seq<seq<T>>)
    requires Rectangular(m)
    ensures |r| == Cols(m)
    ensures forall i :: 0 <= i < |r| ==> |r[i]| == |m|
    ensures forall i, j :: 0 <= i < |r| && 0 <= j < |m| ==> r[i][j] == m[j][i]
  {
    seq(Cols(m), i requires 0 <= i < Cols(m) => seq(|m|, j requires 0 <= j < |m| => m[j][i]))
  }

  /** Transposing twice gives the array back, as long as no dimension is 0 (an empty dimension loses
      the other one). */
  lemma TransposeInvolution<T>(m: seq<seq<T>>)
    requires Rectangular(m) && |m| > 0 && Cols(m) > 0
    ensures Rectangular(Transpose(m))
    ensures Transpose(Transpose(m)) == m
  {
    var t := Transpose(m);
    assert Cols(t) == |m|;
    var tt := Transpose(t);
    assert |tt| == |m|;
    forall i | 0 <= i < |m|
      ensures tt[i] == m[i]
    {
      assert |tt[i]| == |t| == Cols(m) == |m[i]|;
    }
  }

  // ---------------------------------------------------------------------------------------------
  // Broadcasting in-place addition `a += b`

  /** numpy broadcasts `b` onto the shape of `a` when each dimension of `b` equals `a`'s or is 1. */
  predicate Broadcastable(a: Matrix, b: Matrix) {
    && (|b| == |a| || |b| == 1)
    && (Cols(b) == Cols(a) || Cols(b) == 1)
  }

  /** The element of `b` that broadcasting lines up with `a[i][j]`. */
  function Broadcast(a: Matrix, b: Matrix, i: nat, j: nat): real
    requires Rectangular(b) && Broadcastable(a, b)
    requires i < |a| && j < Cols(a)
  {
    b[if |b| == 1 then 0 else i][if Cols(b) == 1 then 0 else j]
  }

  /** `a += b` on numpy arrays: the shape of `a` is kept, and a `b` that cannot be broadcast onto it
      raises ValueError. */
  function AddInPlace(a: Matrix, b: Matrix): (r: Result<Matrix>)
    requires Rectangular(a) && Rectangular(b)
    ensures r.Ok? <==> Broadcastable(a, b)
    ensures r.Err? ==> r.error == ValueError
    ensures r.Ok? ==> |r.value| == |a| && Rectangular(r.value) && Cols(r.value) == Cols(a)
    ensures r.Ok? ==> forall i, j :: 0 <= i < |a| && 0 <= j < Cols(a) ==>
                        r.value[i][j] == a[i][j] + Broadcast(a, b, i, j)
  {
    if !Broadcastable(a, b) then Err(ValueError)
    else
      Ok(seq(|a|, i requires 0 <= i < |a| =>
        seq(Cols(a), j requires 0 <= j < Cols(a) => a[i][j] + Broadcast(a, b, i, j))))
  }

  /** Element-wise negation, `-b`. */
  function Negate(b: Matrix): (r: Matrix)
    ensures |r| == |b| && forall i :: 0 <= i < |b| ==> |r[i]| == |b[i]| && forall j :: 0 <= j < |b[i]| ==> r[i][j] == -b[i][j]
  {
    seq(|b|, i requires 0 <= i < |b| => seq(|b[i]|, j requires 0 <= j < |b[i]| => -b[i][j]))
  }

  /** Adding a displacement and then its negation restores the coordinates. This holds for exact
      values; with rounded floating-point coordinates the round trip can be off in the last bits. */
  lemma AddInPlaceUndo(a: Matrix, b: Matrix)
    requires Rectangular(a) && Rectangular(b) && Broadcastable(a, b)
    ensures Rectangular(Negate(b))
    ensures AddInPlace(a, b).Ok?
    ensures AddInPlace(AddInPlace(a, b).value, Negate(b)) == Ok(a)
  {
    var nb := Negate(b);
    assert Cols(nb) == Cols(b);
    var s := AddInPlace(a, b).value;
    var t := AddInPlace(s, nb);
    assert t.Ok?;
    forall i | 0 <= i < |a|
      ensures t.value[i] == a[i]
    {
      forall j | 0 <= j < Cols(a)
        ensures t.value[i][j] == a[i][j]
      {
        assert Broadcast(s, nb, i, j) == -Broadcast(a, b, i, j);
      }
      assert |t.value[i]| == Cols(a) == |a[i]|;
    }
    assert |t.value| == |a|;
    assert t.value == a;
  }

  /** Adding two same-shaped displacements one after the other is adding their sum, whatever the
      order: a mesh shifted in place twice carries both shifts. */
  lemma AddInPlaceTwice(a: Matrix, b: Matrix, c: Matrix)
    requires Rectangular(a) && Rectangular(b) && Rectangular(c)
    requires |b| == |c| == |a| && Cols(b) == Cols(c) == Cols(a)
    ensures AddInPlace(a, b).Ok? && AddInPlace(AddInPlace(a, b).value, c).Ok?
    ensures forall i, j :: 0 <= i < |a| && 0 <= j < Cols(a) ==>
              AddInPlace(AddInPlace(a, b).value, c).value[i][j] == a[i][j] + b[i][j] + c[i][j]
  {
    var s := AddInPlace(a, b).value;
    forall i, j | 0 <= i < |a| && 0 <= j < Cols(a)
      ensures AddInPlace(s, c).value[i][j] == a[i][j] + b[i][j] + c[i][j]
    {
      if |a| == 1 {
        assert Broadcast(a, b, i, j) == b[0][if Cols(b) == 1 then 0 else j];
      }
    }
  }

  /** `m[:, :k]`: the first `k` columns of every row (all of them when there are fewer). */
  function TakeCols(m: Matrix, k: nat): (r: Matrix)
    requires Rectangular(m)
    ensures |r| == |m| && Rectangular(r)
    ensures |m| > 0 ==> Cols(r) == if k < Cols(m) then k else Cols(m)
    ensures forall i, j :: 0 <= i < |r| && 0 <= j < |r[i]| ==> r[i][j] == m[i][j]
  {
    seq(|m|, i requires 0 <= i < |m| => if k < |m[i]| then m[i][..k] else m[i])
  }

  /** `m[:, c]` */
  function Column(m: Matrix, c: nat): (r: Result<seq<real>>)
    requires Rectangular(m)
    ensures r.Ok? <==> c < Cols(m)
    ensures r.Err? ==> r.error == IndexError
    ensures r.Ok? ==> |r.value| == |m| && forall i :: 0 <= i < |m| ==> r.value[i] == m[i][c]
  {
    if c < Cols(m) then Ok(seq(|m|, i requires 0 <= i < |m| => m[i][c])) else Err(IndexError)
  }

  // ---------------------------------------------------------------------------------------------
  // Reductions

  function Sum(s: seq<real>): real {
    if |s| == 0 then 0.0 else s[0] + Sum(s[1..])
  }

  /** `s.mean()`; numpy gives nan for an empty array, which has no exact-real counterpart. */
  function Mean(s: seq<real>): real
    requires |s| > 0
  {
    Sum(s) / (|s| as real)
  }

  /** `s.min()` */
  function Min(s: seq<real>): (m: real)
    requires |s| > 0
    ensures m in s
    ensures forall i :: 0 <= i < |s| ==> m <= s[i]
  {
    if |s| == 1 then s[0]
    else
      var t := Min(s[1..]);
      if s[0] <= t then s[0] else t
  }

  /** `s.max()` */
  function Max(s: seq<real>): (m: real)
    requires |s| > 0
    ensures m in s
    ensures forall i :: 0 <= i < |s| ==> s[i] <= m
  {
    if |s| == 1 then s[0]
    else
      var t := Max(s[1..]);
      if s[0] >= t then s[0] else t
  }

  lemma {:induction false} SumBounds(s: seq<real>, lo: real, hi: real)
    requires forall i :: 0 <= i < |s| ==> lo <= s[i] <= hi
    ensures (|s| as real) * lo <= Sum(s) <= (|s| as real) * hi
  {
    if |s| > 0 {
      assert forall i :: 0 <= i < |s[1..]| ==> s[1..][i] == s[i + 1];
      SumBounds(s[1..], lo, hi);
    }
  }

  /** A mean lies within any bounds that hold of every value it averages. */
  lemma MeanWithin(s: seq<real>, lo: real, hi: real)
    requires |s| > 0
    requires forall i :: 0 <= i < |s| ==> lo <= s[i] <= hi
    ensures lo <= Mean(s) <= hi
  {
    SumBounds(s, lo, hi);
    DivideBounds(Sum(s), |s| as real, lo, hi);
  }

  /** A mean lies between the smallest and the largest value it averages. */
  lemma MeanBetween(s: seq<real>)
    requires |s| > 0
    ensures Min(s) <= Mean(s) <= Max(s)
  {
    MeanWithin(s, Min(s), Max(s));
  }

  lemma DivideBounds(x: real, n: real, lo: real, hi: real)
    requires n > 0.0 && n * lo <= x <= n * hi
    ensures lo <= x / n <= hi
  {
  }

  /** `[s.min(), s.max()]`; numpy raises ValueError on an empty array. */
  function Span(s: seq<real>): (r: Result<(real, real)>)
    ensures r.Ok? <==> |s| > 0
    ensures r.Err? ==> r.error == ValueError
    ensures r.Ok? ==> r.value.0 <= r.value.1
    ensures r.Ok? ==> r.value.0 in s && r.value.1 in s
    ensures r.Ok? ==> forall i :: 0 <= i < |s| ==> r.value.0 <= s[i] <= r.value.1
  {
    if |s| == 0 then Err(ValueError) else Ok((Min(s), Max(s)))
  }

  /** `m.mean(-1)`: the mean of every row. */
  function RowMeans(m: Matrix): (r: seq<real>)
    requires forall i :: 0 <= i < |m| ==> |m[i]| > 0
    ensures |r| == |m|
    ensures forall i :: 0 <= i < |m| ==> r[i] == Mean(m[i])
    ensures forall i :: 0 <= i < |m| ==> Min(m[i]) <= r[i] <= Max(m[i])
  {
    var r := seq(|m|, i requires 0 <= i < |m| => Mean(m[i]));
    assert forall i :: 0 <= i < |m| ==> Min(m[i]) <= r[i] <= Max(m[i]) by {
      forall i | 0 <= i < |m|
        ensures Min(m[i]) <= r[i] <= Max(m[i])
      {
        MeanBetween(m[i]);
      }
    }
    r
  }

  // ---------------------------------------------------------------------------------------------
  // n-D arrays

  /** A numpy array: its shape and its elements in row-major order. */
  datatype NdArray = NdArray(shape: seq<nat>, flat: seq<real>)

  function Product(dims: seq<nat>): nat {
    if |dims| == 0 then 1 else dims[0] * Product(dims[1..])
  }

  predicate WellFormed(a: NdArray) {
    |a.shape| >= 1 && |a.flat| == Product(a.shape)
  }

  /** Number of elements in one entry along the first axis: the product of the other dimensions. */
  function RowSize(a: NdArray): nat {
    if |a.shape| == 0 then 1 else Product(a.shape[1..])
  }

  /** Split `f` into `n` consecutive rows of `w` elements. */
  function Chunk(f: seq<real>, n: nat, w: nat): (r: Matrix)
    requires |f| == n * w
    ensures |r| == n && forall i :: 0 <= i < n ==> |r[i]| == w
    decreases n
  {
    if n == 0 then []
    else
      assert |f[w..]| == (n - 1) * w;
      [f[..w]] + Chunk(f[w..], n - 1, w)
  }

  /** Concatenation of the rows. */
  function Flatten(m: Matrix): seq<real> {
    if |m| == 0 then [] else m[0] + Flatten(m[1..])
  }

  lemma {:induction false} FlattenChunk(f: seq<real>, n: nat, w: nat)
    requires |f| == n * w
    ensures Flatten(Chunk(f, n, w)) == f
    decreases n
  {
    if n > 0 {
      assert |f[w..]| == (n - 1) * w;
      var r := Chunk(f, n, w);
      assert r[1..] == Chunk(f[w..], n - 1, w);
      FlattenChunk(f[w..], n - 1, w);
      assert f == f[..w] + f[w..];
    }
  }

  lemma {:induction false} ChunkAt(f: seq<real>, n: nat, w: nat, i: nat, j: nat)
    requires |f| == n * w && i < n && j < w
    ensures i * w + j < |f|
    ensures Chunk(f, n, w)[i][j] == f[i * w + j]
    decreases n
  {
    assert i * w + j < (i + 1) * w <= n * w;
    if i > 0 {
      assert |f[w..]| == (n - 1) * w;
      ChunkAt(f[w..], n - 1, w, i - 1, j);
      assert (i - 1) * w + j + w == i * w + j;
    }
  }

  /** `a.reshape(a.shape[0], -1)`. numpy cannot infer the `-1` of an empty first axis and raises
      ValueError. */
  function Reshape(a: NdArray): (r: Result<Matrix>)
    requires WellFormed(a)
    ensures r.Ok? <==> a.shape[0] > 0
    ensures r.Err? ==> r.error == ValueError
    ensures r.Ok? ==> |r.value| == a.shape[0] && Rectangular(r.value)
    ensures r.Ok? ==> forall i :: 0 <= i < |r.value| ==> |r.value[i]| == RowSize(a)
    ensures r.Ok? ==> Flatten(r.value) == a.flat
  {
    if a.shape[0] == 0 then Err(ValueError)
    else
      var rows := Chunk(a.flat, a.shape[0], RowSize(a));
      FlattenChunk(a.flat, a.shape[0], RowSize(a));
      Ok(rows)
  }

  /** Row `i`, column `j` of the reshaped array is flat element `i * width + j`. */
  lemma ReshapeAt(a: NdArray, i: nat, j: nat)
    requires WellFormed(a) && Reshape(a).Ok?
    requires i < a.shape[0] && j < RowSize(a)
    ensures i * RowSize(a) + j < |a.flat|
    ensures Reshape(a).value[i][j] == a.flat[i * RowSize(a) + j]
  {
    ChunkAt(a.flat, a.shape[0], RowSize(a), i, j);
  }
}
