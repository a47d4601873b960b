/**
 * The slice of a dense two-dimensional array library that the embeddings
 * handler relies on: building a matrix from a flat row-major vector of a
 * given shape, and the mean along the row axis. Values are reals; the
 * 32-bit float rounding of the real library is not modelled.
 */
module NdArray {
  import opened Wrappers

  /** A matrix held as its rows; every row has `cols` entries when WellFormed. */
  datatype Array2 = Array2(rows: seq<seq<real>>, cols: nat) {

    predicate WellFormed() {
      forall i :: 0 <= i < |rows| ==> |rows[i]| == cols
    }

    function NRows(): nat {
      |rows|
    }
  }

  /** A vector of `n` zeros. */
  function Zeros(n: nat): seq<real> {
    seq(n, _ => 0.0)
  }

  /** The summed length of all vectors. */
  function TotalLen(vs: seq<seq<real>>): nat {
    if vs == [] then 0 else |vs[0]| + TotalLen(vs[1..])
  }

  /** All vectors concatenated, in order. */
  function Flatten(vs: seq<seq<real>>): (flat: seq<real>)
    ensures |flat| == TotalLen(vs)
  {
    if vs == [] then [] else vs[0] + Flatten(vs[1..])
  }

  /** Cuts a flat row-major vector into `nrows` rows of `ncols` entries. */
  function Chunks(flat: seq<real>, nrows: nat, ncols: nat): (rows: seq<seq<real>>)
    requires |flat| == nrows * ncols
    ensures |rows| == nrows
    ensures forall i :: 0 <= i < nrows ==> |rows[i]| == ncols
    decreases nrows
  {
    if nrows == 0 then []
    else
      MulStep(nrows, ncols);
      [flat[..ncols]] + Chunks(flat[ncols..], nrows - 1, ncols)
  }

  /**
   * The matrix of shape (nrows, ncols) whose row-major contents are `flat`.
   * The only check is that the element count matches the shape.
   */
  function FromShapeVec(nrows: nat, ncols: nat, flat: seq<real>): (r: Result<Array2, string>)
    ensures r.Ok? <==> |flat| == nrows * ncols
    ensures r.Ok? ==> r.value.WellFormed() && r.value.NRows() == nrows && r.value.cols == ncols
    ensures r.Ok? ==> Flatten(r.value.rows) == flat
  {
    if |flat| == nrows * ncols then
      FlattenChunks(flat, nrows, ncols);
      Ok(Array2(Chunks(flat, nrows, ncols), ncols))
    else
      Err("ShapeError/IncompatibleShape: incompatible shapes")
  }

  /** One more row adds one row's worth of entries. */
  lemma MulStep(n: nat, c: nat)
    requires n > 0
    ensures n * c == (n - 1) * c + c
  {
  }

  /** Reshaping and then flattening gives back the flat vector. */
  lemma {:induction false} FlattenChunks(flat: seq<real>, nrows: nat, ncols: nat)
    requires |flat| == nrows * ncols
    ensures Flatten(Chunks(flat, nrows, ncols)) == flat
    decreases nrows
  {
    if nrows > 0 {
      MulStep(nrows, ncols);
      var head, tail := flat[..ncols], flat[ncols..];
      FlattenChunks(tail, nrows - 1, ncols);
      var rows := Chunks(flat, nrows, ncols);
      assert rows == [head] + Chunks(tail, nrows - 1, ncols);
      assert rows[1..] == Chunks(tail, nrows - 1, ncols);
      assert Flatten(rows) == head + Flatten(rows[1..]);
      assert flat == head + tail;
    }
  }

  /** Flattening rows of equal width and cutting them again gives back the rows. */
  lemma {:induction false} ChunksFlatten(vs: seq<seq<real>>, ncols: nat)
    requires forall i :: 0 <= i < |vs| ==> |vs[i]| == ncols
    ensures TotalLen(vs) == |vs| * ncols
    ensures Chunks(Flatten(vs), |vs|, ncols) == vs
  {
    if vs != [] {
      ChunksFlatten(vs[1..], ncols);
      var flat := Flatten(vs);
      assert flat == vs[0] + Flatten(vs[1..]);
      assert flat[..ncols] == vs[0];
      assert flat[ncols..] == Flatten(vs[1..]);
      MulStep(|vs|, ncols);
      assert vs == [vs[0]] + vs[1..];
    }
  }

  /** The sum of column `j` over all rows. */
  function ColumnSum(rows: seq<seq<real>>, j: nat): real
    requires forall i :: 0 <= i < |rows| ==> j < |rows[i]|
  {
    if rows == [] then 0.0 else rows[0][j] + ColumnSum(rows[1..], j)
  }

  /**
   * The arithmetic mean along axis 0: one entry per column, the column's
   * sum divided by the number of rows; nothing when there are no rows.
   */
  function MeanAxis0(a: Array2): (r: Option<seq<real>>)
    requires a.WellFormed()
    ensures r.None? <==> a.NRows() == 0
    ensures r.Some? ==> |r.value| == a.cols
  {
    if |a.rows| == 0 then None
    else Some(seq(a.cols, j requires 0 <= j < a.cols => ColumnSum(a.rows, j) / (|a.rows| as real)))
  }

  /** If every row's entry in column `j` lies in [lo, hi], so does the column sum scaled by the row count. */
  lemma {:induction false} ColumnSumBounds(rows: seq<seq<real>>, j: nat, lo: real, hi: real)
    requires forall i :: 0 <= i < |rows| ==> j < |rows[i]| && lo <= rows[i][j] <= hi
    ensures (|rows| as real) * lo <= ColumnSum(rows, j) <= (|rows| as real) * hi
  {
    if rows != [] {
      ColumnSumBounds(rows[1..], j, lo, hi);
    }
  }

  /** The mean of a column lies between the least and the greatest entry bounds of that column. */
  lemma MeanWithinBounds(a: Array2, j: nat, lo: real, hi: real)
    requires a.WellFormed() && a.NRows() > 0 && j < a.cols
    requires forall i :: 0 <= i < a.NRows() ==> lo <= a.rows[i][j] <= hi
    ensures lo <= MeanAxis0(a).value[j] <= hi
  {
    var n := |a.rows| as real;
    ColumnSumBounds(a.rows, j, lo, hi);
    assert MeanAxis0(a).value[j] == ColumnSum(a.rows, j) / n;
  }
}
