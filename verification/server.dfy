/**
 * The embedding server's two handlers. `post_embeddings` takes the words
 * of the request text and the batch lookup of those words, checks that the
 * batch has one row per word, pairs every word with its vector (the batch
 * row when the word was found, a zero vector of the model's width when it
 * was not) and averages all those vectors column by column. `get_model`
 * reports the file name of the served model.
 */
module Server {
  import opened Wrappers
  import opened NdArray
  import opened Embeddings
  import Paths

  /** One word of the request with its vector. */
  datatype WordVector = WordVector(word: string, vector: seq<real>)

  /** A client error with its message, or the aggregate vector and the per-word vectors. */
  datatype Response =
    | ErrorResponse(message: string)
    | WordVectors(aggregate: seq<real>, words: seq<WordVector>)

  const VectorSizeMismatch := "vector size mismatch"

  /** The entry of every word, in order: its batch row when found, `dims` zeros otherwise. */
  function Entries(dims: nat, words: seq<string>, rows: seq<seq<real>>, found: seq<bool>): (es: seq<WordVector>)
    requires |rows| == |words| && |found| >= |words|
    ensures |es| == |words|
    ensures forall i :: 0 <= i < |words| ==> es[i].word == words[i]
    ensures forall i :: 0 <= i < |words| && found[i] ==> es[i].vector == rows[i]
    ensures forall i :: 0 <= i < |words| && !found[i] ==> es[i].vector == Zeros(dims)
  {
    if words == [] then []
    else
      [WordVector(words[0], if found[0] then rows[0] else Zeros(dims))]
      + Entries(dims, words[1..], rows[1..], found[1..])
  }

  /** The vectors of the entries, in order. */
  function Vectors(es: seq<WordVector>): (vs: seq<seq<real>>)
    ensures |vs| == |es|
    ensures forall i :: 0 <= i < |es| ==> vs[i] == es[i].vector
  {
    seq(|es|, i requires 0 <= i < |es| => es[i].vector)
  }

  /**
   * The column-wise mean of `vs`, computed on the matrix of |vs| rows whose
   * width is that of the first vector; empty when there are no vectors or
   * when the vectors do not fill that shape exactly.
   */
  function Aggregate(vs: seq<seq<real>>): (agg: seq<real>)
    ensures vs == [] ==> agg == []
  {
    if |vs| == 0 then []
    else
      match FromShapeVec(|vs|, |vs[0]|, Flatten(vs))
      case Ok(a) => MeanAxis0(a).value
      case Err(_) => []
  }

  /** The sum of column `j` over the rows whose word was found; rows of unknown words add nothing. */
  function FoundColumnSum(rows: seq<seq<real>>, found: seq<bool>, j: nat): real
    requires |found| >= |rows|
    requires forall i :: 0 <= i < |rows| && found[i] ==> j < |rows[i]|
  {
    if rows == [] then 0.0
    else (if found[0] then rows[0][j] else 0.0) + FoundColumnSum(rows[1..], found[1..], j)
  }

  /** The reply of `post_embeddings` to `words`, given the batch lookup of those words. */
  function Handle(dims: nat, words: seq<string>, batch: Batch): (r: Response)
    requires batch.matrix.WellFormed()
    requires batch.matrix.NRows() == |words| ==> |batch.found| >= |words|
    ensures r.ErrorResponse? <==> batch.matrix.NRows() != |words|
    ensures r.ErrorResponse? ==> r.message == VectorSizeMismatch
  {
    if batch.matrix.NRows() != |words| then ErrorResponse(VectorSizeMismatch)
    else
      var entries := Entries(dims, words, batch.matrix.rows, batch.found);
      WordVectors(Aggregate(Vectors(entries)), entries)
  }

  /**
   * `post_embeddings` step by step: the shape check, the loop that pushes
   * one entry per word, and the aggregate written into the response.
   */
  method PostEmbeddings(dims: nat, words: seq<string>, batch: Batch) returns (response: Response)
    requires batch.matrix.WellFormed()
    requires batch.matrix.NRows() == |words| ==> |batch.found| >= |words|
    ensures response == Handle(dims, words, batch)
  {
    var embMatrix, inVocabFlags := batch.matrix, batch.found;
    if embMatrix.NRows() != |words| {
      return ErrorResponse(VectorSizeMismatch);
    }
    var wordVectors: seq<WordVector> := [];
    for i := 0 to |words|
      invariant |wordVectors| == i
      invariant forall k :: 0 <= k < i ==> wordVectors[k].word == words[k]
      invariant forall k :: 0 <= k < i && inVocabFlags[k] ==> wordVectors[k].vector == embMatrix.rows[k]
      invariant forall k :: 0 <= k < i && !inVocabFlags[k] ==> wordVectors[k].vector == Zeros(dims)
    {
      var vector := if inVocabFlags[i] then embMatrix.rows[i] else Zeros(dims);
      wordVectors := wordVectors + [WordVector(words[i], vector)];
    }
    ghost var entries := Entries(dims, words, embMatrix.rows, inVocabFlags);
    assert wordVectors == entries;

    var vectors2d := Vectors(wordVectors);
    response := WordVectors([], wordVectors);
    if |vectors2d| != 0 {
      var rows, cols := |vectors2d|, |vectors2d[0]|;
      var flattened := Flatten(vectors2d);
      var result := FromShapeVec(rows, cols, flattened);
      match result {
        case Ok(reshaped) =>
          response := response.(aggregate := MeanAxis0(reshaped).value);
        case Err(_) =>
      }
    }
  }

  /** With one width shared by all vectors, the aggregate is the mean of each column over all vectors. */
  lemma AggregateUniform(vs: seq<seq<real>>, width: nat)
    requires vs != []
    requires forall i :: 0 <= i < |vs| ==> |vs[i]| == width
    ensures |Aggregate(vs)| == width
    ensures forall j :: 0 <= j < width ==> Aggregate(vs)[j] == ColumnSum(vs, j) / (|vs| as real)
  {
    ChunksFlatten(vs, width);
  }

  /** If every vector has at least `p` entries, the vectors hold at least |vs| * p entries, more when one is longer. */
  lemma {:induction false} TotalLenAbove(vs: seq<seq<real>>, p: nat)
    requires forall i :: 0 <= i < |vs| ==> |vs[i]| >= p
    ensures TotalLen(vs) >= |vs| * p
    ensures (exists k :: 0 <= k < |vs| && |vs[k]| > p) ==> TotalLen(vs) > |vs| * p
  {
    if vs != [] {
      TotalLenAbove(vs[1..], p);
      MulStep(|vs|, p);
      if exists k :: 0 <= k < |vs| && |vs[k]| > p {
        var k :| 0 <= k < |vs| && |vs[k]| > p;
        if k > 0 {
          assert |vs[1..][k - 1]| > p;
        }
      }
    }
  }

  /** If every vector has at most `p` entries, the vectors hold at most |vs| * p entries, fewer when one is shorter. */
  lemma {:induction false} TotalLenBelow(vs: seq<seq<real>>, p: nat)
    requires forall i :: 0 <= i < |vs| ==> |vs[i]| <= p
    ensures TotalLen(vs) <= |vs| * p
    ensures (exists k :: 0 <= k < |vs| && |vs[k]| < p) ==> TotalLen(vs) < |vs| * p
  {
    if vs != [] {
      TotalLenBelow(vs[1..], p);
      MulStep(|vs|, p);
      if exists k :: 0 <= k < |vs| && |vs[k]| < p {
        var k :| 0 <= k < |vs| && |vs[k]| < p;
        if k > 0 {
          assert |vs[1..][k - 1]| < p;
        }
      }
    }
  }

  /**
   * When the vectors come in only two widths and both occur, they cannot
   * fill the shape given by the first one, and the aggregate stays empty.
   */
  lemma AggregateTwoWidths(vs: seq<seq<real>>, other: nat, k: nat)
    requires vs != [] && k < |vs| && |vs[k]| == other != |vs[0]|
    requires forall i :: 0 <= i < |vs| ==> |vs[i]| == |vs[0]| || |vs[i]| == other
    ensures Aggregate(vs) == []
  {
    if other > |vs[0]| {
      TotalLenAbove(vs, |vs[0]|);
    } else {
      TotalLenBelow(vs, |vs[0]|);
    }
  }

  /** Summing a column over the entries adds up the found rows only: an unknown word contributes zero. */
  lemma {:induction false} EntriesColumnSum(dims: nat, words: seq<string>, rows: seq<seq<real>>, found: seq<bool>, j: nat)
    requires |rows| == |words| && |found| >= |words|
    requires forall i :: 0 <= i < |rows| && found[i] ==> j < |rows[i]|
    requires j < dims
    ensures ColumnSum(Vectors(Entries(dims, words, rows, found)), j) == FoundColumnSum(rows, found, j)
  {
    var vs := Vectors(Entries(dims, words, rows, found));
    if words != [] {
      EntriesColumnSum(dims, words[1..], rows[1..], found[1..], j);
      assert vs[1..] == Vectors(Entries(dims, words[1..], rows[1..], found[1..]));
    }
  }

  /** An empty request is answered with no entries and an empty aggregate, not with an error. */
  lemma HandleEmpty(dims: nat, batch: Batch)
    requires batch.matrix.WellFormed() && batch.matrix.NRows() == 0
    ensures Handle(dims, [], batch) == WordVectors([], [])
  {
  }

  /** A batch whose row count is not the word count is refused with "vector size mismatch" and nothing else. */
  lemma HandleMismatch(dims: nat, words: seq<string>, batch: Batch)
    requires batch.matrix.WellFormed() && batch.matrix.NRows() != |words|
    ensures Handle(dims, words, batch) == ErrorResponse("vector size mismatch")
  {
  }

  /**
   * On success there is one entry per word, in input order; a found word
   * carries its batch row, an unknown word `dims` zeros whatever its row holds.
   */
  lemma HandleEntries(dims: nat, words: seq<string>, batch: Batch, i: nat)
    requires batch.matrix.WellFormed() && batch.matrix.NRows() == |words| && |batch.found| >= |words|
    requires i < |words|
    ensures Handle(dims, words, batch).WordVectors?
    ensures |Handle(dims, words, batch).words| == |words|
    ensures Handle(dims, words, batch).words[i].word == words[i]
    ensures batch.found[i] ==> Handle(dims, words, batch).words[i].vector == batch.matrix.rows[i]
    ensures !batch.found[i] ==> Handle(dims, words, batch).words[i].vector == Zeros(dims)
    ensures !batch.found[i] ==> |Handle(dims, words, batch).words[i].vector| == dims
  {
  }

  /**
   * When the batch width is the model width, the aggregate has that width
   * and entry j is the sum of column j over the found rows divided by the
   * number of ALL words: unknown words stay in the denominator.
   */
  lemma HandleAggregateMean(dims: nat, words: seq<string>, batch: Batch, j: nat)
    requires batch.matrix.WellFormed() && batch.matrix.NRows() == |words| && |batch.found| >= |words|
    requires words != [] && batch.matrix.cols == dims && j < dims
    ensures |Handle(dims, words, batch).aggregate| == dims
    ensures Handle(dims, words, batch).aggregate[j]
         == FoundColumnSum(batch.matrix.rows, batch.found, j) / (|words| as real)
  {
    var entries := Entries(dims, words, batch.matrix.rows, batch.found);
    var vs := Vectors(entries);
    AggregateUniform(vs, dims);
    EntriesColumnSum(dims, words, batch.matrix.rows, batch.found, j);
  }

  /**
   * When the batch width is the model width, entry j of the aggregate lies
   * within any bounds that hold column j of every entry vector: the found
   * rows, and the zero vectors of unknown words.
   */
  lemma HandleAggregateWithinBounds(dims: nat, words: seq<string>, batch: Batch, j: nat, lo: real, hi: real)
    requires batch.matrix.WellFormed() && batch.matrix.NRows() == |words| && |batch.found| >= |words|
    requires words != [] && batch.matrix.cols == dims && j < dims
    requires forall i :: 0 <= i < |words| && batch.found[i] ==> lo <= batch.matrix.rows[i][j] <= hi
    requires (exists i :: 0 <= i < |words| && !batch.found[i]) ==> lo <= 0.0 <= hi
    ensures |Handle(dims, words, batch).aggregate| == dims
    ensures lo <= Handle(dims, words, batch).aggregate[j] <= hi
  {
    var entries := Entries(dims, words, batch.matrix.rows, batch.found);
    var vs := Vectors(entries);
    assert forall i :: 0 <= i < |vs| ==> |vs[i]| == dims;
    ChunksFlatten(vs, dims);
    var a := Array2(vs, dims);
    forall i | 0 <= i < a.NRows()
      ensures lo <= a.rows[i][j] <= hi
    {
      if !batch.found[i] {
        assert vs[i] == Zeros(dims);
      }
    }
    MeanWithinBounds(a, j, lo, hi);
  }

  /**
   * When the batch width differs from the model width and the request mixes
   * found and unknown words, the vectors cannot be reshaped: the aggregate
   * stays empty but the entries are still returned without an error.
   */
  lemma HandleAggregateRagged(dims: nat, words: seq<string>, batch: Batch, a: nat, b: nat)
    requires batch.matrix.WellFormed() && batch.matrix.NRows() == |words| && |batch.found| >= |words|
    requires batch.matrix.cols != dims
    requires a < |words| && b < |words| && batch.found[a] && !batch.found[b]
    ensures Handle(dims, words, batch).WordVectors?
    ensures Handle(dims, words, batch).aggregate == []
    ensures |Handle(dims, words, batch).words| == |words|
  {
    var vs := Vectors(Entries(dims, words, batch.matrix.rows, batch.found));
    var k := if |vs[0]| == dims then a else b;
    var other := if |vs[0]| == dims then batch.matrix.cols else dims;
    AggregateTwoWidths(vs, other, k);
  }

  /** The sum of column `j` over the stored rows of the words of the request that the model knows. */
  function KnownColumnSum(e: Embeddings, words: seq<string>, j: nat): real
    requires e.Valid() && j < e.dims
  {
    if words == [] then 0.0
    else
      (match e.Embedding(words[0]) case Some(v) => v[j] case None => 0.0)
      + KnownColumnSum(e, words[1..], j)
  }

  /** Over a batch looked up in a model, the found rows add up to the known words' stored rows. */
  lemma {:induction false} BatchColumnSum(e: Embeddings, words: seq<string>, j: nat)
    requires e.Valid() && j < e.dims
    ensures FoundColumnSum(e.BatchRows(words), e.BatchFound(words), j) == KnownColumnSum(e, words, j)
  {
    if words != [] {
      BatchColumnSum(e, words[1..], j);
    }
  }

  /**
   * A request served from a loaded model: never the size error; one entry
   * per word in order, carrying the word's stored vector or `dims` zeros;
   * an empty aggregate for no words, otherwise a `dims`-wide aggregate whose
   * entry j is the known words' column sum divided by the number of all words.
   */
  lemma ServeFromModel(e: Embeddings, words: seq<string>, j: nat)
    requires e.Valid()
    ensures Handle(e.dims, words, e.EmbeddingBatch(words)).WordVectors?
    ensures |Handle(e.dims, words, e.EmbeddingBatch(words)).words| == |words|
    ensures forall i :: 0 <= i < |words| ==>
              Handle(e.dims, words, e.EmbeddingBatch(words)).words[i]
              == WordVector(words[i], e.Embedding(words[i]).GetOr(Zeros(e.dims)))
    ensures words == [] ==> Handle(e.dims, words, e.EmbeddingBatch(words)).aggregate == []
    ensures words != [] ==> |Handle(e.dims, words, e.EmbeddingBatch(words)).aggregate| == e.dims
    ensures words != [] && j < e.dims ==>
              Handle(e.dims, words, e.EmbeddingBatch(words)).aggregate[j]
              == KnownColumnSum(e, words, j) / (|words| as real)
  {
    var batch := e.EmbeddingBatch(words);
    var r := Handle(e.dims, words, batch);
    forall i | 0 <= i < |words|
      ensures r.words[i] == WordVector(words[i], e.Embedding(words[i]).GetOr(Zeros(e.dims)))
    {
      HandleEntries(e.dims, words, batch, i);
    }
    if words != [] && j < e.dims {
      HandleAggregateMean(e.dims, words, batch, j);
      BatchColumnSum(e, words, j);
    } else if words != [] {
      AggregateUniform(Vectors(Entries(e.dims, words, batch.matrix.rows, batch.found)), e.dims);
    }
  }

  /**
   * Unknown words dilute the aggregate: with "cat" stored as [1, 1] in a
   * two-dimensional model, the request "cat xyzzy" yields [1, 1] and [0, 0]
   * as word vectors and [0.5, 0.5] as the aggregate.
   */
  lemma OovDilutesAggregate(e: Embeddings, words: seq<string>)
    requires e == Embeddings(["cat"], [[1.0, 1.0]], 2)
    requires words == ["cat", "xyzzy"]
    ensures Handle(e.dims, words, e.EmbeddingBatch(words))
         == WordVectors([0.5, 0.5], [WordVector("cat", [1.0, 1.0]), WordVector("xyzzy", [0.0, 0.0])])
  {
    assert Zeros(2) == [0.0, 0.0];
    var batch := Batch(Array2([[1.0, 1.0], [0.0, 0.0]], 2), [true, false]);
    assert e.EmbeddingBatch(words) == batch by {
      assert "xyzzy" !in e.vocab;
      IdxExact(e, 0);
    }
    var r := Handle(2, words, batch);
    HandleEntries(2, words, batch, 0);
    HandleEntries(2, words, batch, 1);
    assert r.words == [WordVector("cat", [1.0, 1.0]), WordVector("xyzzy", [0.0, 0.0])];
    HandleAggregateMean(2, words, batch, 0);
    HandleAggregateMean(2, words, batch, 1);
    assert FoundColumnSum(batch.matrix.rows, batch.found, 0) == 1.0;
    assert FoundColumnSum(batch.matrix.rows, batch.found, 1) == 1.0;
    assert r.aggregate == [0.5, 0.5];
  }

  /** The reply of `get_model`. */
  datatype ModelInfo = ModelInfo(status: string, model: string)

  /** The served model's name: the file name of its path, or "" when the path has none. */
  function ModelName(modelPath: string): (name: string)
    ensures name == "" <==> Paths.FileName(modelPath).None?
    ensures name != "" ==> Paths.PlainName(name)
  {
    Paths.FileName(modelPath).GetOr("")
  }

  function GetModel(modelName: string): (r: ModelInfo)
    ensures r.status == "ok" && r.model == modelName
  {
    ModelInfo("ok", modelName)
  }

  /** `get_model` reports status "ok" with the last component of the model path. */
  lemma GetModelReportsFileName(dir: string, name: string)
    requires Paths.PlainName(name)
    ensures GetModel(ModelName(dir + "/" + name)) == ModelInfo("ok", name)
  {
    Paths.FileNameJoin(dir, name);
  }

  /** A model path ending in ".." has no file name, and `get_model` reports "" with status "ok". */
  lemma GetModelWithoutFileName(dir: string)
    ensures GetModel(ModelName(dir + "/..")) == ModelInfo("ok", "")
  {
    Paths.AfterLastJoin(dir, '/', "..");
    assert dir + "/.." == dir + ['/'] + "..";
  }
}
