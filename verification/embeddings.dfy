/**
 * The loaded embedding model as the server sees it: a vocabulary, one
 * storage row per vocabulary word, and the fixed dimensionality. The model
 * is read-only once loaded, so it is a value. Lookup is exact string match;
 * `EmbeddingBatch` is the batch lookup the embeddings handler calls.
 */
module Embeddings {
  import opened Wrappers
  import opened NdArray

  datatype Embeddings = Embeddings(vocab: seq<string>, storage: seq<seq<real>>, dims: nat) {

    /** Row i belongs to word i, every row has `dims` entries, and no word occurs twice. */
    predicate Valid() {
      && |vocab| == |storage|
      && (forall i :: 0 <= i < |storage| ==> |storage[i]| == dims)
      && (forall i, k :: 0 <= i < k < |vocab| ==> vocab[i] != vocab[k])
    }

    /** The row index of `word`, by exact match. */
    function Idx(word: string): (r: Option<nat>)
      ensures r.Some? ==> r.value < |vocab| && vocab[r.value] == word
      ensures r.None? <==> word !in vocab
    {
      IndexOf(vocab, word)
    }

    /** The stored vector of `word`, if it is in the vocabulary. */
    function Embedding(word: string): (r: Option<seq<real>>)
      requires Valid()
      ensures r.Some? <==> word in vocab
      ensures r.Some? ==> |r.value| == dims
    {
      match Idx(word)
      case Some(i) => Some(storage[i])
      case None => None
    }

    /**
     * One matrix row per word, in order, and one flag per word telling
     * whether it was found. A word that is not found gets a row of zeros.
     */
    function EmbeddingBatch(words: seq<string>): (b: Batch)
      requires Valid()
      ensures b.matrix.WellFormed() && b.matrix.cols == dims
      ensures b.matrix.NRows() == |words| && |b.found| == |words|
      ensures forall i :: 0 <= i < |words| ==> (b.found[i] <==> words[i] in vocab)
      ensures forall i :: 0 <= i < |words| && b.found[i] ==>
                b.matrix.rows[i] == storage[Idx(words[i]).value]
      ensures forall i :: 0 <= i < |words| && !b.found[i] ==> b.matrix.rows[i] == Zeros(dims)
    {
      Batch(Array2(BatchRows(words), dims), BatchFound(words))
    }

    function BatchRows(words: seq<string>): (rows: seq<seq<real>>)
      requires Valid()
      ensures |rows| == |words|
      ensures forall i :: 0 <= i < |words| ==>
                rows[i] == if words[i] in vocab then storage[Idx(words[i]).value] else Zeros(dims)
    {
      if words == [] then []
      else [Embedding(words[0]).GetOr(Zeros(dims))] + BatchRows(words[1..])
    }

    function BatchFound(words: seq<string>): (found: seq<bool>)
      ensures |found| == |words|
      ensures forall i :: 0 <= i < |words| ==> (found[i] <==> words[i] in vocab)
    {
      if words == [] then [] else [Idx(words[0]).Some?] + BatchFound(words[1..])
    }
  }

  /** The result of a batch lookup: the matrix of rows and the per-word found flags. */
  datatype Batch = Batch(matrix: Array2, found: seq<bool>)

  /** The first position of `word` in `vocab`. */
  function IndexOf(vocab: seq<string>, word: string): (r: Option<nat>)
    ensures r.Some? ==> r.value < |vocab| && vocab[r.value] == word && word !in vocab[..r.value]
    ensures r.None? <==> word !in vocab
  {
    if vocab == [] then None
    else if vocab[0] == word then Some(0)
    else match IndexOf(vocab[1..], word)
      case None => None
      case Some(k) =>
        assert vocab[..k + 1] == [vocab[0]] + vocab[1..][..k];
        Some(k + 1)
  }

  /** Lookup is exact: every vocabulary word is found at its own index, and at no other. */
  lemma IdxExact(e: Embeddings, i: nat)
    requires e.Valid() && i < |e.vocab|
    ensures e.Idx(e.vocab[i]) == Some(i)
    ensures e.Embedding(e.vocab[i]) == Some(e.storage[i])
  {
  }
}
