# finalfusion server and converter, modelled in Dafny

This project models the repository's own logic in its two programs.

- **The embeddings server** (`finalfusion-server`). Its `post_embeddings` handler receives the words of a request and looks them up as one batch in the loaded model. It refuses the batch with "vector size mismatch" when the batch matrix does not have one row per word. Otherwise it builds one `(word, vector)` entry per word, in order. A found word gets its batch row. An unknown word gets a zero vector as wide as the model. The aggregate is the column-wise mean of all entry vectors, so unknown words count in the denominator. It is computed by flattening the vectors and reshaping them into a (words × first-width) matrix. When that reshape fails, the aggregate stays empty and the entries are still returned. `get_model` reports status "ok" and the file name of the model path.
- **The converter** (`finalfusion-converter`). It picks the input reader from the input file's extension alone. `bin` selects fastText, `vec` selects binary word2vec, and any other extension, or none, selects the text (GloVe) reader. The embeddings read are always written in the native finalfusion format.

Modules:

- `Wrappers`: Option and Result.
- `NdArray`: the part of the array library the handler uses. It covers `from_shape_vec` (checks only the element count), `mean_axis(Axis(0))` (none on zero rows) and the flatten/reshape round trips.
- `Embeddings`: the loaded model as an immutable value: vocabulary, storage rows and dimensionality. It gives exact-match lookup (`Idx`, `Embedding`) and the batch lookup `EmbeddingBatch`.
- `Paths`: the Unix rules of Rust's `Path::file_name` and `Path::extension`.
- `Server`: the handler as the specification function `Handle` and as the imperative `PostEmbeddings` (the push loop, then the aggregate written into the response), with the lemmas about them, plus `get_model`.
- `Converter`: `Format`, `SelectFormat`, the input extension, and one conversion run with the library's readers and writer as parameters.

The handler is proved for an arbitrary batch, and `ServeFromModel` then specialises it to the batch a valid model returns. Vector values are `real`.

## Model

| member | source | states |
|---|---|---|
| `NdArray.Flatten` | rust/finalfusion-server/src/main.rs:186 | the flattened vectors hold exactly as many values as all vectors together |
| `NdArray.FromShapeVec` | rust/finalfusion-server/src/main.rs:187 | the reshape succeeds exactly when the element count equals rows × cols; the result then has that shape, is rectangular and holds the input in row-major order |
| `NdArray.FlattenChunks` | rust/finalfusion-server/src/main.rs:186-187 | cutting a flat vector into rows and flattening again gives back the flat vector |
| `NdArray.ChunksFlatten` | rust/finalfusion-server/src/main.rs:184-187 | vectors of one width, flattened and reshaped to (count, width), come back unchanged, and they hold count × width values |
| `NdArray.Chunks` | rust/finalfusion-server/src/main.rs:187 | a reshape yields the requested number of rows, each of the requested width |
| `NdArray.MeanAxis0` | rust/finalfusion-server/src/main.rs:190 | the mean along axis 0 is absent exactly when there are no rows, and otherwise has one entry per column |
| `NdArray.MeanWithinBounds` | rust/finalfusion-server/src/main.rs:190 | each entry of the mean lies between any lower and upper bound of its column |
| `NdArray.ColumnSumBounds` | rust/finalfusion-server/src/main.rs:190 | a column sum lies between the row count times a lower and an upper bound of the column |
| `Embeddings.Embeddings.Idx` | rust/finalfusion-server/src/main.rs:147 | lookup is exact: a returned index holds the word, and nothing is returned exactly when the word is not in the vocabulary |
| `Embeddings.IndexOf` | rust/finalfusion-server/src/main.rs:147 | the index returned is the first occurrence of the word; none exactly when the word is absent |
| `Embeddings.IdxExact` | rust/finalfusion-server/src/main.rs:147 | in a valid model every vocabulary word is found at its own index, and its embedding is its own storage row |
| `Embeddings.Embeddings.Embedding` | rust/finalfusion-server/src/main.rs:147 | a word has a vector exactly when it is in the vocabulary, and that vector has `dims` entries |
| `Embeddings.Embeddings.EmbeddingBatch` | rust/finalfusion-server/src/main.rs:147 | the batch has one row and one flag per word and width `dims`; a flag is set exactly when its word is known; a known word's row is its stored row, an unknown word's row is zeros |
| `Embeddings.Embeddings.BatchRows` | rust/finalfusion-server/src/main.rs:147 | row i of the batch is the stored row of word i when it is known, zeros otherwise |
| `Embeddings.Embeddings.BatchFound` | rust/finalfusion-server/src/main.rs:147 | flag i of the batch is set exactly when word i is in the vocabulary |
| `Server.Entries` | rust/finalfusion-server/src/main.rs:155-171 | one entry per word in input order; entry i carries word i, its batch row when found, and `dims` zeros when not |
| `Server.Vectors` | rust/finalfusion-server/src/main.rs:173-176 | one vector per entry, in order, each the entry's own vector |
| `Server.Aggregate` | rust/finalfusion-server/src/main.rs:183-197 | no vectors give an empty aggregate |
| `Server.Handle` | rust/finalfusion-server/src/main.rs:149-153 | the reply is an error exactly when the batch row count differs from the word count, and its message is "vector size mismatch" |
| `Server.PostEmbeddings` | rust/finalfusion-server/src/main.rs:145-197 | the loop that pushes one entry per word, followed by the aggregate written into the response, produces exactly the reply `Handle` specifies |
| `Server.HandleMismatch` | rust/finalfusion-server/src/main.rs:149-153 | a batch whose row count is not the word count yields only the "vector size mismatch" error, with no entries and no aggregate |
| `Server.HandleEntries` | rust/finalfusion-server/src/main.rs:155-171 | on success there is one entry per word and entry i carries word i; a found word carries batch row i; an unknown word carries `dims` zeros whatever row i holds |
| `Server.HandleEmpty` | rust/finalfusion-server/src/main.rs:178-183 | an empty request yields no entries and an empty aggregate, not an error |
| `Server.AggregateUniform` | rust/finalfusion-server/src/main.rs:183-191 | for non-empty vectors of one width the aggregate has that width, and entry j is the column-j sum over all vectors divided by their count |
| `Server.TotalLenAbove` | rust/finalfusion-server/src/main.rs:187 | vectors that are all at least p wide hold at least count × p values, and more when one is wider |
| `Server.TotalLenBelow` | rust/finalfusion-server/src/main.rs:187 | vectors that are all at most p wide hold at most count × p values, and fewer when one is narrower |
| `Server.AggregateTwoWidths` | rust/finalfusion-server/src/main.rs:183-195 | vectors of two different widths never fit the shape taken from the first vector, so the aggregate stays empty |
| `Server.EntriesColumnSum` | rust/finalfusion-server/src/main.rs:164-166 | summing a column over the entries adds up the found rows only, because an unknown word's zero vector adds nothing |
| `Server.HandleAggregateMean` | rust/finalfusion-server/src/main.rs:183-191 | when the batch width is the model width, the aggregate is `dims` wide, and entry j is the found rows' column sum divided by the number of all words |
| `Server.HandleAggregateWithinBounds` | rust/finalfusion-server/src/main.rs:156-191 | when the batch width is the model width, each aggregate entry lies within any bounds that hold that column of every found row and, when some word is unknown, also hold zero |
| `Server.HandleAggregateRagged` | rust/finalfusion-server/src/main.rs:186-195 | when the batch width differs from the model width and known and unknown words are mixed, the reply is still a success with all entries, but the aggregate is empty |
| `Server.BatchColumnSum` | rust/finalfusion-server/src/main.rs:157-166 | over a batch looked up in a model, the found rows' column sum is the known words' stored column sum |
| `Server.ServeFromModel` | rust/finalfusion-server/src/main.rs:145-191 | serving from a valid model never hits the size error; entry i is word i with its stored vector or zeros; the aggregate is empty for no words and otherwise `dims` wide, with entry j equal to the known words' column sum over the number of all words |
| `Server.OovDilutesAggregate` | rust/finalfusion-server/src/main.rs:155-191 | with "cat" → [1, 1] in a two-dimensional model, "cat xyzzy" yields the vectors [1, 1] and [0, 0] and the aggregate [0.5, 0.5] |
| `Server.ModelName` | rust/finalfusion-server/src/main.rs:63-68 | the model name is "" exactly when the path has no file name; otherwise it is a single plain path component |
| `Server.GetModel` | rust/finalfusion-server/src/main.rs:132-138 | the reply has status "ok" and carries the given model name unchanged |
| `Server.GetModelReportsFileName` | rust/finalfusion-server/src/main.rs:132-138 | `get_model` reports status "ok" and the last component of the model path |
| `Server.GetModelWithoutFileName` | rust/finalfusion-server/src/main.rs:63-68 | a model path ending in ".." has no file name, so the reported name is "" with status "ok" |
| `Paths.AfterLast` | rust/finalfusion-server/src/main.rs:64-65 | the text after the last separator is a suffix of the path, holds no separator, and is preceded by a separator unless it is the whole path |
| `Paths.FileName` | rust/finalfusion-server/src/main.rs:64-67 | a file name, when there is one, is a single plain component: not empty, not "." or "..", and without "/" |
| `Paths.FileNameJoin` | rust/finalfusion-server/src/main.rs:64-67 | appending "/name" to any directory makes `name` the file name |
| `Paths.FileNameBare` | rust/finalfusion-server/src/main.rs:64-67 | a plain name on its own is its own file name |
| `Paths.AfterLastJoin` | rust/finalfusion-converter/src/main.rs:23-26 | what follows the last separator is the part appended after it |
| `Paths.AfterLastWhole` | rust/finalfusion-converter/src/main.rs:23-26 | a string without the separator is its own last segment |
| `Paths.NameExtension` | rust/finalfusion-converter/src/main.rs:23-26 | an extension holds no dot and is preceded, in the name, by a dot and a non-empty stem |
| `Paths.Extension` | rust/finalfusion-converter/src/main.rs:23-26 | the extension of a path holds neither a dot nor a separator |
| `Paths.NameExtensionJoin` | rust/finalfusion-converter/src/main.rs:23-26 | `stem.ext` has extension `ext` when the stem is non-empty, the name is not ".." and `ext` has no dot |
| `Paths.NameExtensionNoDot` | rust/finalfusion-converter/src/main.rs:23-26 | a name without a dot has no extension |
| `Converter.SelectFormat` | rust/finalfusion-converter/src/main.rs:31-47 | exactly "bin" selects fastText, exactly "vec" selects binary word2vec, and every other string selects text; the match is exact and case-sensitive |
| `Converter.InputExtension` | rust/finalfusion-converter/src/main.rs:22-26 | a path without an extension gives "", and the extension never holds a dot or a separator |
| `Converter.Reader` | rust/finalfusion-converter/src/main.rs:31-47 | `FastText` selects the fastText reader, `Word2VecBinary` the binary word2vec reader and `Text` the text reader |
| `Converter.Convert` | rust/finalfusion-converter/src/main.rs:28-49 | the run aborts with the selected format and the reader's own error exactly when the selected reader fails; when that reader succeeds, the output is the native writer's bytes if the writer succeeds, and the writer's error is returned exactly when it fails |
| `Converter.ConvertUsesOnlySelectedReader` | rust/finalfusion-converter/src/main.rs:31-47 | the outcome depends only on the selected reader's result and the writer; the other readers never see the input |
| `Converter.InputExtensionJoin` | rust/finalfusion-converter/src/main.rs:22-26 | a file `stem.ext` in any directory has the input extension `ext` |
| `Converter.NoExtensionReadsText` | rust/finalfusion-converter/src/main.rs:22-46 | a file name without a dot, or whose only dot is its first character (such as ".bin"), has extension "" and is read as text |
| `Converter.DispatchModelFile` | rust/finalfusion-converter/src/main.rs:22-47 | `model.bin` is read as fastText and `model.vec` as binary word2vec; `model.txt`, `model.BIN` and every other `model.ext` are read as text, whatever the file holds |

## Left out

- The fastText, word2vec and text readers and the native writer belong to the `finalfusion` library, which is not part of this model. The converter takes them as function parameters (`Converter.Codecs`), and no byte format is modelled.
- Embeddings.Embeddings.EmbeddingBatch: the library's batch lookup is not part of this model. It is specified by exact-match lookup and zero rows for words that are not found. A subword (fastText) vocabulary can also produce vectors for words outside the vocabulary, and that is not modelled. The handler is proved for any batch, so its results do not depend on this choice.
- Loading the model at startup (`read_embeddings`), the existence check with its log line, and the `Arc` sharing of the model across requests are not modelled. The model is an immutable value.
- Tokenisation with `unicode_words` (Unicode word segmentation) is an external library. The handler takes the word sequence as input.
- 32-bit float arithmetic is modelled over `real`. The mean is exact, and no bit-exact agreement with `mean_axis` is claimed.
- JSON serialisation with its `"{}"` fallback, the HTTP status codes and the content-type header are not modelled. `ErrorResponse` stands for the 400 reply and `WordVectors` for the 200 reply. The message printed when the reshape fails is not modelled.
- Routing, middleware (tracing, compression, CORS), server bind and graceful shutdown are not modelled. They are I/O and concurrency plumbing.
- Command-line parsing, opening and creating files, and the `unwrap` panics are not modelled as file-system effects. `ReadAborted` stands for the panic on a reader error, and `WriteFailed` for the error returned from `main`. The output file is created before the input file is opened, so an aborted run leaves an empty output file behind. A failure to open the input file is not modelled.
- Paths.FileName: paths are modelled as Unicode strings with Unix separators, so the case where the file name is not valid UTF-8 (also reported as "") does not arise.
- Server.PostEmbeddings: it requires at least one flag per word when the row count matches. The handler indexes the flags without a check and would panic otherwise.

## Notes on the code

- The aggregate is not always `dims` wide. It is empty when the entry vectors have different widths and so cannot be reshaped. This happens when the batch width differs from the model width and the request mixes known and unknown words (`Server.HandleAggregateRagged`).
- `from_shape_vec` checks only the total element count. Vectors of more than two widths could pass that check and be averaged as wrongly cut rows. In the handler, entry vectors have only the batch width or the model width, so this cannot happen (`Server.AggregateTwoWidths`).
