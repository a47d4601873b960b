/**
 * The converter: the reader for the input file is chosen from the file's
 * extension alone (`bin` for fastText, `vec` for binary word2vec, anything
 * else, a missing extension included, for the text/GloVe format), the
 * embeddings it reads are written in the native finalfusion format.
 * The readers and the writer belong to the embeddings library and are
 * parameters here. The output file is created before the input file is
 * opened, so a run that fails to read still leaves an empty output file.
 */
module Converter {
  import opened Wrappers
  import opened Embeddings
  import Paths

  type Bytes = seq<bv8>

  /** The input formats the converter can read. */
  datatype Format = FastText | Word2VecBinary | Text

  /** The reader for an extension: exact, case-sensitive, and total. */
  function SelectFormat(ext: string): (f: Format)
    ensures f == FastText <==> ext == "bin"
    ensures f == Word2VecBinary <==> ext == "vec"
    ensures f == Text <==> ext != "bin" && ext != "vec"
  {
    if ext == "bin" then FastText
    else if ext == "vec" then Word2VecBinary
    else Text
  }

  /** The extension of the input path, "" when it has none. */
  function InputExtension(inputPath: string): (ext: string)
    ensures Paths.Extension(inputPath).None? ==> ext == ""
    ensures '.' !in ext && '/' !in ext
  {
    Paths.Extension(inputPath).GetOr("")
  }

  /** The library's three readers and its native writer. */
  datatype Codecs = Codecs(
    readFastText: Bytes -> Result<Embeddings, string>,
    readWord2VecBinary: Bytes -> Result<Embeddings, string>,
    readText: Bytes -> Result<Embeddings, string>,
    writeEmbeddings: Embeddings -> Result<Bytes, string>)

  /** The library reader for a format. */
  function Reader(codecs: Codecs, format: Format): (read: Bytes -> Result<Embeddings, string>)
    ensures format == FastText ==> read == codecs.readFastText
    ensures format == Word2VecBinary ==> read == codecs.readWord2VecBinary
    ensures format == Text ==> read == codecs.readText
  {
    match format
    case FastText => codecs.readFastText
    case Word2VecBinary => codecs.readWord2VecBinary
    case Text => codecs.readText
  }

  /**
   * How a run ends: the native bytes were written; the reader failed, which
   * aborts the process; or the writer failed, which is returned as an error.
   */
  datatype Outcome =
    | Written(output: Bytes)
    | ReadAborted(format: Format, error: string)
    | WriteFailed(error: string)

  /** One conversion run on the contents `input` of the file at `inputPath`. */
  function Convert(inputPath: string, input: Bytes, codecs: Codecs): (o: Outcome)
    ensures o.ReadAborted? ==> o.format == SelectFormat(InputExtension(inputPath))
    ensures o.ReadAborted? <==> Reader(codecs, SelectFormat(InputExtension(inputPath)))(input).Err?
    ensures o.ReadAborted? ==> o.error == Reader(codecs, SelectFormat(InputExtension(inputPath)))(input).error
    ensures o.Written? ==>
              var read := Reader(codecs, SelectFormat(InputExtension(inputPath)))(input);
              read.Ok? && codecs.writeEmbeddings(read.value) == Ok(o.output)
    ensures var read := Reader(codecs, SelectFormat(InputExtension(inputPath)))(input);
            read.Ok? && codecs.writeEmbeddings(read.value).Ok? ==>
              o == Written(codecs.writeEmbeddings(read.value).value)
    ensures var read := Reader(codecs, SelectFormat(InputExtension(inputPath)))(input);
            o.WriteFailed? <==> read.Ok? && codecs.writeEmbeddings(read.value).Err?
    ensures o.WriteFailed? ==>
              var read := Reader(codecs, SelectFormat(InputExtension(inputPath)))(input);
              o.error == codecs.writeEmbeddings(read.value).error
  {
    var format := SelectFormat(InputExtension(inputPath));
    match Reader(codecs, format)(input)
    case Err(e) => ReadAborted(format, e)
    case Ok(embeddings) =>
      match codecs.writeEmbeddings(embeddings)
      case Ok(bytes) => Written(bytes)
      case Err(e) => WriteFailed(e)
  }

  /**
   * Only the selected reader matters: two sets of codecs that agree on the
   * selected reader's result for this input and on the writer give the same
   * outcome, whatever the other readers would do with the input.
   */
  lemma ConvertUsesOnlySelectedReader(inputPath: string, input: Bytes, c1: Codecs, c2: Codecs)
    requires Reader(c1, SelectFormat(InputExtension(inputPath)))(input)
          == Reader(c2, SelectFormat(InputExtension(inputPath)))(input)
    requires c1.writeEmbeddings == c2.writeEmbeddings
    ensures Convert(inputPath, input, c1) == Convert(inputPath, input, c2)
  {
  }

  /** A file named `stem.ext` in any directory has extension `ext`. */
  lemma InputExtensionJoin(dir: string, name: string, stem: string, ext: string)
    requires name == stem + "." + ext
    requires stem != [] && name != ".." && '/' !in stem
    requires '/' !in ext && '.' !in ext
    ensures InputExtension(dir + "/" + name) == ext
  {
    assert name[..|stem|] == stem;
    Paths.FileNameJoin(dir, name);
    Paths.NameExtensionJoin(stem, ext);
  }

  /** A file name without a dot, or whose only dot leads it, has no extension and is read as text. */
  lemma NoExtensionReadsText(dir: string, name: string)
    requires Paths.PlainName(name)
    requires '.' !in name || (name[0] == '.' && '.' !in name[1..])
    ensures InputExtension(dir + "/" + name) == ""
    ensures SelectFormat(InputExtension(dir + "/" + name)) == Text
  {
    Paths.FileNameJoin(dir, name);
    if '.' !in name {
      Paths.NameExtensionNoDot(name);
    } else {
      assert name == [] + ['.'] + name[1..];
      Paths.AfterLastJoin([], '.', name[1..]);
    }
  }

  /**
   * Whatever the file holds, `model.bin` is read as fastText, `model.vec` as
   * binary word2vec, and `model.txt`, `model.BIN` or any other `model.ext`
   * as text: the match is exact and case-sensitive.
   */
  lemma DispatchModelFile(dir: string, ext: string)
    requires '/' !in ext && '.' !in ext
    ensures ext == "bin" ==> SelectFormat(InputExtension(dir + "/model." + ext)) == FastText
    ensures ext == "vec" ==> SelectFormat(InputExtension(dir + "/model." + ext)) == Word2VecBinary
    ensures ext != "bin" && ext != "vec" ==> SelectFormat(InputExtension(dir + "/model." + ext)) == Text
  {
    assert dir + "/model." + ext == dir + "/" + ("model" + "." + ext);
    InputExtensionJoin(dir, "model" + "." + ext, "model", ext);
  }
}
