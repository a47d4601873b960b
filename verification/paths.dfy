/**
 * The two queries on a Unix path that the programs use: the final
 * component (`file_name`), which names the served model, and the
 * extension of that component (`extension`), which selects the
 * converter's input reader. Both follow the documented rules of Rust's
 * `std::path::Path`: trailing separators and `.` components are skipped,
 * a path ending in `..` has no file name, and a name whose only dot is
 * its first character has no extension.
 */
module Paths {
  import opened Wrappers

  /** The part of `s` after its last `c`; all of `s` when `c` does not occur. */
  function AfterLast(s: string, c: char): (t: string)
    ensures |t| <= |s| && t == s[|s| - |t|..]
    ensures c !in t
    ensures |t| < |s| ==> s[|s| - |t| - 1] == c
  {
    if s == [] || s[|s| - 1] == c then [] else AfterLast(s[..|s| - 1], c) + [s[|s| - 1]]
  }

  /** A single normal path component: not empty, not `.` or `..`, and free of separators. */
  predicate PlainName(name: string) {
    name != [] && name != "." && name != ".." && '/' !in name
  }

  /** The final normal component of `p`; none for "", "/", "." or a path ending in "..". */
  function FileName(p: string): (r: Option<string>)
    ensures r.Some? ==> PlainName(r.value)
    decreases |p|
  {
    var name := AfterLast(p, '/');
    if name == ".." then None
    else if name != [] && name != "." then Some(name)
    else if |name| == |p| then None
    else FileName(p[..|p| - |name| - 1])
  }

  /** The text after the last dot of a file name; none without a dot or when the only dot leads. */
  function NameExtension(name: string): (r: Option<string>)
    ensures r.Some? ==> '.' !in r.value && |r.value| + 1 < |name|
    ensures r.Some? ==> name == name[..|name| - |r.value| - 1] + "." + r.value
  {
    var after := AfterLast(name, '.');
    if name == ".." || |after| == |name| || |after| + 1 == |name| then None
    else
      assert name == name[..|name| - |after| - 1] + [name[|name| - |after| - 1]] + after;
      Some(after)
  }

  /** The extension of the final component of `p`. */
  function Extension(p: string): (r: Option<string>)
    ensures r.Some? ==> '.' !in r.value && '/' !in r.value
  {
    match FileName(p)
    case None => None
    case Some(name) => NameExtension(name)
  }

  /** What follows the last separator is the component appended after it. */
  lemma {:induction false} AfterLastJoin(prefix: string, c: char, last: string)
    requires c !in last
    ensures AfterLast(prefix + [c] + last, c) == last
    decreases |last|
  {
    var s := prefix + [c] + last;
    if last == [] {
      assert s[|s| - 1] == c;
    } else {
      var init := last[..|last| - 1];
      assert s[..|s| - 1] == prefix + [c] + init;
      AfterLastJoin(prefix, c, init);
      assert last == init + [last[|last| - 1]];
    }
  }

  /** A component without the separator is its own last segment. */
  lemma {:induction false} AfterLastWhole(s: string, c: char)
    requires c !in s
    ensures AfterLast(s, c) == s
    decreases |s|
  {
    if s != [] {
      AfterLastWhole(s[..|s| - 1], c);
      assert s == s[..|s| - 1] + [s[|s| - 1]];
    }
  }

  /** Appending a plain name to a directory makes that name the file name. */
  lemma FileNameJoin(dir: string, name: string)
    requires PlainName(name)
    ensures FileName(dir + "/" + name) == Some(name)
  {
    AfterLastJoin(dir, '/', name);
  }

  /** A bare plain name is its own file name. */
  lemma FileNameBare(name: string)
    requires PlainName(name)
    ensures FileName(name) == Some(name)
  {
    AfterLastWhole(name, '/');
  }

  /** `stem.ext` has extension `ext` when the stem is not empty, the name is not "..", and `ext` holds no dot. */
  lemma NameExtensionJoin(stem: string, ext: string)
    requires stem != [] && stem + "." + ext != ".." && '.' !in ext
    ensures NameExtension(stem + "." + ext) == Some(ext)
  {
    AfterLastJoin(stem, '.', ext);
    var name := stem + "." + ext;
    assert name[..|stem|] == stem;
  }

  /** A name without any dot has no extension. */
  lemma NameExtensionNoDot(name: string)
    requires '.' !in name
    ensures NameExtension(name) == None
  {
    AfterLastWhole(name, '.');
  }
}
