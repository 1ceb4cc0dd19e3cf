/** Which files a scan hands to the update (file_scanner.cpp): the language of a name. */
module SourceFiles {
  /** The part of a path after its last slash. */
  function Filename(path: string): (r: string)
    ensures '/' !in r && |r| <= |path| && r == path[|path| - |r|..]
  {
    if '/' !in path then path else Filename(path[1..])
  }

  /** The place of the last dot, or -1. */
  function LastDot(name: string): (d: int)
    ensures -1 <= d < |name| && (d >= 0 ==> name[d] == '.') && forall i :: d < i < |name| ==> name[i] != '.'
  {
    if name == "" then -1
    else if name[|name| - 1] == '.' then |name| - 1
    else LastDot(name[..|name| - 1])
  }

  /** std::filesystem::path::extension: a leading dot and the name ".." start none. */
  function Extension(name: string): string {
    if LastDot(name) <= 0 || name == ".." then "" else name[LastDot(name)..]
  }

  /** The language of an extension; empty for one that is not indexed. */
  function LanguageOf(extension: string): string {
    if extension == ".cmake" then "cmake"
    else if extension == ".c" then "c"
    else if extension == ".cc" || extension == ".cpp" || extension == ".cxx" || extension == ".ipp"
            || extension == ".tpp" then "cpp"
    else if extension == ".h" || extension == ".hh" || extension == ".hpp" || extension == ".hxx" then "cpp-header"
    else ""
  }

  /** source_language: a file without one is not indexed. */
  function SourceLanguage(path: string): string {
    if Filename(path) == "CMakeLists.txt" then "cmake" else LanguageOf(Extension(Filename(path)))
  }

  /** The name is a stem followed by the suffix. */
  predicate NamedWith(name: string, suffix: string) {
    |name| > |suffix| && name[|name| - |suffix|..] == suffix
  }

  lemma {:induction false} ExtensionIsSuffix(name: string, suffix: string)
    requires |suffix| > 1 && suffix[0] == '.' && '.' !in suffix[1..]
    ensures Extension(name) == suffix <==> NamedWith(name, suffix)
  {
    var d := |name| - |suffix|;
    if NamedWith(name, suffix) {
      assert name[d] == suffix[0];
      forall i | d < i < |name| ensures name[i] != '.' {
        assert name[i] == suffix[i - d] == suffix[1..][i - d - 1];
      }
      assert LastDot(name) == d;
    }
  }

  /** A name in the root directory that ends in .c is a C source. */
  lemma {:induction false} CFileIsIndexed(stem: string)
    requires stem != "" && '/' !in stem
    ensures SourceLanguage(stem + ".c") == "c"
  {
    var name := stem + ".c";
    assert Filename(name) == name;
    assert name[|name| - 2..] == ".c";
    ExtensionIsSuffix(name, ".c");
  }
}
