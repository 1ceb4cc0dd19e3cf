/** Lexical normalization of relative paths, as std::filesystem::path::lexically_normal defines it, and
    the test by which text_chunker.cpp refuses paths outside the repository. */
module LexicalPath {

  // ---------------------------------------------------------------- components

  /** The parts between slashes; a path that ends in a slash has an empty last part. */
  function Parts(path: string): (parts: seq<string>)
    ensures parts != []
  {
    if path == "" then [""]
    else
      var rest := Parts(path[1..]);
      if path[0] == '/' then [""] + rest else [[path[0]] + rest[0]] + rest[1..]
  }

  function Joined(parts: seq<string>): string
    requires parts != []
  {
    if |parts| == 1 then parts[0] else parts[0] + "/" + Joined(parts[1..])
  }

  predicate NoSlashes(parts: seq<string>) {
    forall part :: part in parts ==> '/' !in part
  }

  lemma {:induction false} PartsHaveNoSlash(path: string)
    ensures NoSlashes(Parts(path))
    decreases |path|
  {
    if path != "" { PartsHaveNoSlash(path[1..]); }
  }

  lemma {:induction false} PartsOfFirst(part: string, tail: string)
    requires '/' !in part
    ensures Parts(part + "/" + tail) == [part] + Parts(tail)
    decreases |part|
  {
    var path := part + "/" + tail;
    if part == "" {
      assert path[1..] == tail;
    } else {
      PartsOfFirst(part[1..], tail);
      assert path[1..] == part[1..] + "/" + tail;
      assert path[0] == part[0] && part[0] in part;
      assert [part[0]] + part[1..] == part;
    }
  }

  lemma {:induction false} PartsOfOne(part: string)
    requires '/' !in part
    ensures Parts(part) == [part]
    decreases |part|
  {
    if part != "" {
      PartsOfOne(part[1..]);
      assert part[0] in part;
      assert [part[0]] + part[1..] == part;
    }
  }

  /** Joining and splitting are inverse. */
  lemma {:induction false} PartsOfJoined(parts: seq<string>)
    requires parts != [] && NoSlashes(parts)
    ensures Parts(Joined(parts)) == parts
    decreases |parts|
  {
    if |parts| == 1 {
      PartsOfOne(parts[0]);
    } else {
      PartsOfJoined(parts[1..]);
      PartsOfFirst(parts[0], Joined(parts[1..]));
    }
  }

  lemma {:induction false} JoinedWithEmpty(parts: seq<string>)
    requires parts != []
    ensures Joined(parts + [""]) == Joined(parts) + "/"
    decreases |parts|
  {
    if |parts| > 1 {
      JoinedWithEmpty(parts[1..]);
      assert (parts + [""])[1..] == parts[1..] + [""];
    } else {
      assert (parts + [""])[1..] == [""];
    }
  }

  // ---------------------------------------------------------------- normalization

  function Push(kept: seq<string>, part: string): seq<string> {
    if part == "" || part == "." then kept
    else if part == ".." && kept != [] && kept[|kept| - 1] != ".." then kept[..|kept| - 1]
    else kept + [part]
  }

  /** The parts that remain: a name followed by dot-dot goes, and so does every dot. */
  function Reduced(parts: seq<string>): seq<string> {
    if parts == [] then [] else Push(Reduced(parts[..|parts| - 1]), parts[|parts| - 1])
  }

  /** The path ends in something that names a directory and leaves a trailing slash. */
  predicate EndsInDirectory(parts: seq<string>) {
    parts != [] && (parts[|parts| - 1] == "" || parts[|parts| - 1] == "." || parts[|parts| - 1] == "..")
  }

  /** lexically_normal of a path that does not start with a slash. */
  function Normal(path: string): string {
    var kept := Reduced(Parts(path));
    if path == "" then ""
    else if kept == [] then "."
    else if kept[|kept| - 1] != ".." && EndsInDirectory(Parts(path)) then Joined(kept) + "/"
    else Joined(kept)
  }

  /** Dot-dots come first, and there is neither a dot nor an empty part. */
  predicate NormalForm(kept: seq<string>) {
    && (forall part :: part in kept ==> part != "" && part != ".")
    && (forall i, j :: 0 <= i < j < |kept| && kept[j] == ".." ==> kept[i] == "..")
  }

  lemma {:induction false} ReducedIsNormal(parts: seq<string>)
    ensures NormalForm(Reduced(parts)) && (NoSlashes(parts) ==> NoSlashes(Reduced(parts)))
    decreases |parts|
  {
    if parts != [] {
      var init, last := parts[..|parts| - 1], parts[|parts| - 1];
      assert last in parts && forall part :: part in init ==> part in parts;
      ReducedIsNormal(init);
      PushIsNormal(Reduced(init), last);
    }
  }

  lemma {:induction false} PushIsNormal(kept: seq<string>, part: string)
    requires NormalForm(kept)
    ensures NormalForm(Push(kept, part))
    ensures NoSlashes(kept) && '/' !in part ==> NoSlashes(Push(kept, part))
  {
    var after := Push(kept, part);
    forall x | x in after ensures x in kept || (x == part && part != "" && part != ".") {
      if x !in kept {
        var i :| 0 <= i < |after| && after[i] == x;
        assert i == |kept|;
      }
    }
    if after == kept + [part] && part == ".." && kept != [] {
      assert kept[|kept| - 1] == "..";
    }
  }

  lemma {:induction false} ReducedFixes(kept: seq<string>)
    requires NormalForm(kept)
    ensures Reduced(kept) == kept
    decreases |kept|
  {
    if kept != [] {
      var init, last := kept[..|kept| - 1], kept[|kept| - 1];
      assert forall part :: part in init ==> part in kept;
      assert last in kept && last != "" && last != ".";
      ReducedFixes(init);
      assert kept == init + [last];
    }
  }

  /** Normalizing twice is normalizing once. */
  lemma {:induction false} NormalIsIdempotent(path: string)
    ensures Normal(Normal(path)) == Normal(path)
  {
    if path != "" {
      var parts := Parts(path);
      var kept := Reduced(parts);
      PartsHaveNoSlash(path);
      ReducedIsNormal(parts);
      if kept == [] {
        PartsOfOne(".");
        assert Reduced(["."][..0]) == [];
        assert Reduced(["."]) == [];
      } else if kept[|kept| - 1] != ".." && EndsInDirectory(parts) {
        DirectoryIsFixed(kept);
      } else {
        NameIsFixed(kept);
      }
    }
  }

  lemma {:induction false} DirectoryIsFixed(kept: seq<string>)
    requires NormalForm(kept) && NoSlashes(kept) && kept != [] && kept[|kept| - 1] != ".."
    ensures Normal(Joined(kept) + "/") == Joined(kept) + "/"
  {
    var parts := kept + [""];
    JoinedWithEmpty(kept);
    assert Parts(Joined(kept) + "/") == parts by { PartsOfJoined(parts); }
    assert Reduced(parts) == kept by {
      assert parts[..|parts| - 1] == kept;
      ReducedFixes(kept);
    }
  }

  lemma {:induction false} NameIsFixed(kept: seq<string>)
    requires NormalForm(kept) && NoSlashes(kept) && kept != []
    ensures Normal(Joined(kept)) == Joined(kept)
  {
    PartsOfJoined(kept);
    ReducedFixes(kept);
    assert kept[|kept| - 1] in kept;
  }

  /** Read back, the normal form is the reduced parts; a slash follows them when the path ends in a slash, a
      dot or a dot-dot and does not lead up. */
  lemma {:induction false} NormalReadsBack(path: string)
    requires path != ""
    ensures var parts := Parts(path);
            var kept, last := Reduced(parts), parts[|parts| - 1];
            if kept == [] then Normal(path) == "."
            else if last in ["", ".", ".."] && kept[|kept| - 1] != ".." then Parts(Normal(path)) == kept + [""]
            else Parts(Normal(path)) == kept
  {
    var kept := Reduced(Parts(path));
    PartsHaveNoSlash(path);
    ReducedIsNormal(Parts(path));
    if kept != [] {
      JoinedWithEmpty(kept);
      PartsOfJoined(kept);
      PartsOfJoined(kept + [""]);
    }
  }

  lemma {:induction false} NameIsNormal(name: string)
    requires name != "" && name != "." && name != ".." && '/' !in name
    ensures Normal(name) == name
  {
    NameIsFixed([name]);
  }

  // ---------------------------------------------------------------- where a path leads

  /** The directory reached from `base`, without looking at symbolic links. */
  function Resolved(base: seq<string>, parts: seq<string>): seq<string> {
    if parts == [] then base
    else
      var at, part := Resolved(base, parts[..|parts| - 1]), parts[|parts| - 1];
      if part == "" || part == "." then at
      else if part == ".." then if at == [] then [] else at[..|at| - 1]
      else at + [part]
  }

  lemma {:induction false} PushLeadsTheSame(base: seq<string>, kept: seq<string>, part: string)
    requires NormalForm(kept)
    ensures Resolved(base, Push(kept, part)) == Resolved(base, kept + [part])
  {
    assert (kept + [part])[..|kept|] == kept;
    if part == ".." && kept != [] {
      assert kept[|kept| - 1] in kept;
    }
  }

  lemma {:induction false} OnePartMore(base: seq<string>, kept: seq<string>, others: seq<string>, part: string)
    requires Resolved(base, kept) == Resolved(base, others)
    ensures Resolved(base, kept + [part]) == Resolved(base, others + [part])
  {
    assert (kept + [part])[..|kept|] == kept && (others + [part])[..|others|] == others;
  }

  /** Normalization keeps the place a path leads to, from every directory. */
  lemma {:induction false} ReducedLeadsTheSame(base: seq<string>, parts: seq<string>)
    ensures Resolved(base, Reduced(parts)) == Resolved(base, parts)
    decreases |parts|
  {
    if parts != [] {
      var init, last := parts[..|parts| - 1], parts[|parts| - 1];
      ReducedLeadsTheSame(base, init);
      ReducedIsNormal(init);
      PushLeadsTheSame(base, Reduced(init), last);
      OnePartMore(base, Reduced(init), init, last);
      assert parts == init + [last];
    }
  }

  /** A directory, by the names from the root of the file system. */
  predicate Directory(base: seq<string>) {
    NoSlashes(base) && forall name :: name in base ==> name != "" && name != "." && name != ".."
  }

  /** Wherever the repository is, the path leads to a place in it. */
  ghost predicate StaysInside(parts: seq<string>) {
    forall base :: Directory(base) ==> base <= Resolved(base, parts)
  }

  lemma {:induction false} NamesGoDown(base: seq<string>, kept: seq<string>)
    requires NormalForm(kept) && forall part :: part in kept ==> part != ".."
    ensures Resolved(base, kept) == base + kept
    decreases |kept|
  {
    if kept != [] {
      var init, last := kept[..|kept| - 1], kept[|kept| - 1];
      assert last in kept && forall part :: part in init ==> part in kept;
      NamesGoDown(base, init);
      assert kept == init + [last];
    }
  }

  /** After a dot-dot the last name of the base is gone: whatever stands in its place comes from the path. */
  lemma {:induction false} DotDotGoesUp(base: seq<string>, kept: seq<string>)
    requires base != [] && kept != [] && kept[0] == ".."
    ensures forall i :: |base| - 1 <= i < |Resolved(base, kept)| ==> Resolved(base, kept)[i] in kept
    decreases |kept|
  {
    var init, last := kept[..|kept| - 1], kept[|kept| - 1];
    assert last in kept && forall part :: part in init ==> part in kept;
    if init == [] {
      assert Resolved(base, init) == base;
    } else {
      DotDotGoesUp(base, init);
    }
  }

  /** A name that is none of the parts. */
  lemma {:induction false} FreshName(kept: seq<string>) returns (name: string)
    ensures name !in kept && Directory([name]) && |name| > 2 && forall part :: part in kept ==> |part| < |name|
    decreases |kept|
  {
    if kept == [] {
      name := "xxx";
    } else {
      var init, last := kept[..|kept| - 1], kept[|kept| - 1];
      var shorter := FreshName(init);
      name := seq(|shorter| + |last| + 1, _ => 'x');
      assert kept == init + [last];
      assert forall part :: part in kept ==> part in init || part == last;
    }
  }

  /** A path stays inside exactly when its normal form does not begin with dot-dot. */
  lemma {:induction false} InsideExactly(parts: seq<string>)
    requires NoSlashes(parts)
    ensures StaysInside(parts) <==> Reduced(parts) == [] || Reduced(parts)[0] != ".."
  {
    var kept := Reduced(parts);
    ReducedIsNormal(parts);
    if kept != [] && kept[0] == ".." {
      var name := FreshName(kept);
      var base := [name];
      ReducedLeadsTheSame(base, parts);
      DotDotGoesUp(base, kept);
      assert |Resolved(base, kept)| > 0 ==> Resolved(base, kept)[0] in kept;
      assert base[0] !in kept;
    } else {
      forall base | Directory(base) ensures base <= Resolved(base, parts) {
        ReducedLeadsTheSame(base, parts);
        NamesGoDown(base, kept);
      }
    }
  }

  // ---------------------------------------------------------------- the test of the chunker

  predicate Absolute(path: string) {
    path != "" && path[0] == '/'
  }

  /** The path as the chunker uses it. An absolute one is refused whatever its normal form. */
  function Placed(path: string): string {
    if Absolute(path) then path else Normal(path)
  }

  /** The test of the chunker, on the path it uses. */
  predicate Refused(path: string) {
    path == "" || Absolute(path) || "../" <= path
  }

  lemma {:induction false} FirstPart(kept: seq<string>, tail: string)
    requires kept != [] && NoSlashes(kept) && (tail == "" || tail == "/")
    requires kept[|kept| - 1] == ".." ==> tail == ""
    ensures "../" <= Joined(kept) + tail <==> kept[0] == ".." && |kept| > 1
  {
    var text, first := Joined(kept) + tail, kept[0];
    assert first in kept;
    assert first <= text && (|text| > |first| ==> text[|first|] == '/');
    if "../" <= text {
      assert text[2] == '/' && text[0] == '.' && text[1] == '.';
    }
  }

  lemma {:induction false} NormalIsRelative(path: string)
    requires path != "" && !Absolute(path)
    ensures Normal(path) != "" && !Absolute(Normal(path))
  {
    var kept := Reduced(Parts(path));
    PartsHaveNoSlash(path);
    ReducedIsNormal(Parts(path));
    if kept != [] {
      assert kept[0] in kept;
      assert kept[0] <= Joined(kept) && kept[0][0] in kept[0];
    }
  }

  /** Exactly the relative paths that stay inside are accepted, and those that lead to the parent of the
      repository: a lone dot-dot has no slash after it. */
  lemma {:induction false} AcceptedExactly(path: string)
    ensures !Refused(Placed(path)) <==>
            path != "" && !Absolute(path) && (StaysInside(Parts(path)) || Normal(path) == "..")
  {
    if path != "" && !Absolute(path) {
      var kept := Reduced(Parts(path));
      PartsHaveNoSlash(path);
      ReducedIsNormal(Parts(path));
      InsideExactly(Parts(path));
      NormalIsRelative(path);
      if kept != [] {
        var tail := if kept[|kept| - 1] != ".." && EndsInDirectory(Parts(path)) then "/" else "";
        FirstPart(kept, tail);
      }
    }
  }

  /** The parent of the repository is accepted. */
  lemma {:induction false} ParentIsAccepted()
    ensures !Refused(Placed("..")) && !StaysInside(Parts(".."))
  {
    PartsOfOne("..");
    var parts := [".."];
    assert parts[..0] == [];
    assert Reduced(parts) == parts;
    InsideExactly(parts);
    AcceptedExactly("..");
  }
}
