/** Why the id assumption of the index is needed: whatever the 64-bit hash is, some two one-line files
    under different paths get the same chunk id, and replacing the one by the other loses a vector. */
module IndexCollisions {
  import opened Base
  import opened SqliteRepository
  import opened IndexUpdate
  import opened TextChunker
  import IndexChunking
  import Decimal
  import LexicalPath
  import SourceFiles

  // ---------------------------------------------------------------- more paths than hashes

  lemma {:induction false} DistinctImages(f: nat -> nat, n: nat)
    requires forall i: nat, j: nat :: i < j < n ==> f(i) != f(j)
    ensures |set i: nat | i < n :: f(i)| == n
    decreases n
  {
    if n > 0 {
      DistinctImages(f, n - 1);
      assert (set i: nat | i < n :: f(i)) == (set i: nat | i < n - 1 :: f(i)) + {f(n - 1)};
      assert f(n - 1) !in set i: nat | i < n - 1 :: f(i);
    }
  }

  /** The numbers below m. */
  function Below(m: nat): (s: set<nat>)
    ensures |s| == m && forall i: nat :: i in s <==> i < m
  {
    if m == 0 then {} else Below(m - 1) + {m - 1}
  }

  /** Of m + 1 values below m two are equal. */
  lemma {:induction false} Pigeonhole(f: nat -> nat, m: nat) returns (i: nat, j: nat)
    requires forall k: nat :: k <= m ==> f(k) < m
    ensures i < j <= m && f(i) == f(j)
  {
    if exists i: nat, j: nat :: i < j <= m && f(i) == f(j) {
      i, j :| i < j <= m && f(i) == f(j);
    } else {
      DistinctImages(f, m + 1);
      SubsetSize(set k: nat | k < m + 1 :: f(k), Below(m));
      assert false;
    }
  }

  // ---------------------------------------------------------------- one-line files

  const LINE: string := "x"

  /** The chunk of the one-line file at a path. */
  function OnlyChunk(h: Host, path: string, o: Options): Chunk {
    ChunkOf(h, path, [LINE], Window(0, 1), o)
  }

  lemma {:induction false} OneLinePlan(o: Options)
    requires ValidOptions(o)
    ensures Lines(LINE) == [LINE] && Plan([LINE], 0, o) == Returned([Window(0, 1)])
  {
    assert LINE[0..1] == LINE && NewlineFrom(LINE, 0) == 1;
    assert Raw(LINE) == [LINE];
    assert Fit([LINE], 0, 1, o.maxBytes) == 1;
  }

  lemma {:induction false} OneLineChunks(h: Host, path: string, o: Options)
    requires ValidOptions(o) && !LexicalPath.Refused(path)
    ensures IndexChunking.Chunker(h, o)(path, LINE) == Some([OnlyChunk(h, path, o)])
  {
    OneLinePlan(o);
    assert ChunksOf(h, path, [LINE], [Window(0, 1)], o) == [OnlyChunk(h, path, o)];
  }

  /** A path the scan hands to the update: in normal form, in the repository, and a C source by its name. */
  predicate CSource(path: string) {
    && NulFree(path) && !LexicalPath.Refused(path) && LexicalPath.Normal(path) == path
    && SourceFiles.SourceLanguage(path) == "c"
  }

  /** The C file whose name is the number. */
  function Numbered(n: nat): string {
    Decimal.ToString(n) + ".c"
  }

  lemma {:induction false} NumberedIsSource(n: nat)
    ensures CSource(Numbered(n))
  {
    DigitsAreSource(Decimal.ToString(n));
  }

  lemma {:induction false} DigitsAreSource(s: string)
    requires s != [] && forall i :: 0 <= i < |s| ==> Decimal.IsDigit(s[i])
    ensures CSource(s + ".c")
  {
    var path := s + ".c";
    assert !LexicalPath.Refused(path) by { assert path[0] == s[0] && Decimal.IsDigit(s[0]); }
    assert NulFree(path) by { assert forall i :: 0 <= i < |s| ==> path[i] == s[i]; }
    assert LexicalPath.Normal(path) == path by { LexicalPath.NameIsNormal(path); }
    SourceFiles.CFileIsIndexed(s);
  }

  lemma {:induction false} NumberedApart(i: nat, j: nat)
    requires i != j
    ensures Numbered(i) != Numbered(j)
  {
    var p, q := Numbered(i), Numbered(j);
    if p == q {
      assert p[..|p| - 2] == Decimal.ToString(i) && q[..|q| - 2] == Decimal.ToString(j);
      Decimal.ToStringInjective(i, j);
    }
  }

  /** Whatever the hash: two different C sources of one line each that have one chunk id. */
  lemma {:induction false} SomeIdIsShared(h: Host, o: Options) returns (p: string, q: string)
    requires ValidOptions(o)
    ensures p != q && CSource(p) && CSource(q)
    ensures OnlyChunk(h, p, o).id == OnlyChunk(h, q, o).id
  {
    var f := (n: nat) => OnlyChunk(h, Numbered(n), o).id as nat;
    var i, j := Pigeonhole(f, U64_MODULUS);
    p, q := Numbered(i), Numbered(j);
    NumberedIsSource(i);
    NumberedIsSource(j);
    NumberedApart(i, j);
  }

  /** With the chunker of the source, any hash, any valid options and any embedder that answers for the
      line: there are two C sources such that indexing the first, then replacing it by the second, stores
      a chunk without a vector. */
  lemma {:induction false} SomeUpdateLosesVector(env: Env, h: Host, o: Options, e: Embedding)
    returns (f: File, g: File, id: u64)
    requires ValidOptions(o) && env.chunk == IndexChunking.Chunker(h, o) && env.embed([LINE]) == Some([e])
    ensures f.path != g.path && CSource(f.path) && CSource(g.path)
    ensures IndexFile(env, f.path, f.content).Some?
    ensures var x := IndexFile(env, f.path, f.content).value;
            var l, v := TablesOf(env, f, x), VectorsOf(x);
            var scanned := Scan(env, l, v, [g], 1);
            && Linked(l, v) && ListedPaths([f.path]) == Removed(l, [g])
            && scanned.Some? && Storable(EraseAll(l, [f.path]), scanned.value.replacements)
            && id in ReplaceAll(EraseAll(l, [f.path]), scanned.value.replacements).chunks
            && id !in FinalVectors(l, scanned.value, [g])
  {
    var p, q := SomeIdIsShared(h, o);
    f, g, id := File(p, LINE, 0), File(q, LINE, 0), OnlyChunk(h, p, o).id;
    IndexesOneLine(env, h, o, e, p);
    IndexesOneLine(env, h, o, e, q);
    var x, y := Indexed([OnlyChunk(h, p, o)], [e]), Indexed([OnlyChunk(h, q, o)], [e]);
    assert x.chunks[0].id in Ids(x.chunks) && y.chunks[0].id in Ids(y.chunks);
    SharedIdLosesVector(env, f, g, x, y, id);
  }

  lemma {:induction false} IndexesOneLine(env: Env, h: Host, o: Options, e: Embedding, path: string)
    requires ValidOptions(o) && env.chunk == IndexChunking.Chunker(h, o) && env.embed([LINE]) == Some([e])
    requires !LexicalPath.Refused(path)
    ensures IndexFile(env, path, LINE) == Some(Indexed([OnlyChunk(h, path, o)], [e]))
  {
    OneLineChunks(h, path, o);
    assert OnlyChunk(h, path, o).content == LINE;
    assert Texts([OnlyChunk(h, path, o)]) == [LINE];
  }
}
