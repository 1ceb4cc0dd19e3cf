/** The incremental update of IndexService (index_service.cpp): which documents are re-embedded, what
    happens to the vector map, and what the database statements make of the tables.

    `Coherent` is the reference: tables and vector map are exactly what indexing the given file
    contents from scratch produces. The update is proved to move from coherent to coherent. */
module IndexUpdate {
  import opened Base
  import opened SqliteRepository

  type Embedding = seq<u32>
  type Vectors = map<u64, Embedding>

  /** A scanned file. */
  datatype File = File(path: string, content: string, modifiedNs: int)

  /** What stays fixed between updates: the content hash, the chunker (None: it throws) and the
      embedder (None: it throws). All three are arbitrary functions. */
  datatype Env = Env(hash: string -> string,
                     chunk: (string, string) -> Option<seq<Chunk>>,
                     embed: seq<string> -> Option<seq<Embedding>>)

  // ---------------------------------------------------------------- indexing one file

  function Texts(chunks: seq<Chunk>): (ts: seq<string>)
    ensures |ts| == |chunks| && forall i :: 0 <= i < |ts| ==> ts[i] == chunks[i].content
  {
    seq(|chunks|, i requires 0 <= i < |chunks| => chunks[i].content)
  }

  datatype Indexed = Indexed(chunks: seq<Chunk>, embeddings: seq<Embedding>)

  /** Chunks of a file with one embedding for each; an embedder that answers with another number of
      vectors breaks its interface and counts as failed. */
  function IndexFile(env: Env, path: string, content: string): (r: Option<Indexed>)
    ensures r.Some? ==> |r.value.chunks| == |r.value.embeddings|
  {
    match env.chunk(path, content)
    case None => None
    case Some(chunks) =>
      match env.embed(Texts(chunks))
      case None => None
      case Some(embeddings) =>
        if |embeddings| == |chunks| then Some(Indexed(chunks, embeddings)) else None
  }

  /** insert_or_assign of the first `n` chunks of a file, in order. */
  function InsertFirst(v: Vectors, x: Indexed, n: nat): Vectors
    requires n <= |x.chunks| == |x.embeddings|
  {
    if n == 0 then v else InsertFirst(v, x, n - 1)[x.chunks[n - 1].id := x.embeddings[n - 1]]
  }

  function InsertAll(v: Vectors, x: Indexed): Vectors
    requires |x.chunks| == |x.embeddings|
  {
    InsertFirst(v, x, |x.chunks|)
  }

  function VectorsOf(x: Indexed): Vectors
    requires |x.chunks| == |x.embeddings|
  {
    InsertAll(map[], x)
  }

  function DocumentOf(env: Env, f: File, chunks: seq<Chunk>): StoredDocument {
    StoredDocument(f.path, env.hash(f.content), |f.content|, f.modifiedNs, "text-v1", chunks)
  }

  lemma {:induction false} InsertFirstAdds(v: Vectors, x: Indexed, n: nat)
    requires n <= |x.chunks| == |x.embeddings|
    ensures InsertFirst(v, x, n) == v + InsertFirst(map[], x, n)
    ensures InsertFirst(map[], x, n).Keys == Ids(x.chunks[..n])
  {
    if n > 0 {
      InsertFirstAdds(v, x, n - 1);
      IdsAppend(x.chunks, n - 1);
    }
  }

  lemma {:induction false} IdsAppend(chunks: seq<Chunk>, n: nat)
    requires n < |chunks|
    ensures Ids(chunks[..n + 1]) == Ids(chunks[..n]) + {chunks[n].id}
  {
    var more := chunks[..n + 1];
    assert forall i :: 0 <= i < n ==> more[i] == chunks[..n][i];
    assert more[n].id in Ids(more);
  }

  lemma {:induction false} InsertAllAdds(v: Vectors, x: Indexed)
    requires |x.chunks| == |x.embeddings|
    ensures InsertAll(v, x) == v + VectorsOf(x)
    ensures VectorsOf(x).Keys == Ids(x.chunks)
  {
    InsertFirstAdds(v, x, |x.chunks|);
    assert x.chunks[..|x.chunks|] == x.chunks;
  }

  // ---------------------------------------------------------------- the diff

  function DocIds(l: Logical, path: string): set<u64> {
    set id | id in l.chunks && l.chunks[id].path == path
  }

  /** State of the loop over the scanned files. */
  datatype Progress = Progress(vectors: Vectors, replacements: seq<StoredDocument>, added: nat,
                               changed: nat, kept: nat, embedded: nat)

  predicate Unchanged(env: Env, l: Logical, f: File) {
    f.path in l.documents && l.documents[f.path].contentHash == env.hash(f.content)
  }

  function ScanFile(env: Env, l: Logical, p: Progress, f: File): Option<Progress> {
    if Unchanged(env, l, f) then Some(p.(kept := p.kept + 1))
    else
      match IndexFile(env, f.path, f.content)
      case None => None
      case Some(x) =>
        var known := f.path in l.documents;
        Some(Progress(InsertAll(if known then p.vectors - DocIds(l, f.path) else p.vectors, x),
                      p.replacements + [DocumentOf(env, f, x.chunks)],
                      if known then p.added else p.added + 1,
                      if known then p.changed + 1 else p.changed,
                      p.kept, p.embedded + |x.chunks|))
  }

  /** The loop over the first `n` files; None when chunking or embedding one of them fails. */
  function Scan(env: Env, l: Logical, v: Vectors, files: seq<File>, n: nat): Option<Progress>
    requires n <= |files|
  {
    if n == 0 then Some(Progress(v, [], 0, 0, 0, 0))
    else
      match Scan(env, l, v, files, n - 1)
      case None => None
      case Some(p) => ScanFile(env, l, p, files[n - 1])
  }

  function PathSet(files: seq<File>): set<string> {
    set i | 0 <= i < |files| :: files[i].path
  }

  predicate DistinctPaths(files: seq<File>) {
    forall i, j :: 0 <= i < j < |files| ==> files[i].path != files[j].path
  }

  /** Documents whose file is gone, and the ids of their chunks. */
  function Removed(l: Logical, files: seq<File>): set<string> {
    l.documents.Keys - PathSet(files)
  }

  function RemovedIds(l: Logical, files: seq<File>): set<u64> {
    set id | id in l.chunks && l.chunks[id].path in Removed(l, files)
  }

  /** The vector map an update ends with. */
  function FinalVectors(l: Logical, p: Progress, files: seq<File>): Vectors {
    p.vectors - RemovedIds(l, files)
  }

  // ---------------------------------------------------------------- the statements, on the view

  function EraseAll(l: Logical, paths: seq<string>): Logical {
    if paths == [] then l else Erase(EraseAll(l, paths[..|paths| - 1]), paths[|paths| - 1])
  }

  function ReplaceAll(l: Logical, documents: seq<StoredDocument>): Logical {
    if documents == [] then l
    else Replace(ReplaceAll(l, documents[..|documents| - 1]), documents[|documents| - 1])
  }

  /** No replacement violates the primary key of the chunk table. */
  ghost predicate Storable(l: Logical, documents: seq<StoredDocument>) {
    documents == [] ||
    (Storable(l, documents[..|documents| - 1])
     && Insertable(ReplaceAll(l, documents[..|documents| - 1]), documents[|documents| - 1]))
  }

  // ---------------------------------------------------------------- the reference

  ghost predicate Indexable(env: Env, path: string, content: string) {
    IndexFile(env, path, content).Some? && DistinctIds(IndexFile(env, path, content).value.chunks)
  }

  ghost function Rows(env: Env, path: string, content: string): map<u64, ChunkView>
    requires Indexable(env, path, content)
  {
    RowsOf(path, IndexFile(env, path, content).value.chunks, 0)
  }

  ghost function Embeds(env: Env, path: string, content: string): Vectors
    requires Indexable(env, path, content)
  {
    VectorsOf(IndexFile(env, path, content).value)
  }

  /** The document row a full indexing of `content` writes, but for the modification time. */
  ghost predicate RowMatches(env: Env, row: DocumentRow, path: string, content: string) {
    row.(modifiedNs := 0) == DocumentRow(path, env.hash(content), |content|, 0, "text-v1")
  }

  /** Chunk `id` is stored with the row and the vector that indexing `content` gives. */
  ghost predicate ChunkCoherent(env: Env, l: Logical, v: Vectors, path: string, content: string, id: u64)
    requires Indexable(env, path, content)
  {
    && id in l.chunks && id in Rows(env, path, content) && l.chunks[id] == Rows(env, path, content)[id]
    && id in v && id in Embeds(env, path, content) && v[id] == Embeds(env, path, content)[id]
  }

  /** Everything stored for `path` is what indexing `content` gives. */
  ghost predicate DocumentCoherent(env: Env, l: Logical, v: Vectors, path: string, content: string) {
    && path in l.documents && RowMatches(env, l.documents[path], path, content)
    && Indexable(env, path, content)
    && (forall id {:trigger ChunkCoherent(env, l, v, path, content, id)} ::
          id in Rows(env, path, content) ==> ChunkCoherent(env, l, v, path, content, id))
  }

  /** Chunk `id` belongs to one of the files. */
  ghost predicate Owned(env: Env, l: Logical, contents: map<string, string>, id: u64)
    requires id in l.chunks
  {
    var path := l.chunks[id].path;
    path in contents && Indexable(env, path, contents[path]) && id in Rows(env, path, contents[path])
  }

  ghost predicate NothingElse(env: Env, l: Logical, v: Vectors, contents: map<string, string>) {
    && l.documents.Keys == contents.Keys
    && v.Keys == l.chunks.Keys
    && (forall id {:trigger Owned(env, l, contents, id)} :: id in l.chunks ==> Owned(env, l, contents, id))
  }

  /** Tables and vectors are exactly those of the file contents. */
  ghost predicate Coherent(env: Env, l: Logical, v: Vectors, contents: map<string, string>) {
    CoherentIn(env)(l, v, contents)
  }

  /** Coherence as a function value, so that the inductions below carry it as one fact. */
  ghost function CoherentIn(env: Env): (Logical, Vectors, map<string, string>) -> bool {
    (l, v, contents) => NothingElse(env, l, v, contents) && NothingMissing(env, l, v, contents)
  }

  ghost predicate NothingMissing(env: Env, l: Logical, v: Vectors, contents: map<string, string>) {
    forall path {:trigger DocumentCoherent(env, l, v, path, contents[path])} ::
      path in contents ==> DocumentCoherent(env, l, v, path, contents[path])
  }

  /** The contents determine tables and vectors: modification times aside, nothing depends on the
      history of updates that led there. */
  lemma {:induction false} CoherentIsUnique(env: Env, l1: Logical, v1: Vectors, l2: Logical, v2: Vectors,
                                            contents: map<string, string>)
    requires Coherent(env, l1, v1, contents) && Coherent(env, l2, v2, contents)
    ensures l1.chunks == l2.chunks && v1 == v2
    ensures l1.documents.Keys == l2.documents.Keys
    ensures forall path :: path in l1.documents ==>
              l1.documents[path].(modifiedNs := 0) == l2.documents[path].(modifiedNs := 0)
  {
    SameRows(env, l1, v1, l2, v2, contents);
    SameRows(env, l2, v2, l1, v1, contents);
    SubMapBothWays(l1.chunks, l2.chunks);
    SubMapBothWays(v1, v2);
    SameDocuments(env, l1, v1, l2, v2, contents);
  }

  lemma {:induction false} SameDocuments(env: Env, l1: Logical, v1: Vectors, l2: Logical, v2: Vectors,
                                         contents: map<string, string>)
    requires Coherent(env, l1, v1, contents) && Coherent(env, l2, v2, contents)
    ensures l1.documents.Keys == l2.documents.Keys
    ensures forall path :: path in l1.documents ==>
              l1.documents[path].(modifiedNs := 0) == l2.documents[path].(modifiedNs := 0)
  {
    forall path | path in l1.documents
      ensures l1.documents[path].(modifiedNs := 0) == l2.documents[path].(modifiedNs := 0)
    {
      assert DocumentCoherent(env, l1, v1, path, contents[path]);
      assert DocumentCoherent(env, l2, v2, path, contents[path]);
    }
  }

  ghost predicate SubMap<K, V>(a: map<K, V>, b: map<K, V>) {
    forall k :: k in a ==> k in b && b[k] == a[k]
  }

  lemma {:induction false} SubMapBothWays<K, V>(a: map<K, V>, b: map<K, V>)
    requires SubMap(a, b) && SubMap(b, a)
    ensures a == b
  {
  }

  lemma {:induction false} SameRows(env: Env, l1: Logical, v1: Vectors, l2: Logical, v2: Vectors,
                                    contents: map<string, string>)
    requires Coherent(env, l1, v1, contents) && Coherent(env, l2, v2, contents)
    ensures SubMap(l1.chunks, l2.chunks) && SubMap(v1, v2)
  {
    forall id | id in l1.chunks
      ensures id in l2.chunks && l2.chunks[id] == l1.chunks[id] && id in v1 && id in v2 && v2[id] == v1[id]
    {
      assert Owned(env, l1, contents, id);
      var path := l1.chunks[id].path;
      assert DocumentCoherent(env, l1, v1, path, contents[path]);
      assert DocumentCoherent(env, l2, v2, path, contents[path]);
      assert ChunkCoherent(env, l1, v1, path, contents[path], id);
      assert ChunkCoherent(env, l2, v2, path, contents[path], id);
    }
  }

  lemma {:induction false} EmptyIsCoherent(env: Env)
    ensures Coherent(env, Logical(map[], map[]), map[], map[])
  {
  }

  // ---------------------------------------------------------------- one document at a time

  /** In coherent tables the chunks of a document are the rows of its content. */
  lemma {:induction false} CoherentDocIds(env: Env, l: Logical, v: Vectors, contents: map<string, string>, path: string)
    requires Coherent(env, l, v, contents)
    ensures path in contents ==> Indexable(env, path, contents[path])
                                 && DocIds(l, path) == Rows(env, path, contents[path]).Keys
    ensures path !in contents ==> DocIds(l, path) == {}
  {
    forall id | id in DocIds(l, path) ensures path in contents && Indexable(env, path, contents[path])
      && id in Rows(env, path, contents[path])
    {
      assert Owned(env, l, contents, id);
    }
    if path in contents {
      assert DocumentCoherent(env, l, v, path, contents[path]);
      RowsOfPath(path, IndexFile(env, path, contents[path]).value.chunks, 0);
      forall id | id in Rows(env, path, contents[path]) ensures id in DocIds(l, path) {
        assert ChunkCoherent(env, l, v, path, contents[path], id);
      }
    }
  }

  lemma {:induction false} EraseKeepsOther(env: Env, l: Logical, v: Vectors, path: string, other: string,
                                           content: string)
    requires DocumentCoherent(env, l, v, other, content) && other != path
    ensures DocumentCoherent(env, Erase(l, path), v - DocIds(l, path), other, content)
  {
    RowsOfPath(other, IndexFile(env, other, content).value.chunks, 0);
    forall id | id in Rows(env, other, content)
      ensures ChunkCoherent(env, Erase(l, path), v - DocIds(l, path), other, content, id)
    {
      assert ChunkCoherent(env, l, v, other, content, id);
    }
  }

  lemma {:induction false} EraseLeavesNothingElse(env: Env, l: Logical, v: Vectors, contents: map<string, string>,
                                                  path: string)
    requires NothingElse(env, l, v, contents)
    ensures NothingElse(env, Erase(l, path), v - DocIds(l, path), contents - {path})
  {
    var l', v', contents' := Erase(l, path), v - DocIds(l, path), contents - {path};
    assert l'.documents.Keys == contents'.Keys;
    assert v'.Keys == l'.chunks.Keys;
    forall id | id in l'.chunks ensures Owned(env, l', contents', id) {
      assert id in l.chunks && Owned(env, l, contents, id);
    }
  }

  lemma {:induction false} EraseCoherent(env: Env, l: Logical, v: Vectors, contents: map<string, string>, path: string)
    requires Coherent(env, l, v, contents)
    ensures Coherent(env, Erase(l, path), v - DocIds(l, path), contents - {path})
  {
    EraseLeavesNothingElse(env, l, v, contents, path);
    var l', v', contents' := Erase(l, path), v - DocIds(l, path), contents - {path};
    forall other | other in contents' ensures DocumentCoherent(env, l', v', other, contents'[other]) {
      assert DocumentCoherent(env, l, v, other, contents[other]);
      EraseKeepsOther(env, l, v, path, other, contents[other]);
    }
  }

  function Stored(l: Logical, row: DocumentRow, rows: map<u64, ChunkView>): Logical {
    Logical(l.documents[row.path := row], l.chunks + rows)
  }

  lemma {:induction false} StoreKeepsOther(env: Env, l: Logical, v: Vectors, row: DocumentRow,
                                           rows: map<u64, ChunkView>, vectors: Vectors, path: string, content: string)
    requires DocumentCoherent(env, l, v, path, content) && path != row.path
    requires rows.Keys !! l.chunks.Keys && vectors.Keys == rows.Keys
    ensures DocumentCoherent(env, Stored(l, row, rows), v + vectors, path, content)
  {
    forall id | id in Rows(env, path, content)
      ensures ChunkCoherent(env, Stored(l, row, rows), v + vectors, path, content, id)
    {
      assert ChunkCoherent(env, l, v, path, content, id);
    }
  }

  lemma {:induction false} StoreAddsNew(env: Env, l: Logical, v: Vectors, row: DocumentRow, content: string)
    requires Indexable(env, row.path, content) && RowMatches(env, row, row.path, content)
    requires Rows(env, row.path, content).Keys == Embeds(env, row.path, content).Keys
    ensures DocumentCoherent(env, Stored(l, row, Rows(env, row.path, content)),
                             v + Embeds(env, row.path, content), row.path, content)
  {
  }

  lemma {:induction false} StoreLeavesNothingElse(env: Env, l: Logical, v: Vectors, contents: map<string, string>,
                                                  row: DocumentRow, content: string)
    requires NothingElse(env, l, v, contents) && row.path !in contents && Indexable(env, row.path, content)
    requires Rows(env, row.path, content).Keys == Embeds(env, row.path, content).Keys
    requires forall id :: id in Rows(env, row.path, content) ==> Rows(env, row.path, content)[id].path == row.path
    ensures NothingElse(env, Stored(l, row, Rows(env, row.path, content)), v + Embeds(env, row.path, content),
                        contents[row.path := content])
  {
    var rows := Rows(env, row.path, content);
    var l', contents' := Stored(l, row, rows), contents[row.path := content];
    forall id | id in l'.chunks ensures Owned(env, l', contents', id) {
      if id !in rows { assert Owned(env, l, contents, id); }
    }
  }

  /** Storing an absent document whose ids are free. */
  lemma {:induction false} StoreCoherent(env: Env, l: Logical, v: Vectors, contents: map<string, string>,
                                         row: DocumentRow, content: string)
    requires Coherent(env, l, v, contents) && row.path !in contents
    requires Indexable(env, row.path, content) && RowMatches(env, row, row.path, content)
    requires Ids(IndexFile(env, row.path, content).value.chunks) !! l.chunks.Keys
    ensures Coherent(env, Stored(l, row, Rows(env, row.path, content)), v + Embeds(env, row.path, content),
                     contents[row.path := content])
  {
    var x := IndexFile(env, row.path, content).value;
    var rows, vectors := Rows(env, row.path, content), Embeds(env, row.path, content);
    InsertAllAdds(v, x);
    RowsOfKeys(row.path, x.chunks, 0);
    RowsOfPath(row.path, x.chunks, 0);
    StoreLeavesNothingElse(env, l, v, contents, row, content);
    StoreAddsNew(env, l, v, row, content);
    var contents' := contents[row.path := content];
    forall path | path in contents'
      ensures DocumentCoherent(env, Stored(l, row, rows), v + vectors, path, contents'[path])
    {
      if path != row.path {
        assert DocumentCoherent(env, l, v, path, contents[path]);
        StoreKeepsOther(env, l, v, row, rows, vectors, path, contents[path]);
      }
    }
  }

  lemma {:induction false} UpdateAfterMinus<K, V>(m: map<K, V>, k: K, v: V)
    ensures (m - {k})[k := v] == m[k := v]
  {
  }

  /** Replacing a document keeps tables and vectors exact, for the new content of its file. */
  lemma {:induction false} ReplaceCoherent(env: Env, l: Logical, v: Vectors, contents: map<string, string>, f: File)
    requires Coherent(env, l, v, contents)
    requires IndexFile(env, f.path, f.content).Some?
    requires Insertable(l, DocumentOf(env, f, IndexFile(env, f.path, f.content).value.chunks))
    ensures var x := IndexFile(env, f.path, f.content).value;
            Coherent(env, Replace(l, DocumentOf(env, f, x.chunks)),
                     (v - DocIds(l, f.path)) + VectorsOf(x), contents[f.path := f.content])
  {
    EraseCoherent(env, l, v, contents, f.path);
    var x := IndexFile(env, f.path, f.content).value;
    StoreCoherent(env, Erase(l, f.path), v - DocIds(l, f.path), contents - {f.path},
                  RowOf(DocumentOf(env, f, x.chunks)), f.content);
    UpdateAfterMinus(contents, f.path, f.content);
  }

  // ---------------------------------------------------------------- the whole update

  /** Path to content of the first `n` files. */
  function Contents(files: seq<File>, n: nat): map<string, string>
    requires n <= |files|
  {
    if n == 0 then map[] else Contents(files, n - 1)[files[n - 1].path := files[n - 1].content]
  }

  /** The hash assumptions, on the contents that meet in this update only: a document that counts as
      unchanged has its old content, and no new chunk takes the id of a chunk that goes away with
      its document. */
  ghost predicate Faithful(env: Env, l: Logical, contents: map<string, string>, files: seq<File>) {
    forall i :: 0 <= i < |files| ==> FaithfulFile(env, contents, RemovedIds(l, files), files[i])
  }

  /** Ids of all chunks of the given documents. */
  function IdsAt(l: Logical, paths: set<string>): set<u64> {
    set id | id in l.chunks && l.chunks[id].path in paths
  }

  function ListedPaths(paths: seq<string>): set<string> {
    set i | 0 <= i < |paths| :: paths[i]
  }

  lemma {:induction false} ListedPathsAppend(paths: seq<string>)
    requires paths != []
    ensures ListedPaths(paths) == ListedPaths(paths[..|paths| - 1]) + {paths[|paths| - 1]}
  {
    var init, last := paths[..|paths| - 1], paths[|paths| - 1];
    forall p | p in ListedPaths(paths) ensures p in ListedPaths(init) + {last} {
      var i :| 0 <= i < |paths| && paths[i] == p;
      if i < |paths| - 1 { assert init[i] == p; }
    }
    forall p | p in ListedPaths(init) ensures p in ListedPaths(paths) {
      var i :| 0 <= i < |init| && init[i] == p;
      assert paths[i] == p;
    }
    assert paths[|paths| - 1] in ListedPaths(paths);
  }

  lemma {:induction false} EraseAllView(l: Logical, paths: seq<string>)
    ensures EraseAll(l, paths).documents == l.documents - ListedPaths(paths)
    ensures EraseAll(l, paths).chunks == map id | id in l.chunks
        && l.chunks[id].path !in ListedPaths(paths) :: l.chunks[id]
  {
    if paths != [] {
      EraseAllView(l, paths[..|paths| - 1]);
      ListedPathsAppend(paths);
    }
  }

  /** Erasing the removed documents keeps coherence. */
  lemma {:induction false} EraseAllCoherent(env: Env, l: Logical, v: Vectors, contents: map<string, string>,
                                            paths: seq<string>)
    requires Coherent(env, l, v, contents)
    ensures Coherent(env, EraseAll(l, paths), v - IdsAt(l, ListedPaths(paths)), contents - ListedPaths(paths))
    decreases |paths|
  {
    if paths == [] {
      MinusNothing(v, IdsAt(l, ListedPaths(paths)));
      MinusNothing(contents, ListedPaths(paths));
    } else {
      var init, last := paths[..|paths| - 1], paths[|paths| - 1];
      EraseAllCoherent(env, l, v, contents, init);
      EraseCoherent(env, EraseAll(l, init), v - IdsAt(l, ListedPaths(init)), contents - ListedPaths(init), last);
      ListedPathsAppend(paths);
      IdsAtAppend(l, init, last);
      MinusTwice(v, IdsAt(l, ListedPaths(init)), DocIds(EraseAll(l, init), last));
      MinusTwice(contents, ListedPaths(init), {last});
    }
  }

  lemma {:induction false} MinusNothing<K, V>(m: map<K, V>, s: set<K>)
    requires s == {}
    ensures m - s == m
  {
  }

  lemma {:induction false} MinusTwice<K, V>(m: map<K, V>, a: set<K>, b: set<K>)
    ensures (m - a) - b == m - (a + b)
  {
  }

  lemma {:induction false} IdsAtAppend(l: Logical, init: seq<string>, last: string)
    ensures IdsAt(l, ListedPaths(init)) + DocIds(EraseAll(l, init), last) == IdsAt(l, ListedPaths(init) + {last})
  {
    EraseAllView(l, init);
  }

  lemma {:induction false} MinusAround<K, V>(m: map<K, V>, d: set<K>, n: map<K, V>, r: set<K>)
    requires n.Keys !! r
    ensures ((m - d) + n) - r == ((m - r) - d) + n
  {
  }

  /** `mn` still holds the old content at `path`. */
  ghost predicate NotYet(m: map<string, string>, mn: map<string, string>, path: string) {
    (path in mn <==> path in m) && (path in m ==> mn[path] == m[path])
  }

  /** The hash assumption for one file. */
  ghost predicate FaithfulFile(env: Env, m: map<string, string>, r: set<u64>, f: File) {
    && (f.path in m && env.hash(m[f.path]) == env.hash(f.content) ==> m[f.path] == f.content)
    && (IndexFile(env, f.path, f.content).Some? ==> Ids(IndexFile(env, f.path, f.content).value.chunks) !! r)
  }

  lemma {:induction false} UnchangedStep(env: Env, l: Logical, v: Vectors, m: map<string, string>,
                                         mn: map<string, string>, f: File)
    requires Coherent(env, l, v, m) && NotYet(m, mn, f.path) && Unchanged(env, l, f)
    requires f.path in m && env.hash(m[f.path]) == env.hash(f.content) ==> m[f.path] == f.content
    ensures mn[f.path := f.content] == mn
  {
    assert DocumentCoherent(env, l, v, f.path, m[f.path]);
  }

  lemma {:induction false} ChangedStep(env: Env, l: Logical, v: Vectors, m: map<string, string>,
                                       ln: Logical, q: Progress, r: set<u64>, mn: map<string, string>, f: File,
                                       x: Indexed)
    requires Coherent(env, l, v, m) && Coherent(env, ln, q.vectors - r, mn) && NotYet(m, mn, f.path)
    requires !Unchanged(env, l, f) && IndexFile(env, f.path, f.content) == Some(x)
    requires Ids(x.chunks) !! r && Insertable(ln, DocumentOf(env, f, x.chunks))
    ensures Coherent(env, Replace(ln, DocumentOf(env, f, x.chunks)),
                     ScanFile(env, l, q, f).value.vectors - r, mn[f.path := f.content])
  {
    CoherentDocIds(env, l, v, m, f.path);
    CoherentDocIds(env, ln, q.vectors - r, mn, f.path);
    var d := DocIds(l, f.path);
    ReplaceCoherent(env, ln, q.vectors - r, mn, f);
    var base := if f.path in l.documents then q.vectors - d else q.vectors;
    InsertAllAdds(base, x);
    if f.path !in l.documents { MinusNothing(q.vectors, d); }
    MinusAround(q.vectors, d, VectorsOf(x), r);
  }

  /** The file, unless unchanged, can be stored in the tables `ln`. */
  ghost predicate Stores(env: Env, l: Logical, ln: Logical, f: File) {
    Unchanged(env, l, f) || IndexFile(env, f.path, f.content).None?
    || Insertable(ln, DocumentOf(env, f, IndexFile(env, f.path, f.content).value.chunks))
  }

  lemma {:induction false} ContentsKeys(files: seq<File>, n: nat)
    requires n <= |files|
    ensures forall p :: p in Contents(files, n) <==> exists i :: 0 <= i < n && files[i].path == p
    decreases n
  {
    if n > 0 {
      ContentsKeys(files, n - 1);
      forall p ensures p in Contents(files, n) <==> exists i :: 0 <= i < n && files[i].path == p {
        if p == files[n - 1].path { assert p in Contents(files, n); }
      }
    }
  }

  lemma {:induction false} ContentsPaths(files: seq<File>)
    ensures Contents(files, |files|).Keys == PathSet(files)
  {
    ContentsKeys(files, |files|);
  }

  /** The documents the update leaves in place or replaces, before any of them is replaced. */
  ghost predicate Cleared(env: Env, l: Logical, l0: Logical, v: Vectors, m: map<string, string>, files: seq<File>) {
    Coherent(env, l0, v - RemovedIds(l, files), m - Removed(l, files))
  }

  lemma {:induction false} UpdateOnTop<K, V>(a: map<K, V>, b: map<K, V>, k: K, v: V)
    ensures (a + b)[k := v] == a + b[k := v]
  {
  }

  lemma {:induction false} PlusNothing<K, V>(m: map<K, V>, n: map<K, V>)
    requires n == map[]
    ensures m + n == m
  {
  }

  lemma {:induction false} ReplaceAllAppend(l: Logical, documents: seq<StoredDocument>, d: StoredDocument)
    ensures ReplaceAll(l, documents + [d]) == Replace(ReplaceAll(l, documents), d)
    ensures Storable(l, documents + [d]) <==> Storable(l, documents) && Insertable(ReplaceAll(l, documents), d)
  {
    assert (documents + [d])[..|documents|] == documents;
  }

  lemma {:induction false} StoresFromStorable(env: Env, l: Logical, l0: Logical, q: Progress, f: File, p: Progress)
    requires ScanFile(env, l, q, f) == Some(p) && Storable(l0, p.replacements)
    ensures Storable(l0, q.replacements)
    ensures Stores(env, l, ReplaceAll(l0, q.replacements), f)
    ensures Unchanged(env, l, f) ==> p.replacements == q.replacements
    ensures !Unchanged(env, l, f) ==>
              && IndexFile(env, f.path, f.content).Some?
              && ReplaceAll(l0, p.replacements)
                 == Replace(ReplaceAll(l0, q.replacements),
                            DocumentOf(env, f, IndexFile(env, f.path, f.content).value.chunks))
  {
    if !Unchanged(env, l, f) {
      ReplaceAllAppend(l0, q.replacements, DocumentOf(env, f, IndexFile(env, f.path, f.content).value.chunks));
    }
  }

  lemma {:induction false} ContentsStep(m0: map<string, string>, files: seq<File>, n: nat, m1: map<string, string>)
    requires n < |files| && m1 == m0 + Contents(files, n)
    ensures m1[files[n].path := files[n].content] == m0 + Contents(files, n + 1)
  {
    UpdateOnTop(m0, Contents(files, n), files[n].path, files[n].content);
  }

  lemma {:induction false} LastStep(env: Env, l: Logical, v: Vectors, files: seq<File>, n: nat, p: Progress)
      returns (q: Progress)
    requires 0 < n <= |files| && Scan(env, l, v, files, n) == Some(p)
    ensures Scan(env, l, v, files, n - 1) == Some(q) && ScanFile(env, l, q, files[n - 1]) == Some(p)
  {
    q := Scan(env, l, v, files, n - 1).value;
  }

  /** The invariant rule for the loop over the scanned files. */
  lemma {:induction false} ScanInvariant(env: Env, l: Logical, v: Vectors, files: seq<File>,
                                         inv: (nat, Progress) -> bool, n: nat, p: Progress)
    requires inv(0, Progress(v, [], 0, 0, 0, 0))
    requires forall k: nat, q, q' :: k < |files| && inv(k, q) && ScanFile(env, l, q, files[k]) == Some(q')
                                     ==> inv(k + 1, q')
    requires n <= |files| && Scan(env, l, v, files, n) == Some(p)
    ensures inv(n, p)
    decreases n
  {
    if n > 0 {
      var q := LastStep(env, l, v, files, n, p);
      ScanInvariant(env, l, v, files, inv, n - 1, q);
      assert inv(n - 1 + 1, p);
    }
  }

  /** After `n` files, with the loop at `p`, the replaced part holds the new contents, the rest the old
      ones. */
  ghost predicate Reached(env: Env, l: Logical, l0: Logical, m0: map<string, string>, files: seq<File>, n: nat,
                          p: Progress)
    requires n <= |files|
  {
    Coherent(env, ReplaceAll(l0, p.replacements), p.vectors - RemovedIds(l, files), m0 + Contents(files, n))
  }

  lemma {:induction false} ReachedUnchanged(env: Env, l: Logical, l0: Logical, v: Vectors, m: map<string, string>,
                                            files: seq<File>, n: nat, q: Progress)
    requires Coherent(env, l, v, m) && n < |files| && Unchanged(env, l, files[n])
    requires NotYet(m, (m - Removed(l, files)) + Contents(files, n), files[n].path)
    requires FaithfulFile(env, m, RemovedIds(l, files), files[n])
    requires Reached(env, l, l0, m - Removed(l, files), files, n, q)
    ensures Reached(env, l, l0, m - Removed(l, files), files, n + 1, ScanFile(env, l, q, files[n]).value)
  {
    var mn := (m - Removed(l, files)) + Contents(files, n);
    UnchangedStep(env, l, v, m, mn, files[n]);
    ContentsStep(m - Removed(l, files), files, n, mn);
  }

  lemma {:induction false} ReachedChanged(env: Env, l: Logical, l0: Logical, v: Vectors, m: map<string, string>,
                                          files: seq<File>, n: nat, q: Progress, p: Progress)
    requires Coherent(env, l, v, m) && n < |files| && !Unchanged(env, l, files[n])
    requires NotYet(m, (m - Removed(l, files)) + Contents(files, n), files[n].path)
    requires FaithfulFile(env, m, RemovedIds(l, files), files[n])
    requires IndexFile(env, files[n].path, files[n].content).Some? && ScanFile(env, l, q, files[n]) == Some(p)
    requires var d := DocumentOf(env, files[n], IndexFile(env, files[n].path, files[n].content).value.chunks);
             && Insertable(ReplaceAll(l0, q.replacements), d)
             && ReplaceAll(l0, p.replacements) == Replace(ReplaceAll(l0, q.replacements), d)
    requires Reached(env, l, l0, m - Removed(l, files), files, n, q)
    ensures Reached(env, l, l0, m - Removed(l, files), files, n + 1, p)
  {
    var f, r, m0 := files[n], RemovedIds(l, files), m - Removed(l, files);
    var mn := m0 + Contents(files, n);
    assert mn[f.path := f.content] == m0 + Contents(files, n + 1) by {
      ContentsStep(m0, files, n, mn);
    }
    assert Coherent(env, ReplaceAll(l0, p.replacements), p.vectors - r, mn[f.path := f.content]) by {
      ChangedStep(env, l, v, m, ReplaceAll(l0, q.replacements), q, r, mn, f, IndexFile(env, f.path, f.content).value);
    }
  }

  /** The loop invariant, as a function of the position in the loop. */
  ghost function ReachedInvariant(env: Env, l: Logical, l0: Logical, m0: map<string, string>, files: seq<File>)
    : (nat, Progress) -> bool
  {
    (n: nat, p: Progress) =>
      n <= |files| && (Storable(l0, p.replacements) ==> Reached(env, l, l0, m0, files, n, p))
  }

  lemma {:induction false} ReachedStep(env: Env, l: Logical, l0: Logical, v: Vectors, m: map<string, string>,
                                       files: seq<File>, n: nat, q: Progress, p: Progress)
    requires Coherent(env, l, v, m) && DistinctPaths(files) && Faithful(env, l, m, files)
    requires n < |files| && ScanFile(env, l, q, files[n]) == Some(p) && Storable(l0, p.replacements)
    requires Storable(l0, q.replacements) ==> Reached(env, l, l0, m - Removed(l, files), files, n, q)
    ensures Reached(env, l, l0, m - Removed(l, files), files, n + 1, p)
  {
    StoresFromStorable(env, l, l0, q, files[n], p);
    NotYetScanned(l, m, files, n, (m - Removed(l, files)) + Contents(files, n));
    FaithfulAt(env, l, m, files, n);
    if Unchanged(env, l, files[n]) {
      ReachedUnchanged(env, l, l0, v, m, files, n, q);
    } else {
      ReachedChanged(env, l, l0, v, m, files, n, q, p);
    }
  }

  lemma {:induction false} ReachedKept(env: Env, l: Logical, l0: Logical, v: Vectors, m: map<string, string>,
                                       files: seq<File>, n: nat, q: Progress, p: Progress)
    requires Coherent(env, l, v, m) && DistinctPaths(files) && Faithful(env, l, m, files)
    requires n < |files| && ScanFile(env, l, q, files[n]) == Some(p)
    requires ReachedInvariant(env, l, l0, m - Removed(l, files), files)(n, q)
    ensures ReachedInvariant(env, l, l0, m - Removed(l, files), files)(n + 1, p)
  {
    if Storable(l0, p.replacements) {
      ReachedStep(env, l, l0, v, m, files, n, q, p);
    }
  }

  lemma {:induction false} ReachedAtStart(env: Env, l: Logical, l0: Logical, v: Vectors, m: map<string, string>,
                                          files: seq<File>)
    requires Cleared(env, l, l0, v, m, files)
    ensures ReachedInvariant(env, l, l0, m - Removed(l, files), files)(0, Progress(v, [], 0, 0, 0, 0))
  {
    PlusNothing(m - Removed(l, files), Contents(files, 0));
  }

  lemma {:induction false} ScanReached(env: Env, l: Logical, l0: Logical, v: Vectors, m: map<string, string>,
                                       files: seq<File>, n: nat, p: Progress)
    requires Coherent(env, l, v, m) && Cleared(env, l, l0, v, m, files)
    requires DistinctPaths(files) && Faithful(env, l, m, files)
    requires n <= |files| && Scan(env, l, v, files, n) == Some(p)
    ensures ReachedInvariant(env, l, l0, m - Removed(l, files), files)(n, p)
  {
    var inv := ReachedInvariant(env, l, l0, m - Removed(l, files), files);
    ReachedAtStart(env, l, l0, v, m, files);
    forall k: nat, q, q' | k < |files| && inv(k, q) && ScanFile(env, l, q, files[k]) == Some(q')
      ensures inv(k + 1, q')
    {
      ReachedKept(env, l, l0, v, m, files, k, q, q');
    }
    ScanInvariant(env, l, v, files, inv, n, p);
  }

  lemma {:induction false} ScanCoherent(env: Env, l: Logical, l0: Logical, v: Vectors, m: map<string, string>,
                                        files: seq<File>, n: nat, p: Progress)
    requires Coherent(env, l, v, m) && Cleared(env, l, l0, v, m, files)
    requires DistinctPaths(files) && Faithful(env, l, m, files)
    requires n <= |files| && Scan(env, l, v, files, n) == Some(p) && Storable(l0, p.replacements)
    ensures Reached(env, l, l0, m - Removed(l, files), files, n, p)
  {
    ScanReached(env, l, l0, v, m, files, n, p);
  }

  lemma {:induction false} FaithfulAt(env: Env, l: Logical, m: map<string, string>, files: seq<File>, n: nat)
    requires n < |files| && Faithful(env, l, m, files)
    ensures FaithfulFile(env, m, RemovedIds(l, files), files[n])
  {
  }

  lemma {:induction false} NotYetScanned(l: Logical, m: map<string, string>, files: seq<File>, n: nat,
                                         mn: map<string, string>)
    requires n < |files| && DistinctPaths(files) && mn == (m - Removed(l, files)) + Contents(files, n)
    ensures NotYet(m, mn, files[n].path)
  {
    ContentsKeys(files, n);
    assert files[n].path in PathSet(files);
  }

  /** No document repeats a chunk id of its own. */
  predicate OwnIdsDistinct(documents: seq<StoredDocument>) {
    forall i :: 0 <= i < |documents| ==> DistinctIds(documents[i].chunks)
  }

  lemma {:induction false} StorableMeansDistinct(l: Logical, documents: seq<StoredDocument>)
    requires Storable(l, documents)
    ensures OwnIdsDistinct(documents)
    decreases |documents|
  {
    if documents != [] {
      var init := documents[..|documents| - 1];
      StorableMeansDistinct(l, init);
      assert forall i :: 0 <= i < |init| ==> documents[i] == init[i];
    }
  }

  /** The update theorem: if the statements go through, the new tables and the new vector map are
      exactly those of the scanned contents. */
  lemma {:induction false} UpdateCoherent(env: Env, l: Logical, v: Vectors, m: map<string, string>, files: seq<File>,
                                          removals: seq<string>)
    requires Coherent(env, l, v, m) && DistinctPaths(files) && Faithful(env, l, m, files)
    requires ListedPaths(removals) == Removed(l, files)
    requires Scan(env, l, v, files, |files|).Some?
    requires Storable(EraseAll(l, removals), Scan(env, l, v, files, |files|).value.replacements)
    ensures var p := Scan(env, l, v, files, |files|).value;
            Coherent(env, ReplaceAll(EraseAll(l, removals), p.replacements), FinalVectors(l, p, files),
                Contents(files, |files|))
  {
    EraseAllCoherent(env, l, v, m, removals);
    assert IdsAt(l, ListedPaths(removals)) == RemovedIds(l, files);
    ScanCoherent(env, l, EraseAll(l, removals), v, m, files, |files|, Scan(env, l, v, files, |files|).value);
    ContentsPaths(files);
    OnlyScannedLeft(m, Removed(l, files), Contents(files, |files|), l.documents.Keys);
  }

  lemma {:induction false} OnlyScannedLeft(m: map<string, string>, removed: set<string>, scanned: map<string, string>,
                                           known: set<string>)
    requires m.Keys == known && removed == known - scanned.Keys
    ensures (m - removed) + scanned == scanned
  {
  }

  // ---------------------------------------------------------------- ids without hash assumptions

  /** The vector map has exactly the stored chunk ids, and every chunk has its document. */
  ghost predicate Linked(l: Logical, v: Vectors) {
    v.Keys == l.chunks.Keys && forall id :: id in l.chunks ==> l.chunks[id].path in l.documents
  }

  function NewIds(documents: seq<StoredDocument>): set<u64> {
    if documents == [] then {} else NewIds(documents[..|documents| - 1]) + Ids(documents[|documents| - 1].chunks)
  }

  lemma {:induction false} ReplaceKeys(l: Logical, d: StoredDocument)
    ensures Replace(l, d).chunks.Keys == (l.chunks.Keys - DocIds(l, d.path)) + Ids(d.chunks)
  {
    RowsOfKeys(d.path, d.chunks, 0);
  }

  lemma {:induction false} ReplaceKeepsDocIds(l: Logical, d: StoredDocument, path: string)
    requires Insertable(l, d) && path != d.path
    ensures DocIds(Replace(l, d), path) == DocIds(l, path)
  {
    RowsOfKeys(d.path, d.chunks, 0);
    RowsOfPath(d.path, d.chunks, 0);
  }

  /** Tables and vectors side by side before file `n`: the vectors hold the ids of the removed documents
      on top of the ids the tables hold. */
  ghost predicate SideBySide(l: Logical, ln: Logical, files: seq<File>, n: nat, vn: Vectors) {
    && vn.Keys == ln.chunks.Keys + RemovedIds(l, files)
    && (forall i :: 0 <= n <= i < |files| ==> DocIds(ln, files[i].path) == DocIds(l, files[i].path))
  }

  lemma {:induction false} KeysAround(v: set<u64>, k: set<u64>, r: set<u64>, d: set<u64>, n: set<u64>)
    requires v == k + r && d !! r
    ensures (v - d) + n == ((k - d) + n) + r
  {
  }

  lemma {:induction false} SideBySideChanged(env: Env, l: Logical, ln: Logical, files: seq<File>, n: nat, q: Progress,
                                             x: Indexed)
    requires DistinctPaths(files) && n < |files| && !Unchanged(env, l, files[n])
    requires IndexFile(env, files[n].path, files[n].content) == Some(x)
        && Insertable(ln, DocumentOf(env, files[n], x.chunks))
    requires forall id :: id in l.chunks ==> l.chunks[id].path in l.documents
    requires SideBySide(l, ln, files, n, q.vectors)
    ensures SideBySide(l, Replace(ln, DocumentOf(env, files[n], x.chunks)), files, n + 1,
                       ScanFile(env, l, q, files[n]).value.vectors)
  {
    var d := DocumentOf(env, files[n], x.chunks);
    ReplaceKeys(ln, d);
    ScanFileKeys(env, l, q, files[n]);
    PresentIdsStay(l, files, n);
    KeysAround(q.vectors.Keys, ln.chunks.Keys, RemovedIds(l, files), DocIds(l, files[n].path), Ids(x.chunks));
    LaterDocIds(l, ln, d, files, n);
  }

  lemma {:induction false} PresentIdsStay(l: Logical, files: seq<File>, n: nat)
    requires n < |files|
    ensures DocIds(l, files[n].path) !! RemovedIds(l, files)
  {
    assert files[n].path in PathSet(files);
  }

  lemma {:induction false} LaterDocIds(l: Logical, ln: Logical, d: StoredDocument, files: seq<File>, n: nat)
    requires DistinctPaths(files) && n < |files| && d.path == files[n].path && Insertable(ln, d)
    requires forall i :: n <= i < |files| ==> DocIds(ln, files[i].path) == DocIds(l, files[i].path)
    ensures forall i :: n + 1 <= i < |files| ==> DocIds(Replace(ln, d), files[i].path) == DocIds(l, files[i].path)
  {
    forall i | n + 1 <= i < |files| ensures DocIds(Replace(ln, d), files[i].path) == DocIds(l, files[i].path) {
      ReplaceKeepsDocIds(ln, d, files[i].path);
    }
  }

  lemma {:induction false} ScanFileKeys(env: Env, l: Logical, p: Progress, f: File)
    requires !Unchanged(env, l, f) && ScanFile(env, l, p, f).Some?
    requires forall id :: id in l.chunks ==> l.chunks[id].path in l.documents
    ensures ScanFile(env, l, p, f).value.vectors.Keys
            == (p.vectors.Keys - DocIds(l, f.path)) + Ids(IndexFile(env, f.path, f.content).value.chunks)
  {
    var x := IndexFile(env, f.path, f.content).value;
    InsertAllAdds(if f.path in l.documents then p.vectors - DocIds(l, f.path) else p.vectors, x);
  }

  lemma {:induction false} SideBySideStep(env: Env, l: Logical, l0: Logical, files: seq<File>, n: nat, q: Progress,
                                          p: Progress)
    requires DistinctPaths(files) && n < |files| && ScanFile(env, l, q, files[n]) == Some(p)
    requires forall id :: id in l.chunks ==> l.chunks[id].path in l.documents
    requires Storable(l0, p.replacements)
    requires Storable(l0, q.replacements) ==> SideBySide(l, ReplaceAll(l0, q.replacements), files, n, q.vectors)
    ensures SideBySide(l, ReplaceAll(l0, p.replacements), files, n + 1, p.vectors)
  {
    var f, ln := files[n], ReplaceAll(l0, q.replacements);
    StoresFromStorable(env, l, l0, q, f, p);
    if !Unchanged(env, l, f) {
      SideBySideChanged(env, l, ln, files, n, q, IndexFile(env, f.path, f.content).value);
    }
  }

  /** The loop invariant, as a function of the position in the loop. */
  ghost function SideBySideInvariant(l: Logical, l0: Logical, files: seq<File>): (nat, Progress) -> bool {
    (n: nat, p: Progress) =>
      Storable(l0, p.replacements) ==> SideBySide(l, ReplaceAll(l0, p.replacements), files, n, p.vectors)
  }

  lemma {:induction false} SideBySideKept(env: Env, l: Logical, l0: Logical, files: seq<File>, n: nat, q: Progress,
                                          p: Progress)
    requires DistinctPaths(files) && n < |files| && ScanFile(env, l, q, files[n]) == Some(p)
    requires forall id :: id in l.chunks ==> l.chunks[id].path in l.documents
    requires SideBySideInvariant(l, l0, files)(n, q)
    ensures SideBySideInvariant(l, l0, files)(n + 1, p)
  {
    if Storable(l0, p.replacements) {
      SideBySideStep(env, l, l0, files, n, q, p);
    }
  }

  lemma {:induction false} SideBySideAtStart(l: Logical, l0: Logical, v: Vectors, files: seq<File>)
    requires SideBySide(l, l0, files, 0, v)
    ensures SideBySideInvariant(l, l0, files)(0, Progress(v, [], 0, 0, 0, 0))
  {
    assert ReplaceAll(l0, []) == l0;
  }

  lemma {:induction false} ScanSideBySide(env: Env, l: Logical, l0: Logical, v: Vectors, files: seq<File>, p: Progress)
    requires DistinctPaths(files) && SideBySide(l, l0, files, 0, v)
    requires forall id :: id in l.chunks ==> l.chunks[id].path in l.documents
    requires Scan(env, l, v, files, |files|) == Some(p) && Storable(l0, p.replacements)
    ensures SideBySide(l, ReplaceAll(l0, p.replacements), files, |files|, p.vectors)
  {
    var inv := SideBySideInvariant(l, l0, files);
    SideBySideAtStart(l, l0, v, files);
    forall n: nat, q, q' | n < |files| && inv(n, q) && ScanFile(env, l, q, files[n]) == Some(q')
      ensures inv(n + 1, q')
    {
      SideBySideKept(env, l, l0, files, n, q, q');
    }
    ScanInvariant(env, l, v, files, inv, |files|, p);
  }

  lemma {:induction false} ErasedIds(l: Logical, v: Vectors, files: seq<File>, removals: seq<string>)
    requires Linked(l, v) && ListedPaths(removals) == Removed(l, files)
    ensures var l0 := EraseAll(l, removals);
            && l0.chunks.Keys == l.chunks.Keys - RemovedIds(l, files)
            && forall i :: 0 <= i < |files| ==> DocIds(l0, files[i].path) == DocIds(l, files[i].path)
  {
    EraseAllView(l, removals);
    forall i | 0 <= i < |files| ensures files[i].path !in Removed(l, files) {
      assert files[i].path in PathSet(files);
    }
  }

  predicate DistinctDocuments(documents: seq<StoredDocument>) {
    forall i, j :: 0 <= i < j < |documents| ==> documents[i].path != documents[j].path
  }

  lemma {:induction false} ReplaceAllKeys(l: Logical, documents: seq<StoredDocument>)
    requires DistinctDocuments(documents) && Storable(l, documents)
    ensures ReplaceAll(l, documents).chunks.Keys <= l.chunks.Keys + NewIds(documents)
    ensures NewIds(documents) <= ReplaceAll(l, documents).chunks.Keys
    ensures forall id :: id in NewIds(documents) ==>
              exists i :: 0 <= i < |documents| && ReplaceAll(l, documents).chunks[id].path == documents[i].path
    decreases |documents|
  {
    if documents != [] {
      var init, d := documents[..|documents| - 1], documents[|documents| - 1];
      ReplaceAllKeys(l, init);
      var ln := ReplaceAll(l, init);
      ReplaceKeys(ln, d);
      RowsOfKeys(d.path, d.chunks, 0);
      RowsOfPath(d.path, d.chunks, 0);
      forall id | id in NewIds(init)
        ensures id in Replace(ln, d).chunks
        ensures exists i :: 0 <= i < |documents| && Replace(ln, d).chunks[id].path == documents[i].path
      {
        var i :| 0 <= i < |init| && ln.chunks[id].path == init[i].path;
        assert init[i] == documents[i] && documents[i].path != d.path;
        assert id in Erase(ln, d.path).chunks;
      }
      forall id | id in Ids(d.chunks)
        ensures exists i :: 0 <= i < |documents| && Replace(ln, d).chunks[id].path == documents[i].path
      {
        assert Replace(ln, d).chunks[id].path == documents[|documents| - 1].path;
      }
    }
  }

  lemma {:induction false} ReplacementPaths(env: Env, l: Logical, v: Vectors, files: seq<File>, n: nat)
    requires DistinctPaths(files) && n <= |files| && Scan(env, l, v, files, n).Some?
    ensures var ds := Scan(env, l, v, files, n).value.replacements;
            && DistinctDocuments(ds)
            && forall i :: 0 <= i < |ds| ==> exists j :: 0 <= j < n && ds[i].path == files[j].path
    decreases n
  {
    if n > 0 {
      ReplacementPaths(env, l, v, files, n - 1);
      var ds := Scan(env, l, v, files, n - 1).value.replacements;
      var ds' := Scan(env, l, v, files, n).value.replacements;
      forall i | 0 <= i < |ds'| ensures exists j :: 0 <= j < n && ds'[i].path == files[j].path {
        if i < |ds| {
          assert ds'[i] == ds[i];
        } else {
          assert ds'[i].path == files[n - 1].path;
        }
      }
      forall i, j | 0 <= i < j < |ds'| ensures ds'[i].path != ds'[j].path {
        assert ds'[i] == ds[i];
        if j < |ds| { assert ds'[j] == ds[j]; }
      }
    }
  }

  /** Whatever the hashes do: once the statements go through, the vector map misses exactly the stored
      ids that also belonged to a removed document. The update erases those from the map after it
      inserted the new vectors, but from the tables before it inserted the new rows. So vector ids
      and chunk ids agree if and only if no new chunk reuses the id of a removed document's chunk. */
  lemma {:induction false} VectorIdsExact(env: Env, l: Logical, v: Vectors, files: seq<File>, removals: seq<string>)
    requires Linked(l, v) && DistinctPaths(files) && ListedPaths(removals) == Removed(l, files)
    requires Scan(env, l, v, files, |files|).Some?
    requires Storable(EraseAll(l, removals), Scan(env, l, v, files, |files|).value.replacements)
    ensures var p := Scan(env, l, v, files, |files|).value;
            var stored := ReplaceAll(EraseAll(l, removals), p.replacements);
            && FinalVectors(l, p, files).Keys == stored.chunks.Keys - RemovedIds(l, files)
            && (FinalVectors(l, p, files).Keys == stored.chunks.Keys
                <==> NewIds(p.replacements) !! RemovedIds(l, files))
  {
    var l0, p := EraseAll(l, removals), Scan(env, l, v, files, |files|).value;
    ErasedIds(l, v, files, removals);
    ScanSideBySide(env, l, l0, v, files, p);
    ReplacementPaths(env, l, v, files, |files|);
    ReplaceAllKeys(l0, p.replacements);
    var stored := ReplaceAll(l0, p.replacements);
    ExactKeys(p.vectors.Keys, stored.chunks.Keys, l0.chunks.Keys, NewIds(p.replacements), RemovedIds(l, files));
  }

  lemma {:induction false} ExactKeys(v: set<u64>, k: set<u64>, k0: set<u64>, n: set<u64>, r: set<u64>)
    requires v == k + r && k <= k0 + n && n <= k && k0 !! r
    ensures v - r == k - r && (v - r == k <==> n !! r)
  {
  }

  /** The tables that hold one indexed file and nothing else. */
  function TablesOf(env: Env, f: File, x: Indexed): Logical {
    Replace(Logical(map[], map[]), DocumentOf(env, f, x.chunks))
  }

  lemma {:induction false} TablesOfOne(env: Env, f: File, x: Indexed)
    requires |x.chunks| == |x.embeddings|
    ensures var l := TablesOf(env, f, x);
            && l.documents.Keys == {f.path} && l.chunks.Keys == Ids(x.chunks) && Linked(l, VectorsOf(x))
            && forall id :: id in l.chunks ==> l.chunks[id].path == f.path
  {
    var empty, d := Logical(map[], map[]), DocumentOf(env, f, x.chunks);
    ReplaceKeys(empty, d);
    assert Erase(empty, f.path).chunks == map[] && DocIds(empty, f.path) == {};
    RowsOfKeys(f.path, x.chunks, 0);
    RowsOfPath(f.path, x.chunks, 0);
    InsertAllAdds(map[], x);
  }

  lemma {:induction false} OnlyFileRemoved(env: Env, f: File, g: File, x: Indexed)
    requires f.path != g.path && |x.chunks| == |x.embeddings|
    ensures var l := TablesOf(env, f, x);
            ListedPaths([f.path]) == Removed(l, [g]) == {f.path} && RemovedIds(l, [g]) == Ids(x.chunks)
  {
    var l := TablesOf(env, f, x);
    TablesOfOne(env, f, x);
    assert [g][0].path in PathSet([g]) && [f.path][0] in ListedPaths([f.path]);
    assert PathSet([g]) == {g.path} && ListedPaths([f.path]) == {f.path};
    assert Removed(l, [g]) == {f.path};
  }

  lemma {:induction false} OnlyFileScanned(env: Env, l: Logical, v: Vectors, g: File, y: Indexed) returns (p: Progress)
    requires g.path !in l.documents && IndexFile(env, g.path, g.content) == Some(y)
    ensures Scan(env, l, v, [g], 1) == Some(p) && p.replacements == [DocumentOf(env, g, y.chunks)]
  {
    var start := Progress(v, [], 0, 0, 0, 0);
    assert Scan(env, l, v, [g], 0) == Some(start);
    p := ScanFile(env, l, start, g).value;
  }

  /** If the chunks of two files share an id, replacing the one file by the other loses a vector: the
      update goes through, the shared chunk is stored, and it has no vector. */
  lemma {:induction false} SharedIdLosesVector(env: Env, f: File, g: File, x: Indexed, y: Indexed, id: u64)
    requires f.path != g.path
    requires IndexFile(env, f.path, f.content) == Some(x) && IndexFile(env, g.path, g.content) == Some(y)
    requires DistinctIds(y.chunks) && id in Ids(x.chunks) && id in Ids(y.chunks)
    ensures var l, v := TablesOf(env, f, x), VectorsOf(x);
            var scanned := Scan(env, l, v, [g], 1);
            && Linked(l, v) && ListedPaths([f.path]) == Removed(l, [g])
            && scanned.Some? && Storable(EraseAll(l, [f.path]), scanned.value.replacements)
            && id in ReplaceAll(EraseAll(l, [f.path]), scanned.value.replacements).chunks
            && id !in FinalVectors(l, scanned.value, [g])
  {
    var l, v, d := TablesOf(env, f, x), VectorsOf(x), DocumentOf(env, g, y.chunks);
    TablesOfOne(env, f, x);
    OnlyFileRemoved(env, f, g, x);
    var p := OnlyFileScanned(env, l, v, g, y);
    var l0 := EraseAll(l, [f.path]);
    EraseAllView(l, [f.path]);
    assert l0.chunks == map[];
    ReplaceAllAppend(l0, [], d);
    assert [] + [d] == [d];
    ReplaceKeys(l0, d);
    VectorIdsExact(env, l, v, [g], [f.path]);
  }

  // ---------------------------------------------------------------- what the counters report

  function TotalChunks(documents: seq<StoredDocument>): nat {
    if documents == [] then 0
    else TotalChunks(documents[..|documents| - 1]) + |documents[|documents| - 1].chunks|
  }

  ghost predicate AllUnchanged(env: Env, l: Logical, files: seq<File>, n: nat) {
    forall i :: 0 <= i < n && i < |files| ==> Unchanged(env, l, files[i])
  }

  /** A scan over unchanged files calls neither chunker nor embedder, so it cannot fail. */
  lemma {:induction false} UnchangedScan(env: Env, l: Logical, v: Vectors, files: seq<File>, n: nat)
    requires n <= |files| && AllUnchanged(env, l, files, n)
    ensures Scan(env, l, v, files, n) == Some(Progress(v, [], 0, 0, n, 0))
    decreases n
  {
    if n > 0 { UnchangedScan(env, l, v, files, n - 1); }
  }

  /** The places before `n` where `at` holds. */
  ghost function Places(at: nat -> bool, n: nat): set<nat> {
    set i: nat | i < n && at(i)
  }

  ghost function NewAt(l: Logical, files: seq<File>): nat -> bool {
    (i: nat) => i < |files| && files[i].path !in l.documents
  }

  ghost function UnchangedAt(env: Env, l: Logical, files: seq<File>): nat -> bool {
    (i: nat) => i < |files| && Unchanged(env, l, files[i])
  }

  lemma {:induction false} OnePlaceMore(at: nat -> bool, n: nat)
    ensures |Places(at, n + 1)| == |Places(at, n)| + if at(n) then 1 else 0
  {
    assert Places(at, n + 1) == Places(at, n) + if at(n) then {n} else {};
  }

  ghost predicate Counted(env: Env, l: Logical, v: Vectors, files: seq<File>, n: nat, p: Progress) {
    && p.added == |Places(NewAt(l, files), n)| && p.kept == |Places(UnchangedAt(env, l, files), n)|
    && p.added + p.changed + p.kept == n
    && |p.replacements| == p.added + p.changed
    && p.embedded == TotalChunks(p.replacements)
    && (p.replacements == [] <==> AllUnchanged(env, l, files, n))
    && (p.replacements == [] ==> p.vectors == v)
  }

  lemma {:induction false} CountedStep(env: Env, l: Logical, v: Vectors, files: seq<File>, n: nat, q: Progress,
                                       p: Progress)
    requires n < |files| && ScanFile(env, l, q, files[n]) == Some(p) && Counted(env, l, v, files, n, q)
    ensures Counted(env, l, v, files, n + 1, p)
  {
    OnePlaceMore(NewAt(l, files), n);
    OnePlaceMore(UnchangedAt(env, l, files), n);
    if !Unchanged(env, l, files[n]) {
      assert p.replacements[..|p.replacements| - 1] == q.replacements;
    }
  }

  /** Every file is counted once, as new, changed or unchanged, every embedded chunk is in a replacement,
      and exactly when no file changed nothing is embedded or replaced and the vectors stay. */
  lemma {:induction false} CountersExact(env: Env, l: Logical, v: Vectors, files: seq<File>, p: Progress)
    requires Scan(env, l, v, files, |files|) == Some(p)
    ensures Counted(env, l, v, files, |files|, p)
  {
    var inv := (n: nat, q: Progress) => Counted(env, l, v, files, n, q);
    forall n: nat, q, q' | n < |files| && inv(n, q) && ScanFile(env, l, q, files[n]) == Some(q')
      ensures inv(n + 1, q')
    {
      CountedStep(env, l, v, files, n, q, q');
    }
    ScanInvariant(env, l, v, files, inv, |files|, p);
  }
}
