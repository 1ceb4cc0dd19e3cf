/** What tables and vectors hold for given file contents, in terms of the content hash, the chunker and the
    embedder alone: the k-th vector the embedder answers for the chunk contents of a file belongs to the
    k-th chunk. `Coherent` is proved to mean exactly this. */
module IndexMeaning {
  import opened Base
  import opened SqliteRepository
  import opened IndexUpdate

  /** A chunk is stored with its own fields and its own vector. */
  ghost predicate ChunkStored(l: Logical, v: Vectors, path: string, c: Chunk, offset: nat, e: Embedding) {
    && c.id in l.chunks
    && l.chunks[c.id]
       == ChunkView(path, c.startLine, c.endLine, c.language, "", c.content, c.contentHash, offset)
    && c.id in v && v[c.id] == e
  }

  ghost predicate ChunksStored(l: Logical, v: Vectors, path: string, chunks: seq<Chunk>, es: seq<Embedding>) {
    && |es| == |chunks|
    && (forall i, j :: 0 <= i < j < |chunks| ==> chunks[i].id != chunks[j].id)
    && (forall i :: 0 <= i < |chunks| ==> ChunkStored(l, v, path, chunks[i], i, es[i]))
  }

  /** What chunker and embedder answer for the file is what is stored. */
  ghost predicate AnswersStored(env: Env, l: Logical, v: Vectors, path: string, content: string) {
    match env.chunk(path, content)
    case None => false
    case Some(chunks) =>
      match env.embed(Texts(chunks))
      case None => false
      case Some(es) => ChunksStored(l, v, path, chunks, es)
  }

  ghost predicate FileStored(env: Env, l: Logical, v: Vectors, path: string, content: string) {
    && path in l.documents
    && l.documents[path].(modifiedNs := 0) == DocumentRow(path, env.hash(content), |content|, 0, "text-v1")
    && AnswersStored(env, l, v, path, content)
  }

  /** The chunker makes a chunk with this id of the file. */
  ghost predicate ChunkOfFile(env: Env, path: string, content: string, id: u64) {
    match env.chunk(path, content)
    case None => false
    case Some(chunks) => exists i :: 0 <= i < |chunks| && chunks[i].id == id
  }

  /** Tables and vectors hold every file of the contents, and nothing else. */
  ghost predicate Holds(env: Env, l: Logical, v: Vectors, contents: map<string, string>) {
    && l.documents.Keys == contents.Keys && v.Keys == l.chunks.Keys
    && (forall path :: path in contents ==> FileStored(env, l, v, path, contents[path]))
    && (forall id :: id in l.chunks ==>
          exists path :: path in contents && ChunkOfFile(env, path, contents[path], id))
  }

  /** The vectors alone. */
  ghost predicate Embedded(env: Env, v: Vectors, contents: map<string, string>) {
    && (forall path :: path in contents ==> FileEmbedded(env, v, path, contents[path]))
    && (forall id :: id in v ==> exists path :: path in contents && ChunkOfFile(env, path, contents[path], id))
  }

  ghost predicate FileEmbedded(env: Env, v: Vectors, path: string, content: string) {
    match env.chunk(path, content)
    case None => false
    case Some(chunks) =>
      match env.embed(Texts(chunks))
      case None => false
      case Some(es) =>
        |es| == |chunks| && forall i :: 0 <= i < |chunks| ==> chunks[i].id in v && v[chunks[i].id] == es[i]
  }

  // ---------------------------------------------------------------- rows and vectors of one file

  /** With distinct ids, every chunk has its own embedding. */
  lemma {:induction false} EmbeddingOf(x: Indexed, n: nat, i: nat)
    requires DistinctIds(x.chunks) && i < n <= |x.chunks| == |x.embeddings|
    ensures x.chunks[i].id in InsertFirst(map[], x, n)
    ensures InsertFirst(map[], x, n)[x.chunks[i].id] == x.embeddings[i]
    decreases n
  {
    if i < n - 1 { EmbeddingOf(x, n - 1, i); }
  }

  /** With distinct ids, every chunk has its own row. */
  lemma {:induction false} RowOfChunk(path: string, chunks: seq<Chunk>, offset: nat, i: nat)
    requires DistinctIds(chunks) && i < |chunks|
    ensures chunks[i].id in RowsOf(path, chunks, offset)
    ensures RowsOf(path, chunks, offset)[chunks[i].id] == ChunkViewOf(path, chunks[i], offset + i)
    decreases |chunks|
  {
    if i > 0 {
      IdsStep(chunks);
      RowOfChunk(path, chunks[1..], offset + 1, i - 1);
    }
  }

  /** The chunk with an id of the file. */
  lemma {:induction false} PlaceOf(chunks: seq<Chunk>, path: string, id: u64) returns (i: nat)
    requires id in RowsOf(path, chunks, 0)
    ensures i < |chunks| && chunks[i].id == id
  {
    RowsOfKeys(path, chunks, 0);
    i :| 0 <= i < |chunks| && chunks[i].id == id;
  }

  lemma {:induction false} IndexedAnswers(env: Env, path: string, content: string)
    requires Indexable(env, path, content)
    ensures env.chunk(path, content).Some?
    ensures env.embed(Texts(env.chunk(path, content).value)).Some?
    ensures IndexFile(env, path, content)
            == Some(Indexed(env.chunk(path, content).value, env.embed(Texts(env.chunk(path, content).value)).value))
  {
  }

  lemma {:induction false} CoherentChunk(env: Env, l: Logical, v: Vectors, path: string, content: string, i: nat)
    requires DocumentCoherent(env, l, v, path, content)
    requires i < |IndexFile(env, path, content).value.chunks|
    ensures var x := IndexFile(env, path, content).value;
            ChunkStored(l, v, path, x.chunks[i], i, x.embeddings[i])
  {
    var x := IndexFile(env, path, content).value;
    RowOfChunk(path, x.chunks, 0, i);
    EmbeddingOf(x, |x.chunks|, i);
    assert ChunkCoherent(env, l, v, path, content, x.chunks[i].id);
  }

  lemma {:induction false} CoherentFile(env: Env, l: Logical, v: Vectors, path: string, content: string)
    requires DocumentCoherent(env, l, v, path, content)
    ensures FileStored(env, l, v, path, content)
  {
    IndexedAnswers(env, path, content);
    var x := IndexFile(env, path, content).value;
    forall i | 0 <= i < |x.chunks| ensures ChunkStored(l, v, path, x.chunks[i], i, x.embeddings[i]) {
      CoherentChunk(env, l, v, path, content, i);
    }
  }

  lemma {:induction false} StoredFile(env: Env, l: Logical, v: Vectors, path: string, content: string)
    requires FileStored(env, l, v, path, content)
    ensures DocumentCoherent(env, l, v, path, content)
  {
    var chunks := env.chunk(path, content).value;
    var x := Indexed(chunks, env.embed(Texts(chunks)).value);
    assert IndexFile(env, path, content) == Some(x);
    forall id | id in Rows(env, path, content) ensures ChunkCoherent(env, l, v, path, content, id) {
      var i := PlaceOf(chunks, path, id);
      RowOfChunk(path, chunks, 0, i);
      EmbeddingOf(x, |chunks|, i);
      assert ChunkStored(l, v, path, chunks[i], i, x.embeddings[i]);
    }
  }

  lemma {:induction false} OwnedChunk(env: Env, l: Logical, m: map<string, string>, id: u64)
    requires id in l.chunks && Owned(env, l, m, id)
    ensures exists path :: path in m && ChunkOfFile(env, path, m[path], id)
  {
    var path := l.chunks[id].path;
    IndexedAnswers(env, path, m[path]);
    var i := PlaceOf(env.chunk(path, m[path]).value, path, id);
    assert ChunkOfFile(env, path, m[path], id);
  }

  lemma {:induction false} ChunkIsOwned(env: Env, l: Logical, v: Vectors, m: map<string, string>, path: string, id: u64)
    requires path in m && FileStored(env, l, v, path, m[path]) && ChunkOfFile(env, path, m[path], id)
    ensures id in l.chunks && Owned(env, l, m, id)
  {
    StoredFile(env, l, v, path, m[path]);
    var chunks := env.chunk(path, m[path]).value;
    var i :| 0 <= i < |chunks| && chunks[i].id == id;
    RowOfChunk(path, chunks, 0, i);
    assert ChunkStored(l, v, path, chunks[i], i, env.embed(Texts(chunks)).value[i]);
  }

  /** The reference, read without any function of the update: coherent tables and vectors are those that hold
      each file's chunks with their fields and each chunk with its own embedding, and nothing else. */
  lemma {:induction false} CoherentMeans(env: Env, l: Logical, v: Vectors, m: map<string, string>)
    ensures Coherent(env, l, v, m) <==> Holds(env, l, v, m)
  {
    if Coherent(env, l, v, m) {
      forall path | path in m ensures FileStored(env, l, v, path, m[path]) {
        assert DocumentCoherent(env, l, v, path, m[path]);
        CoherentFile(env, l, v, path, m[path]);
      }
      forall id | id in l.chunks ensures exists path :: path in m && ChunkOfFile(env, path, m[path], id) {
        OwnedChunk(env, l, m, id);
      }
    }
    if Holds(env, l, v, m) {
      forall path | path in m ensures DocumentCoherent(env, l, v, path, m[path]) {
        StoredFile(env, l, v, path, m[path]);
      }
      forall id | id in l.chunks ensures Owned(env, l, m, id) {
        var path :| path in m && ChunkOfFile(env, path, m[path], id);
        ChunkIsOwned(env, l, v, m, path, id);
      }
    }
  }

  /** Chunk by chunk: the answers of chunker and embedder for a file are stored side by side. */
  lemma {:induction false} ChunksAndVectors(env: Env, l: Logical, v: Vectors, m: map<string, string>, path: string)
    returns (chunks: seq<Chunk>, es: seq<Embedding>)
    requires Coherent(env, l, v, m) && path in m
    ensures env.chunk(path, m[path]) == Some(chunks) && |es| == |chunks|
    ensures exists texts :: env.embed(texts) == Some(es) && |texts| == |chunks|
                            && forall i :: 0 <= i < |chunks| ==> texts[i] == chunks[i].content
    ensures forall i :: 0 <= i < |chunks| ==>
              && chunks[i].id in v && v[chunks[i].id] == es[i]
              && chunks[i].id in l.chunks
              && l.chunks[chunks[i].id] == ChunkView(path, chunks[i].startLine, chunks[i].endLine, chunks[i].language,
                                                     "", chunks[i].content, chunks[i].contentHash, i)
  {
    CoherentMeans(env, l, v, m);
    assert FileStored(env, l, v, path, m[path]);
    chunks := env.chunk(path, m[path]).value;
    es := env.embed(Texts(chunks)).value;
    forall i | 0 <= i < |chunks|
      ensures chunks[i].id in v && v[chunks[i].id] == es[i] && chunks[i].id in l.chunks
      ensures l.chunks[chunks[i].id] == ChunkView(path, chunks[i].startLine, chunks[i].endLine, chunks[i].language,
                                                  "", chunks[i].content, chunks[i].contentHash, i)
    {
      assert ChunkStored(l, v, path, chunks[i], i, es[i]);
    }
  }

  /** Coherent vectors are the embeddings of the contents, each under the id of its chunk. */
  lemma {:induction false} CoherentVectors(env: Env, l: Logical, v: Vectors, m: map<string, string>)
    requires Coherent(env, l, v, m)
    ensures Embedded(env, v, m)
  {
    CoherentMeans(env, l, v, m);
    HoldsVectors(env, l, v, m);
  }

  lemma {:induction false} HoldsVectors(env: Env, l: Logical, v: Vectors, m: map<string, string>)
    requires Holds(env, l, v, m)
    ensures Embedded(env, v, m)
  {
    forall path | path in m ensures FileEmbedded(env, v, path, m[path]) {
      assert FileStored(env, l, v, path, m[path]);
      var chunks := env.chunk(path, m[path]).value;
      forall i | 0 <= i < |chunks|
        ensures chunks[i].id in v && v[chunks[i].id] == env.embed(Texts(chunks)).value[i]
      {
        assert ChunkStored(l, v, path, chunks[i], i, env.embed(Texts(chunks)).value[i]);
      }
    }
  }
}
