/** Which contents can be published: the vectors an update commits are exactly the embeddings of the
    scanned contents, so whether the snapshot takes them is decided by these contents alone. */
module IndexAccepted {
  import opened Base
  import opened SqliteRepository
  import opened IndexUpdate
  import opened IndexCrash
  import opened IndexMeaning
  import opened IndexRuns
  import BruteForceIndex
  import EmbedBatches

  /** The snapshot takes every embedding of the file. */
  ghost predicate FileAccepted(env: Env, dimension: nat, path: string, content: string) {
    && env.chunk(path, content).Some? && env.embed(Texts(env.chunk(path, content).value)).Some?
    && forall e :: e in env.embed(Texts(env.chunk(path, content).value)).value ==>
         BruteForceIndex.Accepted(dimension, e)
  }

  ghost predicate ContentsAccepted(env: Env, dimension: nat, contents: map<string, string>) {
    forall path :: path in contents ==> FileAccepted(env, dimension, path, contents[path])
  }

  lemma {:induction false} EmbeddingStored(env: Env, l: Logical, v: Vectors, m: map<string, string>, path: string,
                                           i: nat)
    requires Coherent(env, l, v, m) && path in m && Indexable(env, path, m[path])
    requires i < |IndexFile(env, path, m[path]).value.chunks|
    ensures var x := IndexFile(env, path, m[path]).value; x.chunks[i].id in v && v[x.chunks[i].id] == x.embeddings[i]
  {
    var x := IndexFile(env, path, m[path]).value;
    RowsOfKeys(path, x.chunks, 0);
    assert x.chunks[i].id in Ids(x.chunks);
    assert DocumentCoherent(env, l, v, path, m[path]);
    assert ChunkCoherent(env, l, v, path, m[path], x.chunks[i].id);
    EmbeddingOf(x, |x.chunks|, i);
  }

  lemma {:induction false} StoredIsEmbedding(env: Env, l: Logical, v: Vectors, m: map<string, string>, id: u64)
    returns (path: string, i: nat)
    requires Coherent(env, l, v, m) && id in v
    ensures path in m && Indexable(env, path, m[path])
    ensures var x := IndexFile(env, path, m[path]).value; i < |x.embeddings| && v[id] == x.embeddings[i]
  {
    assert Owned(env, l, m, id);
    path := l.chunks[id].path;
    var x := IndexFile(env, path, m[path]).value;
    RowsOfKeys(path, x.chunks, 0);
    i :| 0 <= i < |x.chunks| && x.chunks[i].id == id;
    EmbeddingStored(env, l, v, m, path, i);
  }

  /** The committed vectors pass the tests of the snapshot exactly when the embeddings of the contents do. */
  lemma {:induction false} AcceptedExactly(env: Env, dimension: nat, l: Logical, v: Vectors, m: map<string, string>)
    requires Coherent(env, l, v, m)
    ensures AllAccepted(dimension, v) <==> ContentsAccepted(env, dimension, m)
  {
    if AllAccepted(dimension, v) {
      forall path | path in m ensures FileAccepted(env, dimension, path, m[path]) {
        assert DocumentCoherent(env, l, v, path, m[path]);
        var x := IndexFile(env, path, m[path]).value;
        forall e | e in x.embeddings ensures BruteForceIndex.Accepted(dimension, e) {
          var i :| 0 <= i < |x.embeddings| && x.embeddings[i] == e;
          EmbeddingStored(env, l, v, m, path, i);
        }
      }
    }
    if ContentsAccepted(env, dimension, m) {
      forall id | id in v ensures BruteForceIndex.Accepted(dimension, v[id]) {
        var path, i := StoredIsEmbedding(env, l, v, m, id);
        assert FileAccepted(env, dimension, path, m[path]);
      }
    }
  }

  /** In every state of every run, the committed vectors are acceptable exactly when the embeddings of the
      last committed contents are. */
  lemma {:induction false} CommittedAcceptedExactly(c: Config, run: seq<State>, i: nat)
    requires GoodConfig(c) && Behavior(c, run) && i < |run|
    ensures Visible(c, run[i].disk).vectors.Some?
    ensures AllAccepted(c.dimension, Visible(c, run[i].disk).vectors.value) <==>
            ContentsAccepted(c.env, c.dimension, run[i].committed)
  {
    RunInvariant(c, run, i);
    var d := run[i].disk;
    AcceptedExactly(c.env, c.dimension, d.db.view, LoadVectors(c, d.files, GenerationOf(d.db).value).value,
                    run[i].committed);
  }

  // ---------------------------------------------------------------- embedders that answer finite vectors

  /** Every vector the embedder answers is finite and of the dimension. */
  ghost predicate AnswersAccepted(env: Env, dimension: nat) {
    forall texts, i {:trigger env.embed(texts).value[i]} ::
      env.embed(texts).Some? && 0 <= i < |env.embed(texts).value| ==>
        BruteForceIndex.Accepted(dimension, env.embed(texts).value[i])
  }

  /** With such an embedder, every committed vector of every run is acceptable. */
  lemma {:induction false} CommittedAreAccepted(c: Config, run: seq<State>, i: nat)
    requires GoodConfig(c) && Behavior(c, run) && i < |run| && AnswersAccepted(c.env, c.dimension)
    ensures Visible(c, run[i].disk).vectors.Some?
    ensures AllAccepted(c.dimension, Visible(c, run[i].disk).vectors.value)
  {
    CommittedAcceptedExactly(c, run, i);
    RunInvariant(c, run, i);
    var d := run[i].disk;
    AnswersSuffice(c, d.db.view, LoadVectors(c, d.files, GenerationOf(d.db).value).value, run[i].committed);
  }

  lemma {:induction false} AnswersSuffice(c: Config, l: Logical, v: Vectors, m: map<string, string>)
    requires Coherent(c.env, l, v, m) && AnswersAccepted(c.env, c.dimension)
    ensures ContentsAccepted(c.env, c.dimension, m)
  {
    forall path | path in m ensures FileAccepted(c.env, c.dimension, path, m[path]) {
      assert DocumentCoherent(c.env, l, v, path, m[path]);
      var x := IndexFile(c.env, path, m[path]).value;
      assert c.env.embed(Texts(x.chunks)).value == x.embeddings;
      forall e | e in x.embeddings ensures BruteForceIndex.Accepted(c.dimension, e) {
        var i :| 0 <= i < |x.embeddings| && x.embeddings[i] == e;
        assert c.env.embed(Texts(x.chunks)).value[i] == e;
      }
    }
  }

  /** The embedder is embed_many over the given model. */
  ghost predicate EmbedsWith(env: Env, m: EmbedBatches.Model, contextSize: nat, batchSize: nat) {
    forall texts {:trigger env.embed(texts)} ::
      env.embed(texts).Some? ==>
        && EmbedBatches.TokenLists(m, texts, contextSize, batchSize).Returned?
        && var lists := EmbedBatches.TokenLists(m, texts, contextSize, batchSize).value;
           EmbedBatches.AllRead(m, lists, EmbedBatches.Greedy(lists, 0, batchSize), env.embed(texts).value)
  }

  /** l2_normalize throws on what is not finite and divides by the norm: what it returns is finite, with as
      many components. */
  ghost predicate NormalizesFinite(m: EmbedBatches.Model) {
    forall v :: m.normalize(v).Returned? ==> BruteForceIndex.Accepted(|v|, m.normalize(v).value)
  }

  /** The embedder of the source is such an embedder. */
  lemma {:induction false} EmbedManyAnswersAccepted(env: Env, m: EmbedBatches.Model, contextSize: nat, batchSize: nat,
                                                    dimension: nat)
    requires EmbedsWith(env, m, contextSize, batchSize) && NormalizesFinite(m)
    requires EmbedBatches.HasDimension(m, dimension)
    ensures AnswersAccepted(env, dimension)
  {
    forall texts, i | env.embed(texts).Some? && 0 <= i < |env.embed(texts).value|
      ensures BruteForceIndex.Accepted(dimension, env.embed(texts).value[i])
    {
      var lists := EmbedBatches.TokenLists(m, texts, contextSize, batchSize).value;
      var v := EmbedBatches.ReadIsNormalized(m, dimension, lists, batchSize, env.embed(texts).value, i);
    }
  }
}
