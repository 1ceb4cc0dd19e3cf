/** What an update leaves on disk, field by field: the records of the vector file, the document rows with their
    modification times, the metadata, and whether there is a new generation at all. */
module IndexCommitted {
  import opened Base
  import opened SqliteRepository
  import opened IndexUpdate
  import opened IndexMeaning
  import opened IndexCrash
  import opened IndexRuns
  import Decimal
  import IndexRebuild
  import VectorFile

  // ---------------------------------------------------------------- the vector file

  /** Reading records into the map: the first record of an id gives its vector. */
  lemma {:induction false} FirstRecordCounts(rs: seq<VectorFile.StoredVector>, id: u64) returns (k: nat)
    requires id in FromRecords(rs)
    ensures k < |rs| && rs[k].chunkId == id && FromRecords(rs)[id] == rs[k].values
    ensures forall j :: 0 <= j < k ==> rs[j].chunkId != id
    decreases |rs|
  {
    var init := rs[..|rs| - 1];
    if id in FromRecords(init) {
      k := FirstRecordCounts(init, id);
    } else {
      k := |rs| - 1;
      FromRecordsKeys(init);
      forall j | 0 <= j < k ensures rs[j].chunkId != id {
        assert init[j].chunkId in RecordIds(init);
      }
    }
  }

  /** In every state of every run, the committed tables hold every file of the committed contents with the chunks
      the chunker makes of it, and the committed vectors are the embeddings of those chunks. */
  lemma {:induction false} CommittedMeans(c: Config, run: seq<State>, i: nat)
    requires GoodConfig(c) && Behavior(c, run) && i < |run|
    ensures Visible(c, run[i].disk).vectors.Some?
    ensures Holds(c.env, run[i].disk.db.view, Visible(c, run[i].disk).vectors.value, run[i].committed)
  {
    RunInvariant(c, run, i);
    CoherentMeans(c.env, run[i].disk.db.view, Visible(c, run[i].disk).vectors.value, run[i].committed);
  }

  /** And the committed vector file has, for chunk j of a file, a record with that chunk's id and its embedding. */
  lemma {:induction false} CommittedRecord(c: Config, run: seq<State>, i: nat, path: string, j: nat)
    returns (loaded: VectorFile.Loaded, k: nat)
    requires GoodConfig(c) && Behavior(c, run) && i < |run| && path in run[i].committed
    requires c.env.chunk(path, run[i].committed[path]).Some?
    requires j < |c.env.chunk(path, run[i].committed[path]).value|
    ensures var g, chunks := GenerationOf(run[i].disk.db), c.env.chunk(path, run[i].committed[path]).value;
            && g.Some? && g.value > 0 && VectorsBin(g.value) in run[i].disk.files
            && VectorFile.Parse(run[i].disk.files[VectorsBin(g.value)]) == Some(loaded)
            && k < |loaded.records| && loaded.records[k].chunkId == chunks[j].id
            && c.env.embed(Texts(chunks)).Some? && j < |c.env.embed(Texts(chunks)).value|
            && loaded.records[k].values == c.env.embed(Texts(chunks)).value[j]
  {
    CommittedMeans(c, run, i);
    RunInvariant(c, run, i);
    var v := Visible(c, run[i].disk).vectors.value;
    var chunks := c.env.chunk(path, run[i].committed[path]).value;
    assert FileStored(c.env, run[i].disk.db.view, v, path, run[i].committed[path]);
    assert ChunkStored(run[i].disk.db.view, v, path, chunks[j], j, c.env.embed(Texts(chunks)).value[j]);
    loaded, k := LoadedRecord(c, run[i].disk, chunks[j].id);
  }

  lemma {:induction false} LoadedRecord(c: Config, d: Disk, id: u64) returns (loaded: VectorFile.Loaded, k: nat)
    requires GoodConfig(c) && Visible(c, d).vectors.Some? && id in Visible(c, d).vectors.value
    ensures var g := GenerationOf(d.db);
            && g.Some? && g.value > 0 && VectorsBin(g.value) in d.files
            && VectorFile.Parse(d.files[VectorsBin(g.value)]) == Some(loaded)
            && k < |loaded.records| && loaded.records[k].chunkId == id
            && loaded.records[k].values == Visible(c, d).vectors.value[id]
  {
    loaded := VectorFile.Parse(d.files[VectorsBin(GenerationOf(d.db).value)]).value;
    k := FirstRecordCounts(loaded.records, id);
  }

  // ---------------------------------------------------------------- document rows

  /** The row an update leaves for a scanned file: the old one if the content hash is the old one, otherwise one
      made from the file, with its time of modification. */
  ghost predicate RowOfFile(env: Env, l: Logical, f: File, documents: map<string, DocumentRow>) {
    && f.path in documents
    && documents[f.path] ==
       if f.path in l.documents && l.documents[f.path].contentHash == env.hash(f.content) then l.documents[f.path]
       else DocumentRow(f.path, env.hash(f.content), |f.content|, f.modifiedNs, "text-v1")
  }

  ghost predicate SameDocument(l0: Logical, path: string, documents: map<string, DocumentRow>) {
    (path in documents <==> path in l0.documents) && (path in documents ==> documents[path] == l0.documents[path])
  }

  /** Rows of the first n files are those of the files, the others still those of `l0`. */
  ghost predicate RowsSoFar(env: Env, l: Logical, l0: Logical, files: seq<File>, n: nat,
                            documents: map<string, DocumentRow>) {
    && (forall i :: 0 <= i < n && i < |files| ==> RowOfFile(env, l, files[i], documents))
    && (forall i :: 0 <= n <= i < |files| ==> SameDocument(l0, files[i].path, documents))
  }

  /** The same as a function of the position in the loop. */
  ghost function RowsInvariant(env: Env, l: Logical, l0: Logical, files: seq<File>): (nat, Progress) -> bool {
    (n: nat, p: Progress) => RowsSoFar(env, l, l0, files, n, ReplaceAll(l0, p.replacements).documents)
  }

  function RowFrom(env: Env, f: File): DocumentRow {
    DocumentRow(f.path, env.hash(f.content), |f.content|, f.modifiedNs, "text-v1")
  }

  lemma {:induction false} ScannedRow(env: Env, l: Logical, l0: Logical, f: File, q: Progress, p: Progress)
    requires ScanFile(env, l, q, f) == Some(p)
    ensures ReplaceAll(l0, p.replacements).documents ==
            if Unchanged(env, l, f) then ReplaceAll(l0, q.replacements).documents
            else ReplaceAll(l0, q.replacements).documents[f.path := RowFrom(env, f)]
  {
    if !Unchanged(env, l, f) {
      var d := DocumentOf(env, f, IndexFile(env, f.path, f.content).value.chunks);
      ReplaceAllAppend(l0, q.replacements, d);
      UpdateAfterMinus(ReplaceAll(l0, q.replacements).documents, f.path, RowOf(d));
    }
  }

  lemma {:induction false} RowsStep(env: Env, l: Logical, l0: Logical, files: seq<File>, n: nat,
                                    before: map<string, DocumentRow>, after: map<string, DocumentRow>)
    requires DistinctPaths(files) && n < |files| && SameDocument(l, files[n].path, l0.documents)
    requires RowsSoFar(env, l, l0, files, n, before)
    requires after == if Unchanged(env, l, files[n]) then before else before[files[n].path := RowFrom(env, files[n])]
    ensures RowsSoFar(env, l, l0, files, n + 1, after)
  {
    assert SameDocument(l0, files[n].path, before);
    forall i | 0 <= i < n + 1 && i < |files| ensures RowOfFile(env, l, files[i], after) {
      if i < n { assert RowOfFile(env, l, files[i], before); }
    }
    forall i | n + 1 <= i < |files| ensures SameDocument(l0, files[i].path, after) {
      assert SameDocument(l0, files[i].path, before);
    }
  }

  lemma {:induction false} RowsKept(env: Env, l: Logical, removals: seq<string>, files: seq<File>, n: nat, q: Progress,
                                    p: Progress)
    requires DistinctPaths(files) && ListedPaths(removals) == Removed(l, files) && n < |files|
    requires ScanFile(env, l, q, files[n]) == Some(p)
    requires RowsInvariant(env, l, EraseAll(l, removals), files)(n, q)
    ensures RowsInvariant(env, l, EraseAll(l, removals), files)(n + 1, p)
  {
    var l0 := EraseAll(l, removals);
    assert SameDocument(l, files[n].path, l0.documents) by {
      EraseAllView(l, removals);
      assert files[n].path in PathSet(files);
    }
    ScannedRow(env, l, l0, files[n], q, p);
    RowsStep(env, l, l0, files, n, ReplaceAll(l0, q.replacements).documents, ReplaceAll(l0, p.replacements).documents);
  }

  /** Which row every scanned file ends with, modification time included. */
  lemma {:induction false} RowsAreExact(env: Env, l: Logical, v: Vectors, files: seq<File>, removals: seq<string>,
                                        p: Progress)
    requires DistinctPaths(files) && ListedPaths(removals) == Removed(l, files)
    requires Scan(env, l, v, files, |files|) == Some(p)
    ensures forall i :: 0 <= i < |files| ==>
              RowOfFile(env, l, files[i], ReplaceAll(EraseAll(l, removals), p.replacements).documents)
  {
    var inv := RowsInvariant(env, l, EraseAll(l, removals), files);
    forall k: nat, q, q' | k < |files| && inv(k, q) && ScanFile(env, l, q, files[k]) == Some(q')
      ensures inv(k + 1, q')
    {
      RowsKept(env, l, removals, files, k, q, q');
    }
    NoRowsYet(env, l, EraseAll(l, removals), v, files);
    ScanInvariant(env, l, v, files, inv, |files|, p);
  }

  lemma {:induction false} NoRowsYet(env: Env, l: Logical, l0: Logical, v: Vectors, files: seq<File>)
    ensures RowsInvariant(env, l, l0, files)(0, Progress(v, [], 0, 0, 0, 0))
  {
    assert ReplaceAll(l0, []) == l0;
  }

  // ---------------------------------------------------------------- the commit

  /** The metadata a commit leaves: the configuration and the next generation. A configuration with another model
      or dimension is refused from then on. */
  lemma {:induction false} CommitStamps(c: Config, s: State, s': State, other: Config)
    requires GoodConfig(c) && Inv(c, s) && CommitTransaction(c, s, s')
    ensures var db := s'.disk.db;
            && Text(db, ChunkerVersion) == "text-v1" && Text(db, EmbeddingModelId) == c.modelId
            && Text(db, EmbeddingModelSha256) == c.modelHash && Text(db, Normalization) == "l2"
            && Decimal.Parse(Text(db, EmbeddingDimension)) == Some(c.dimension)
            && Decimal.Parse(Text(db, ActiveVectorGeneration)) == Some(s.process.plan.generation + 1)
            && (ModelMatches(other, db) <==> other.modelHash == c.modelHash && other.dimension == c.dimension)
  {
    var u := CommittedIsStamped(c, s, s');
    HashIsPresent(c);
    StampMeans(c, u, s.process.plan.generation + 1, other);
  }

  lemma {:induction false} HashIsPresent(c: Config)
    requires GoodConfig(c)
    ensures |c.modelHash| > 0
  {
  }

  lemma {:induction false} CommittedIsStamped(c: Config, s: State, s': State) returns (u: Database)
    requires GoodConfig(c) && Inv(c, s) && CommitTransaction(c, s, s')
    ensures s'.disk.db == Stamped(c, u, s.process.plan.generation + 1)
  {
    FinishedScript(c, s);
    u := ScriptMetadata(c, s.disk.db, s.process.plan);
  }

  lemma {:induction false} StampMeans(c: Config, u: Database, g: nat, other: Config)
    requires |c.modelHash| > 0
    ensures var db := Stamped(c, u, g);
            && Text(db, ChunkerVersion) == "text-v1" && Text(db, EmbeddingModelId) == c.modelId
            && Text(db, EmbeddingModelSha256) == c.modelHash && Text(db, Normalization) == "l2"
            && Decimal.Parse(Text(db, EmbeddingDimension)) == Some(c.dimension)
            && Decimal.Parse(Text(db, ActiveVectorGeneration)) == Some(g)
            && (ModelMatches(other, db) <==> other.modelHash == c.modelHash && other.dimension == c.dimension)
  {
    Decimal.ParseToString(c.dimension);
    Decimal.ParseToString(g);
    Decimal.ParseToString(other.dimension);
  }

  /** The rows a commit leaves for the scanned files. */
  lemma {:induction false} CommitWritesRows(c: Config, s: State, s': State)
    requires GoodConfig(c) && Inv(c, s) && CommitTransaction(c, s, s')
    ensures var files := s.process.plan.files;
            forall i :: 0 <= i < |files| ==>
              RowOfFile(c.env, s.disk.db.view, files[i], s'.disk.db.view.documents)
  {
    var p := s.process.plan;
    FinishedScript(c, s);
    var r := ScriptResult(c, s.disk.db, p);
    RowsAreExact(c.env, s.disk.db.view, LoadVectors(c, s.disk.files, p.generation).value, p.files, p.removals,
                 p.progress);
  }

  /** The metadata statements come last, so their values are the final ones. */
  lemma {:induction false} ScriptMetadata(c: Config, db: Database, p: Plan) returns (u: Database)
    requires ApplyAll(db, Script(c, p)).Some?
    ensures ApplyAll(db, Script(c, p)) == Some(Stamped(c, u, p.generation + 1))
  {
    var g := p.generation + 1;
    ApplyThree(db, EraseScript(p.removals), PutScript(p.progress.replacements, g), MetadataScript(c, g));
    var r := IndexCrash.Then(ApplyAll(db, EraseScript(p.removals)), PutScript(p.progress.replacements, g));
    u := r.value;
    MetadataScriptResult(c, u, g);
  }

  // ---------------------------------------------------------------- whether there is a new generation

  /** A file that counts as unchanged has its committed content, with hashes that do not collide. */
  lemma {:induction false} UnchangedFile(c: Config, l: Logical, v: Vectors, m: map<string, string>, f: File)
    requires GoodConfig(c) && Coherent(c.env, l, v, m) && (forall p :: p in m ==> c.occurs(p, m[p]))
    requires c.occurs(f.path, f.content) && Unchanged(c.env, l, f)
    ensures f.path in m && m[f.path] == f.content
  {
    assert DocumentCoherent(c.env, l, v, f.path, m[f.path]);
  }

  /** An update keeps the generation exactly when there is one and the scanned contents are the committed ones. */
  lemma {:induction false} GenerationKeptExactly(c: Config, s: State, p: Plan)
    requires GoodConfig(c) && Inv(c, s) && PlanFrom(c, s.disk, p) && AllOccur(c, p.files)
    ensures NothingToDo(p) <==> p.generation != 0 && Contents(p.files, |p.files|) == s.committed
  {
    KeepsExactly(c, s.disk, s.committed, p.files, p.progress);
    NothingListed(p.removals);
  }

  lemma {:induction false} SameFiles(c: Config, l: Logical, v: Vectors, m: map<string, string>, files: seq<File>)
    requires GoodConfig(c) && Coherent(c.env, l, v, m) && (forall p :: p in m ==> c.occurs(p, m[p]))
    requires DistinctPaths(files) && AllOccur(c, files)
    requires AllUnchanged(c.env, l, files, |files|) && Removed(l, files) == {}
    ensures Contents(files, |files|) == m
  {
    forall i | 0 <= i < |files| ensures files[i].path in m && m[files[i].path] == files[i].content {
      UnchangedFile(c, l, v, m, files[i]);
    }
    SamePaths(c.env, l, v, m);
    OnlyTheseFiles(m, files, l.documents.Keys);
  }

  lemma {:induction false} SamePaths(env: Env, l: Logical, v: Vectors, m: map<string, string>)
    requires Coherent(env, l, v, m)
    ensures l.documents.Keys == m.Keys
  {
  }

  lemma {:induction false} OnlyTheseFiles(m: map<string, string>, files: seq<File>, known: set<string>)
    requires DistinctPaths(files) && known == m.Keys && known - PathSet(files) == {}
    requires forall i :: 0 <= i < |files| ==> files[i].path in m && m[files[i].path] == files[i].content
    ensures Contents(files, |files|) == m
  {
    var scanned := Contents(files, |files|);
    ContentsPaths(files);
    assert scanned.Keys == m.Keys by {
      forall path | path in m ensures path in PathSet(files) {
        assert path !in known - PathSet(files);
      }
    }
    forall path | path in scanned ensures scanned[path] == m[path] {
      var i :| 0 <= i < |files| && files[i].path == path;
      IndexRebuild.ContentsAt(files, |files|, i);
    }
  }

  /** The same for the disk an update finds. */
  lemma {:induction false} KeepsExactly(c: Config, d: Disk, m: map<string, string>, files: seq<File>, p: Progress)
    requires GoodConfig(c) && DiskComplete(c, d, m) && DistinctPaths(files) && AllOccur(c, files)
    requires Scan(c.env, d.db.view, LoadVectors(c, d.files, GenerationOf(d.db).value).value, files, |files|) == Some(p)
    ensures p.replacements == [] && Removed(d.db.view, files) == {} <==> Contents(files, |files|) == m
  {
    var l, v := d.db.view, LoadVectors(c, d.files, GenerationOf(d.db).value).value;
    CountersExact(c.env, l, v, files, p);
    if p.replacements == [] && Removed(l, files) == {} {
      SameFiles(c, l, v, m, files);
    }
    if Contents(files, |files|) == m {
      SameHashes(c.env, l, v, m, files);
    }
  }

  lemma {:induction false} SameHashes(env: Env, l: Logical, v: Vectors, m: map<string, string>, files: seq<File>)
    requires Coherent(env, l, v, m) && DistinctPaths(files) && Contents(files, |files|) == m
    ensures AllUnchanged(env, l, files, |files|) && Removed(l, files) == {}
  {
    forall i | 0 <= i < |files| ensures Unchanged(env, l, files[i]) {
      IndexRebuild.ContentsAt(files, |files|, i);
      assert DocumentCoherent(env, l, v, files[i].path, m[files[i].path]);
    }
    ContentsPaths(files);
    assert Removed(l, files) == {};
  }

  // ---------------------------------------------------------------- how much is embedded

  /** How many chunks the chunker makes of a file. */
  ghost function ChunkCount(env: Env, f: File): nat {
    match env.chunk(f.path, f.content)
    case None => 0
    case Some(chunks) => |chunks|
  }

  /** The chunks of new and changed files among the first n: the place of the file and the place in it. */
  ghost function EmbeddedAt(env: Env, l: Logical, files: seq<File>, n: nat): set<(nat, nat)> {
    set i: nat, k: nat | i < n && i < |files| && k < ChunkCount(env, files[i]) && !Unchanged(env, l, files[i]) :: (i, k)
  }

  lemma {:induction false} PairsWith(i: nat, n: nat)
    ensures |set k: nat | k < n :: (i, k)| == n
    decreases n
  {
    var row := set k: nat | k < n :: (i, k);
    if n == 0 {
      assert row == {};
    } else {
      PairsWith(i, n - 1);
      assert row == (set k: nat | k < n - 1 :: (i, k)) + {(i, n - 1)};
    }
  }

  lemma {:induction false} OneFileEmbedded(env: Env, l: Logical, files: seq<File>, n: nat)
    requires n < |files|
    ensures |EmbeddedAt(env, l, files, n + 1)|
            == |EmbeddedAt(env, l, files, n)| + if Unchanged(env, l, files[n]) then 0 else ChunkCount(env, files[n])
  {
    PairsWith(n, ChunkCount(env, files[n]));
    EmbeddedSplits(env, l, files, n);
  }

  lemma {:induction false} EmbeddedSplits(env: Env, l: Logical, files: seq<File>, n: nat)
    requires n < |files|
    ensures var row := set k: nat | k < ChunkCount(env, files[n]) :: (n, k);
            && EmbeddedAt(env, l, files, n) !! row
            && EmbeddedAt(env, l, files, n + 1)
               == EmbeddedAt(env, l, files, n) + if Unchanged(env, l, files[n]) then {} else row
  {
  }

  /** The number of embedded chunks an update reports. */
  lemma {:induction false} EmbeddedExactly(env: Env, l: Logical, v: Vectors, files: seq<File>, p: Progress)
    requires Scan(env, l, v, files, |files|) == Some(p)
    ensures p.embedded == |EmbeddedAt(env, l, files, |files|)|
  {
    var inv := (n: nat, q: Progress) => q.embedded == |EmbeddedAt(env, l, files, n)|;
    assert EmbeddedAt(env, l, files, 0) == {};
    forall n: nat, q, q' | n < |files| && inv(n, q) && ScanFile(env, l, q, files[n]) == Some(q')
      ensures inv(n + 1, q')
    {
      OneFileEmbedded(env, l, files, n);
    }
    ScanInvariant(env, l, v, files, inv, |files|, p);
  }
}
