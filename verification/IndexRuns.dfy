/** What holds over whole runs of the index: any number of updates over any repository contents, with
    exceptions and crashes anywhere. */
module IndexRuns {
  import opened Base
  import opened SqliteRepository
  import opened IndexUpdate
  import opened IndexCrash
  import IndexRebuild
  import VectorFile

  lemma {:induction false} RunInvariant(c: Config, run: seq<State>, i: nat)
    requires GoodConfig(c) && Behavior(c, run) && i < |run|
    ensures Inv(c, run[i])
    decreases i
  {
    if i == 0 {
      InitInv(c, run[0]);
    } else {
      RunInvariant(c, run, i - 1);
      NextInv(c, run[i - 1], run[i - 1 + 1]);
    }
  }

  function RecordIds(rs: seq<VectorFile.StoredVector>): set<u64> {
    set i | 0 <= i < |rs| :: rs[i].chunkId
  }

  lemma {:induction false} FromRecordsKeys(rs: seq<VectorFile.StoredVector>)
    ensures FromRecords(rs).Keys == RecordIds(rs)
    decreases |rs|
  {
    if rs != [] {
      var init, last := rs[..|rs| - 1], rs[|rs| - 1];
      FromRecordsKeys(init);
      forall x | x in RecordIds(rs) ensures x in RecordIds(init) + {last.chunkId} {
        var i :| 0 <= i < |rs| && rs[i].chunkId == x;
        if i < |rs| - 1 { assert init[i].chunkId == x; }
      }
      forall x | x in RecordIds(init) ensures x in RecordIds(rs) {
        var i :| 0 <= i < |init| && init[i].chunkId == x;
        assert rs[i].chunkId == x;
      }
      assert rs[|rs| - 1].chunkId in RecordIds(rs);
    }
  }

  /** Crash safety: in every state of every run the committed generation is 0, or names a vector file that
      reads back completely, belongs to the configured model, and holds exactly the committed chunk
      ids; tables and vectors are those of the contents of the last committed update, whole. */
  lemma {:induction false} CommittedGenerationIsComplete(c: Config, run: seq<State>, i: nat)
    requires GoodConfig(c) && Behavior(c, run) && i < |run|
    ensures DiskComplete(c, run[i].disk, run[i].committed)
    ensures var g := GenerationOf(run[i].disk.db).value;
            g != 0 ==>
              && VectorsBin(g) in run[i].disk.files
              && VectorFile.Parse(run[i].disk.files[VectorsBin(g)]).Some?
              && var loaded := VectorFile.Parse(run[i].disk.files[VectorsBin(g)]).value;
                 loaded.metadata == FileMetadata(c)
                 && RecordIds(loaded.records) == run[i].disk.db.view.chunks.Keys
  {
    RunInvariant(c, run, i);
    var d := run[i].disk;
    var g := GenerationOf(d.db).value;
    if g != 0 {
      FromRecordsKeys(VectorFile.Parse(d.files[VectorsBin(g)]).value.records);
      SameKeys(c.env, d.db.view, LoadVectors(c, d.files, g).value, run[i].committed);
    }
  }

  lemma {:induction false} SameKeys(env: Env, l: Logical, v: Vectors, m: map<string, string>)
    requires Coherent(env, l, v, m)
    ensures v.Keys == l.chunks.Keys
  {
  }

  /** What a reader of the disk sees: the tables, the generation they name, and that generation's vectors. */
  datatype Reading = Reading(view: Logical, generation: Option<nat>, vectors: Option<Vectors>)

  ghost function Visible(c: Config, d: Disk): Reading
    requires GoodConfig(c)
  {
    var g := GenerationOf(d.db);
    Reading(d.db.view, g, if g.Some? then LoadVectors(c, d.files, g.value) else None)
  }

  /** No step changes part of what is visible: every step but the commit leaves all of it, and the commit
      replaces all of it by the new contents, the next generation and the planned vectors. */
  lemma {:induction false} OldOrNew(c: Config, s: State, s': State)
    requires GoodConfig(c) && Inv(c, s) && Next(c, s, s')
    ensures !CommitTransaction(c, s, s') ==> Visible(c, s'.disk) == Visible(c, s.disk)
    ensures CommitTransaction(c, s, s') ==>
              && Coherent(c.env, s'.disk.db.view, s.process.plan.vectors,
                          Contents(s.process.plan.files, |s.process.plan.files|))
              && Visible(c, s'.disk)
                 == Reading(s'.disk.db.view, Some(s.process.plan.generation + 1), Some(s.process.plan.vectors))
  {
    if CommitTransaction(c, s, s') {
      FinishedScript(c, s);
      CommitCompletes(c, s.disk, s.committed, s.process.plan, s.process.working);
    } else {
      QuietNext(c, s, s');
    }
  }

  lemma {:induction false} QuietNext(c: Config, s: State, s': State)
    requires GoodConfig(c) && Inv(c, s) && Next(c, s, s') && !CommitTransaction(c, s, s')
    ensures Visible(c, s'.disk) == Visible(c, s.disk)
  {
    WritingGeneration(c, s);
    var kind :| StepOf(c, s, s', kind);
    QuietStep(c, s, s', kind);
  }

  lemma {:induction false} WritingGeneration(c: Config, s: State)
    requires GoodConfig(c) && Inv(c, s)
    ensures GenerationOf(s.disk.db).Some?
    ensures s.process.Writing? ==> s.process.plan.generation == GenerationOf(s.disk.db).value
  {
  }

  lemma {:induction false} QuietStep(c: Config, s: State, s': State, kind: Kind)
    requires GoodConfig(c) && StepOf(c, s, s', kind) && kind != Commits
    requires GenerationOf(s.disk.db).Some?
    requires s.process.Writing? ==> s.process.plan.generation == GenerationOf(s.disk.db).value
    ensures Visible(c, s'.disk) == Visible(c, s.disk)
  {
    var g := GenerationOf(s.disk.db).value;
    match kind
    case Removes => LoadFrame(c, s.disk.files, s'.disk.files, g);
    case Creates => LoadFrame(c, s.disk.files, s'.disk.files, g);
    case Writes => LoadFrame(c, s.disk.files, s'.disk.files, g);
    case Renames => LoadFrame(c, s.disk.files, s'.disk.files, g);
    case _ =>
  }

  lemma {:induction false} FinishedScript(c: Config, s: State)
    requires GoodConfig(c) && ProcessOk(c, s)
    requires s.process.InTransaction? && s.process.done == |Script(c, s.process.plan)|
    ensures PlanFrom(c, s.disk, s.process.plan) && AllOccur(c, s.process.plan.files)
    ensures NewFileComplete(c, s.disk, s.process.plan)
    ensures ApplyAll(s.disk.db, Script(c, s.process.plan)) == Some(s.process.working)
  {
    var script := Script(c, s.process.plan);
    assert script[..|script|] == script;
  }

  /** The snapshot published by a successful update is the vector map on disk. */
  lemma {:induction false} SnapshotIsCommitted(c: Config, s: State, s': State)
    requires GoodConfig(c) && Inv(c, s) && Publish(c, s, s')
    ensures GenerationOf(s'.disk.db).Some?
    ensures s'.handle == LoadVectors(c, s'.disk.files, GenerationOf(s'.disk.db).value)
    ensures s'.handle.Some? && s'.handle.value.Keys == s'.disk.db.view.chunks.Keys
  {
    SameKeys(c.env, s.disk.db.view, s.process.plan.vectors, s.committed);
  }

  /** Incremental equals rebuild, over runs: after any history, indexing the last committed contents into
      an empty data directory goes through and gives the same documents, chunks and vectors. */
  lemma {:induction false} RunEqualsRebuild(c: Config, run: seq<State>, i: nat, files: seq<File>)
    requires GoodConfig(c) && Behavior(c, run) && i < |run|
    requires DistinctPaths(files) && Contents(files, |files|) == run[i].committed
    ensures var rebuilt := Scan(c.env, IndexRebuild.NO_TABLES, map[], files, |files|);
            var l := run[i].disk.db.view;
            && rebuilt.Some? && Storable(IndexRebuild.NO_TABLES, rebuilt.value.replacements)
            && var r := ReplaceAll(IndexRebuild.NO_TABLES, rebuilt.value.replacements);
               && r.chunks == l.chunks && r.documents.Keys == l.documents.Keys
               && (forall path :: path in l.documents ==>
                     r.documents[path].(modifiedNs := 0) == l.documents[path].(modifiedNs := 0))
               && Visible(c, run[i].disk).vectors == Some(FinalVectors(IndexRebuild.NO_TABLES, rebuilt.value, files))
  {
    RunInvariant(c, run, i);
    var d := run[i].disk;
    IndexRebuild.RebuildAgrees(c.env, d.db.view, LoadVectors(c, d.files, GenerationOf(d.db).value).value,
                               run[i].committed, files);
  }

  /** An update over unchanged contents embeds nothing, writes nothing and keeps the generation. */
  lemma {:induction false} UnchangedContentsKeepGeneration(c: Config, s: State, p: Plan)
    requires GoodConfig(c) && Inv(c, s) && PlanFrom(c, s.disk, p) && p.generation != 0
    requires Contents(p.files, |p.files|) == s.committed
    ensures NothingToDo(p) && p.progress.embedded == 0
    ensures p.vectors == LoadVectors(c, s.disk.files, p.generation).value
  {
    var l, v := s.disk.db.view, LoadVectors(c, s.disk.files, p.generation).value;
    forall i | 0 <= i < |p.files| ensures Unchanged(c.env, l, p.files[i]) {
      IndexRebuild.ContentsAt(p.files, |p.files|, i);
      assert DocumentCoherent(c.env, l, v, p.files[i].path, s.committed[p.files[i].path]);
    }
    CountersExact(c.env, l, v, p.files, p.progress);
    NoneRemoved(c.env, l, v, s.committed, p);
  }

  lemma {:induction false} NoneRemoved(env: Env, l: Logical, v: Vectors, m: map<string, string>, p: Plan)
    requires Coherent(env, l, v, m) && Contents(p.files, |p.files|) == m
    requires ListedPaths(p.removals) == Removed(l, p.files) && p.vectors == FinalVectors(l, p.progress, p.files)
    ensures p.removals == [] && p.vectors == p.progress.vectors
  {
    NothingListed(p.removals);
    ContentsPaths(p.files);
    assert Removed(l, p.files) == {};
    MinusNothing(p.progress.vectors, RemovedIds(l, p.files));
  }

  lemma {:induction false} NothingListed(paths: seq<string>)
    ensures ListedPaths(paths) == {} <==> paths == []
  {
    if paths != [] { assert paths[0] in ListedPaths(paths); }
  }
}
