/** IndexService::update as the source writes it: a method that mutates the database, the files of the data
    directory and the published handle. The ghost field `trace` records every state the object goes
    through; each method proves that its actions are steps of the machine of IndexCrash, so all
    results about runs apply to every sequence of calls. */
module IndexService {
  import opened Base
  import opened SqliteRepository
  import opened IndexUpdate
  import opened IndexMeaning
  import opened IndexCrash
  import opened IndexRuns
  import opened IndexCommitted
  import opened IndexAccepted
  import BruteForceIndex
  import IndexRebuild
  import Ranking
  import VectorFile

  datatype UpdateResult = UpdateResult(added: nat, changed: nat, removed: nat, kept: nat, embedded: nat,
      generation: nat)

  lemma {:induction false} ExtendRun(c: Config, run: seq<State>, s: State, kind: Kind)
    requires GoodConfig(c) && Behavior(c, run) && StepOf(c, run[|run| - 1], s, kind)
    ensures Behavior(c, run + [s])
  {
    var more := run + [s];
    forall i | 0 <= i < |more| - 1 ensures Next(c, more[i], more[i + 1]) {
      assert more[i] == run[i];
      if i < |run| - 1 { assert more[i + 1] == run[i + 1]; }
    }
  }

  /** Behavior as a value, so that a run known to be one is not examined again at every step. */
  ghost function Behaviors(c: Config): seq<State> -> bool
    requires GoodConfig(c)
  {
    (run: seq<State>) => Behavior(c, run)
  }

  // ---------------------------------------------------------------- what decides an update

  /** What may go wrong outside the program: the first such fault ends the update. */
  datatype Fault =
    | NoFault
    | AtClean(removed: nat)              // cleaning up, after that many removals if there are as many
    | AtOpen                             // opening the database
    | AtLoad                             // reading the database or the vector file
    | AtScan                             // walking or reading the repository
    | AtFile(file: VectorFile.FileFault) // writing the new vector file
    | AtReadBack                         // reading it back
    | AtBegin
    | AtStatement(index: nat)            // SQLite refuses a statement for a reason of its own
    | AtCommit

  /** The scan an update makes from what is on disk; None when a chunker or embedder call fails. */
  ghost function Scanned(c: Config, seen: Reading, repository: seq<File>): Option<Progress> {
    match seen.vectors
    case None => None
    case Some(v) => Scan(c.env, seen.view, v, repository, |repository|)
  }

  /** Nothing changed: the generation stays. */
  ghost predicate Keeps(seen: Reading, p: Progress, repository: seq<File>) {
    |p.replacements| == 0 && |Removed(seen.view, repository)| == 0 && seen.generation != Some(0)
  }

  /** The vectors fit the file format. */
  predicate VectorsWritable(c: Config, v: Vectors) {
    && (forall id :: id in v ==> |v[id]| == c.dimension)
    && |v| <= (U64_MODULUS - 1 - VectorFile.HEADER_BYTES) / VectorFile.RecordBytes(c.dimension)
  }

  /** The fault hits an operation of the write path. */
  predicate StrikesWrite(fault: Fault, statements: nat) {
    || (fault.AtFile? && !fault.file.NoFault?) || fault.AtReadBack? || fault.AtBegin?
    || (fault.AtStatement? && fault.index < statements) || fault.AtCommit?
  }

  /** The fault hits clean-up, opening, loading or scanning. */
  predicate StrikesEarly(fault: Fault) {
    fault.AtClean? || fault.AtOpen? || fault.AtLoad? || fault.AtScan?
  }

  /** The fault hits an operation the update performs. */
  predicate Strikes(fault: Fault, keeps: bool, statements: nat) {
    StrikesEarly(fault) || (!keeps && StrikesWrite(fault, statements))
  }

  /** The statements of the transaction: removals, replacements and six metadata entries. */
  ghost function Statements(seen: Reading, p: Progress, repository: seq<File>): nat {
    |Removed(seen.view, repository)| + |p.replacements| + 6
  }

  /** A scan with this result is carried out to the commit, or finds nothing to commit. */
  ghost predicate CompletesWith(c: Config, seen: Reading, repository: seq<File>, p: Progress, fault: Fault) {
    && (Keeps(seen, p, repository)
        || (VectorsWritable(c, FinalVectors(seen.view, p, repository)) && OwnIdsDistinct(p.replacements)))
    && !Strikes(fault, Keeps(seen, p, repository), Statements(seen, p, repository))
  }

  /** The update reaches its commit, or finds nothing to commit. */
  ghost predicate Completes(c: Config, seen: Reading, repository: seq<File>, fault: Fault) {
    Completing(c, seen, repository)(fault)
  }

  ghost function Completing(c: Config, seen: Reading, repository: seq<File>): Fault -> bool {
    (fault: Fault) =>
      match Scanned(c, seen, repository)
      case None => false
      case Some(p) => CompletesWith(c, seen, repository, p, fault)
  }

  /** What the disk shows after an update that completes. */
  ghost predicate Completed(c: Config, seen: Reading, repository: seq<File>, after: Reading)
    requires Scanned(c, seen, repository).Some?
  {
    Completions(c, seen, repository)(Scanned(c, seen, repository).value, after)
  }

  /** The new vectors, the generation kept or increased, and the tables of the scanned contents; a
      function value, so that the methods carry it as one fact. */
  ghost function Completions(c: Config, seen: Reading, repository: seq<File>): (Progress, Reading) -> bool {
    (p: Progress, after: Reading) =>
      && seen.generation.Some?
      && after.vectors == Some(FinalVectors(seen.view, p, repository))
      && after.generation == Some(seen.generation.value + if Keeps(seen, p, repository) then 0 else 1)
      && Coherent(c.env, after.view, FinalVectors(seen.view, p, repository), Contents(repository, |repository|))
  }

  /** Every new vector passes the tests of the snapshot. */
  ghost predicate Publishable(c: Config, seen: Reading, repository: seq<File>)
    requires Scanned(c, seen, repository).Some?
  {
    AllAccepted(c.dimension, FinalVectors(seen.view, Scanned(c, seen, repository).value, repository))
  }

  /** The plan an update makes from what is on disk. */
  ghost predicate PlanIs(c: Config, seen: Reading, repository: seq<File>, p: Plan) {
    PlansFor(c, seen, repository)(p)
  }

  /** The same as a function value, so that the methods carry it as one fact. */
  ghost function PlansFor(c: Config, seen: Reading, repository: seq<File>): Plan -> bool {
    (p: Plan) =>
      && p.files == repository && seen.generation == Some(p.generation)
      && Scanned(c, seen, repository) == Some(p.progress)
      && p.vectors == FinalVectors(seen.view, p.progress, repository)
      && ListedPaths(p.removals) == Removed(seen.view, repository) && |p.removals| == |Removed(seen.view, repository)|
      && DistinctRecords(p.records) && FromRecords(p.records) == p.vectors
  }

  lemma {:induction false} PlanDecides(c: Config, seen: Reading, repository: seq<File>, p: Plan, fault: Fault)
    requires PlanIs(c, seen, repository, p)
    ensures NothingToDo(p) <==> Keeps(seen, p.progress, repository)
    ensures Completes(c, seen, repository, fault) <==>
            && !StrikesEarly(fault)
            && (NothingToDo(p) || (VectorsWritable(c, p.vectors) && OwnIdsDistinct(p.progress.replacements)
                                   && !StrikesWrite(fault, |Script(c, p)|)))
  {
    NothingListed(p.removals);
  }

  lemma {:induction false} PlanPublishes(c: Config, seen: Reading, repository: seq<File>, p: Plan)
    requires PlanIs(c, seen, repository, p)
    ensures Publishable(c, seen, repository) <==> AllAccepted(c.dimension, p.vectors)
  {
  }

  function GenerationAfter(p: Plan): nat {
    if NothingToDo(p) then p.generation else p.generation + 1
  }

  /** The numbers an update reports. */
  function Summary(p: Plan): UpdateResult {
    UpdateResult(p.progress.added, p.progress.changed, |p.removals|, p.progress.kept, p.progress.embedded,
                 GenerationAfter(p))
  }

  /** Every file is counted once, as new, changed or unchanged, every removed document too, and embedded are
      the chunks of the new and changed files. */
  ghost predicate Reports(c: Config, seen: Reading, repository: seq<File>, after: Reading, r: UpdateResult) {
    && after.generation == Some(r.generation)
    && r.added == |Places(NewAt(seen.view, repository), |repository|)|
    && r.kept == |Places(UnchangedAt(c.env, seen.view, repository), |repository|)|
    && r.added + r.changed + r.kept == |repository|
    && r.removed == |Removed(seen.view, repository)|
    && r.embedded == |EmbeddedAt(c.env, seen.view, repository, |repository|)|
  }

  lemma {:induction false} PlanReports(c: Config, seen: Reading, repository: seq<File>, after: Reading, p: Plan)
    requires PlanIs(c, seen, repository, p) && after.generation == Some(GenerationAfter(p))
    ensures Reports(c, seen, repository, after, Summary(p))
  {
    CountersAddUp(c.env, seen.view, seen.vectors.value, repository, p.progress);
  }

  lemma {:induction false} CompletedGeneration(c: Config, seen: Reading, repository: seq<File>, p: Plan, after: Reading)
    requires PlanIs(c, seen, repository, p) && Completed(c, seen, repository, after)
    ensures after.generation == Some(GenerationAfter(p))
  {
    NothingListed(p.removals);
  }

  lemma {:induction false} CountersAddUp(env: Env, l: Logical, v: Vectors, files: seq<File>, p: Progress)
    requires Scan(env, l, v, files, |files|) == Some(p)
    ensures p.added == |Places(NewAt(l, files), |files|)| && p.kept == |Places(UnchangedAt(env, l, files), |files|)|
    ensures p.added + p.changed + p.kept == |files| && p.embedded == |EmbeddedAt(env, l, files, |files|)|
  {
    CountersExact(env, l, v, files, p);
    EmbeddedExactly(env, l, v, files, p);
  }

  lemma {:induction false} RecordsUniform(c: Config, rs: seq<VectorFile.StoredVector>)
    requires DistinctRecords(rs)
    ensures |FromRecords(rs)| == |rs|
    ensures VectorFile.Uniform(rs, c.dimension) <==>
        forall id :: id in FromRecords(rs) ==> |FromRecords(rs)[id]| == c.dimension
    decreases |rs|
  {
    if rs != [] {
      var init, last := rs[..|rs| - 1], rs[|rs| - 1];
      RecordsUniform(c, init);
      FromRecordsKeys(init);
      assert last.chunkId !in FromRecords(init);
      UniformLast(c, init, last);
      assert rs == init + [last];
      LengthsLast(c, FromRecords(init), last);
    }
  }

  lemma {:induction false} UniformLast(c: Config, init: seq<VectorFile.StoredVector>, last: VectorFile.StoredVector)
    ensures VectorFile.Uniform(init + [last], c.dimension) <==>
            VectorFile.Uniform(init, c.dimension) && |last.values| == c.dimension
  {
    var rs := init + [last];
    assert rs[|init|] == last && forall i :: 0 <= i < |init| ==> rs[i] == init[i];
  }

  lemma {:induction false} LengthsLast(c: Config, v: Vectors, last: VectorFile.StoredVector)
    requires last.chunkId !in v
    ensures var more := v[last.chunkId := last.values];
            && |more| == |v| + 1
            && ((forall id :: id in more ==> |more[id]| == c.dimension) <==>
                (forall id :: id in v ==> |v[id]| == c.dimension) && |last.values| == c.dimension)
  {
    var more := v[last.chunkId := last.values];
    assert more.Keys == v.Keys + {last.chunkId};
    assert more[last.chunkId] == last.values;
    assert forall id :: id in v ==> id in more && more[id] == v[id];
  }

  /** Which records are written in which order does not matter. */
  lemma {:induction false} WritableExactly(c: Config, rs: seq<VectorFile.StoredVector>)
    requires GoodConfig(c) && DistinctRecords(rs)
    ensures VectorFile.Writable(FileMetadata(c), rs) <==> VectorsWritable(c, FromRecords(rs))
  {
    RecordsUniform(c, rs);
  }

  /** After the commit the disk shows the planned vectors and the tables of the scanned contents. */
  lemma {:induction false} SwitchedDisk(c: Config, s: State, p: Plan)
    requires GoodConfig(c) && Inv(c, s) && s.process == Switched(p)
    ensures Visible(c, s.disk).vectors == Some(p.vectors)
    ensures Coherent(c.env, s.disk.db.view, p.vectors, Contents(p.files, |p.files|))
  {
  }

  lemma {:induction false} CompletedFrom(c: Config, seen: Reading, repository: seq<File>, p: Progress, v: Vectors,
                                         after: Reading)
    requires seen.generation.Some? && v == FinalVectors(seen.view, p, repository) && after.vectors == Some(v)
    requires after.generation == Some(seen.generation.value + if Keeps(seen, p, repository) then 0 else 1)
    requires Coherent(c.env, after.view, v, Contents(repository, |repository|))
    ensures Completions(c, seen, repository)(p, after)
  {
  }

  lemma {:induction false} CompletedByPlan(c: Config, seen: Reading, repository: seq<File>, p: Plan, after: Reading)
    requires PlanIs(c, seen, repository, p) && after.vectors == Some(p.vectors)
    requires after.generation == Some(GenerationAfter(p))
    requires Coherent(c.env, after.view, p.vectors, Contents(p.files, |p.files|))
    ensures Completed(c, seen, repository, after)
  {
    PlanDecides(c, seen, repository, p, NoFault);
    CompletedFrom(c, seen, repository, p.progress, p.vectors, after);
  }

  // ---------------------------------------------------------------- vectors that are not finite

  /** Whether a completed update can publish is decided by the embeddings of the scanned contents, and an
      embedder that answers only finite vectors of the dimension leaves nothing to decide. */
  lemma {:induction false} PublishableExactly(c: Config, seen: Reading, repository: seq<File>, after: Reading)
    requires Scanned(c, seen, repository).Some? && Completed(c, seen, repository, after)
    ensures Publishable(c, seen, repository) <==>
            ContentsAccepted(c.env, c.dimension, Contents(repository, |repository|))
    ensures AnswersAccepted(c.env, c.dimension) ==> Publishable(c, seen, repository)
  {
    var v := FinalVectors(seen.view, Scanned(c, seen, repository).value, repository);
    var m := Contents(repository, |repository|);
    assert Coherent(c.env, after.view, v, m);
    AcceptedExactly(c.env, c.dimension, after.view, v, m);
    if AnswersAccepted(c.env, c.dimension) { AnswersSuffice(c, after.view, v, m); }
  }

  /** The file format takes what the snapshot refuses. With an embedder that answers a vector that is not
      finite, the first update over a one-chunk file commits it and throws. */
  lemma {:induction false} NotFiniteIsCommitted(c: Config, files: map<FileName, seq<byte>>, f: File, chunk: Chunk,
                                                e: Embedding)
    requires GoodConfig(c) && |e| == c.dimension && !BruteForceIndex.Finite(e)
    requires c.env.chunk(f.path, f.content) == Some([chunk]) && c.env.embed([chunk.content]) == Some([e])
    ensures var seen := Visible(c, Disk(EMPTY_DATABASE, files));
            Completes(c, seen, [f], NoFault) && !Publishable(c, seen, [f])
  {
    var seen := Visible(c, Disk(EMPTY_DATABASE, files));
    var p := FirstScan(c, f, chunk, e);
    assert Scanned(c, seen, [f]) == Some(p);
    assert RemovedIds(seen.view, [f]) == {};
    MinusNothing(p.vectors, RemovedIds(seen.view, [f]));
    assert FinalVectors(seen.view, p, [f]) == p.vectors;
    OneVectorFits(c, chunk.id, e);
    assert chunk.id in p.vectors && !BruteForceIndex.Accepted(c.dimension, p.vectors[chunk.id]);
  }

  lemma {:induction false} FirstScan(c: Config, f: File, chunk: Chunk, e: Embedding) returns (p: Progress)
    requires c.env.chunk(f.path, f.content) == Some([chunk]) && c.env.embed([chunk.content]) == Some([e])
    ensures Scan(c.env, EMPTY_DATABASE.view, map[], [f], 1) == Some(p)
    ensures p.vectors == map[chunk.id := e] && OwnIdsDistinct(p.replacements) && |p.replacements| == 1
  {
    var x := Indexed([chunk], [e]);
    assert Texts([chunk]) == [chunk.content];
    assert IndexFile(c.env, f.path, f.content) == Some(x);
    assert InsertFirst(map[], x, 0) == map[];
    var start := Progress(map[], [], 0, 0, 0, 0);
    assert Scan(c.env, EMPTY_DATABASE.view, map[], [f], 0) == Some(start);
    p := ScanFile(c.env, EMPTY_DATABASE.view, start, f).value;
  }

  lemma {:induction false} OneVectorFits(c: Config, id: u64, e: Embedding)
    requires |e| == c.dimension
    ensures VectorsWritable(c, map[id := e])
  {
    var v: Vectors := map[id := e];
    assert v.Keys == {id} && |v| == 1;
    assert VectorFile.RecordBytes(c.dimension) <= U64_MODULUS - 1 - VectorFile.HEADER_BYTES;
  }

  /** The same at a not-a-number. */
  lemma {:induction false} NotANumberIsWritten(c: Config, files: map<FileName, seq<byte>>, f: File, chunk: Chunk)
    requires GoodConfig(c) && c.dimension == 1
    requires c.env.chunk(f.path, f.content) == Some([chunk])
    requires c.env.embed([chunk.content]) == Some([[0x7FC0_0000]])
    ensures var seen := Visible(c, Disk(EMPTY_DATABASE, files));
            Completes(c, seen, [f], NoFault) && !Publishable(c, seen, [f])
  {
    var e: Embedding := [0x7FC0_0000];
    assert 0x7FC0_0000 in e && !BruteForceIndex.FiniteBits(0x7FC0_0000);
    NotFiniteIsCommitted(c, files, f, chunk, e);
  }

  /** Once a vector the snapshot refuses is committed, every update over the same contents completes and
      throws. */
  lemma {:induction false} RefusedForever(c: Config, d: Disk, m: map<string, string>, repository: seq<File>)
    requires GoodConfig(c) && DiskComplete(c, d, m) && Visible(c, d).generation != Some(0)
    requires DistinctPaths(repository) && Contents(repository, |repository|) == m
    requires !AllAccepted(c.dimension, Visible(c, d).vectors.value)
    ensures Completes(c, Visible(c, d), repository, NoFault) && !Publishable(c, Visible(c, d), repository)
  {
    RefusedAgain(c, Visible(c, d), Visible(c, d).vectors.value, m, repository);
  }

  lemma {:induction false} RefusedAgain(c: Config, seen: Reading, v: Vectors, m: map<string, string>,
                                        repository: seq<File>)
    requires Coherent(c.env, seen.view, v, m) && seen.vectors == Some(v) && seen.generation != Some(0)
    requires DistinctPaths(repository) && Contents(repository, |repository|) == m && !AllAccepted(c.dimension, v)
    ensures Completes(c, seen, repository, NoFault) && !Publishable(c, seen, repository)
  {
    var p := Progress(v, [], 0, 0, |repository|, 0);
    assert AllUnchanged(c.env, seen.view, repository, |repository|) && Removed(seen.view, repository) == {} by {
      SameContents(c.env, seen.view, v, m, repository);
    }
    UnchangedScan(c.env, seen.view, v, repository, |repository|);
    assert Scanned(c, seen, repository) == Some(p);
    KeepsEverything(c, seen, repository, p);
  }

  lemma {:induction false} KeepsEverything(c: Config, seen: Reading, repository: seq<File>, p: Progress)
    requires p.replacements == [] && Removed(seen.view, repository) == {} && seen.generation != Some(0)
    ensures CompletesWith(c, seen, repository, p, NoFault) && FinalVectors(seen.view, p, repository) == p.vectors
  {
    assert RemovedIds(seen.view, repository) == {};
    MinusNothing(p.vectors, RemovedIds(seen.view, repository));
  }

  /** A repository with the committed contents has nothing new, changed or removed. */
  lemma {:induction false} SameContents(env: Env, l: Logical, v: Vectors, m: map<string, string>, repository: seq<File>)
    requires Coherent(env, l, v, m) && DistinctPaths(repository) && Contents(repository, |repository|) == m
    ensures AllUnchanged(env, l, repository, |repository|) && Removed(l, repository) == {}
        && RemovedIds(l, repository) == {}
  {
    forall i | 0 <= i < |repository| ensures Unchanged(env, l, repository[i]) {
      IndexRebuild.ContentsAt(repository, |repository|, i);
      assert DocumentCoherent(env, l, v, repository[i].path, m[repository[i].path]);
    }
    ContentsPaths(repository);
    assert Removed(l, repository) == {};
  }

  // ---------------------------------------------------------------- the snapshot

  /** The snapshot an update publishes: a fresh index, one upsert for each vector, in any order. */
  method BuildSnapshot(dimension: nat, dot: (Embedding, Embedding) -> real, vectors: Vectors)
    returns (r: Outcome<BruteForceIndex.Index>)
    requires dimension > 0
    ensures r.Returned? <==> AllAccepted(dimension, vectors)
    ensures r.Threw? ==> r.error == InvalidArgument
    ensures r.Returned? ==> fresh(r.value) && r.value.Valid() && r.value.Contents() == vectors
                            && r.value.dimension == dimension && r.value.dot == dot
  {
    var index := new BruteForceIndex.Index(dimension, dot);
    var left := vectors.Keys;
    while left != {}
      invariant left <= vectors.Keys && fresh(index) && index.Valid()
      invariant index.dimension == dimension && index.dot == dot
      invariant index.Contents() == vectors - left && AllAccepted(dimension, vectors - left)
      decreases left
    {
      var id :| id in left;
      var outcome := index.Upsert(id, vectors[id]);
      if outcome.Threw? {
        return Threw(InvalidArgument);
      }
      assert vectors - (left - {id}) == (vectors - left)[id := vectors[id]];
      left := left - {id};
    }
    assert vectors - left == vectors;
    r := Returned(index);
  }

  /** The vectors are the embeddings of the contents; a function value, so that it is carried as one fact. */
  ghost function EmbeddingsOf(env: Env, contents: map<string, string>): Option<Vectors> -> bool {
    (v: Option<Vectors>) => v.Some? && exists l :: Holds(env, l, v.value, contents)
  }

  /** Tables and vectors hold the contents; a function value for the same reason. */
  ghost function Holding(env: Env, contents: map<string, string>): Reading -> bool {
    (seen: Reading) => seen.vectors.Some? && Holds(env, seen.view, seen.vectors.value, contents)
  }

  /** The generation advances by one, unless there is one and nothing has changed. */
  ghost function Advancing(before: Reading, same: bool): Reading -> bool {
    (after: Reading) =>
      && before.generation.Some?
      && after.generation == Some(before.generation.value
                                  + if before.generation.value != 0 && same then 0 else 1)
  }

  /** What an update may tell its caller, from what it found, what it planned and what it left. */
  lemma {:induction false} UpdateTells(c: Config, seen: Reading, repository: seq<File>, fault: Fault, p: Plan,
                                       after: Reading, ok: bool)
    requires PlanIs(c, seen, repository, p)
    requires ok <==> Completes(c, seen, repository, fault) && Publishable(c, seen, repository)
    requires Completes(c, seen, repository, fault) ==> Completed(c, seen, repository, after)
    ensures Completes(c, seen, repository, fault) ==>
              && (ok <==> ContentsAccepted(c.env, c.dimension, Contents(repository, |repository|)))
              && (AnswersAccepted(c.env, c.dimension) ==> ok)
              && Holding(c.env, Contents(repository, |repository|))(after)
    ensures ok ==> Reports(c, seen, repository, after, Summary(p))
    ensures ok ==> EmbeddingsOf(c.env, Contents(repository, |repository|))(after.vectors)
    ensures ok ==> Embedded(c.env, after.vectors.value, Contents(repository, |repository|))
  {
    if Completes(c, seen, repository, fault) {
      PublishableExactly(c, seen, repository, after);
      CoherentMeans(c.env, after.view, after.vectors.value, Contents(repository, |repository|));
    }
    if ok {
      CoherentVectors(c.env, after.view, after.vectors.value, Contents(repository, |repository|));
      CompletedGeneration(c, seen, repository, p, after);
      PlanReports(c, seen, repository, after, p);
    }
  }

  /** When an update completes, whether there is a new generation is decided by the contents alone. */
  lemma {:induction false} GenerationAdvances(c: Config, d: Disk, m: map<string, string>, repository: seq<File>,
                                              p: Progress, after: Reading)
    requires GoodConfig(c) && DiskComplete(c, d, m) && DistinctPaths(repository) && AllOccur(c, repository)
    requires Scanned(c, Visible(c, d), repository) == Some(p) && Completed(c, Visible(c, d), repository, after)
    ensures Advancing(Visible(c, d), m == Contents(repository, |repository|))(after)
  {
    KeepsMeans(c, d, m, repository, p);
    AdvancesBy(c, Visible(c, d), repository, p, after, m == Contents(repository, |repository|));
  }

  lemma {:induction false} KeepsMeans(c: Config, d: Disk, m: map<string, string>, repository: seq<File>, p: Progress)
    requires GoodConfig(c) && DiskComplete(c, d, m) && DistinctPaths(repository) && AllOccur(c, repository)
    requires Scanned(c, Visible(c, d), repository) == Some(p)
    ensures Keeps(Visible(c, d), p, repository)
            <==> Visible(c, d).generation != Some(0) && m == Contents(repository, |repository|)
  {
    KeepsExactly(c, d, m, repository, p);
  }

  lemma {:induction false} AdvancesBy(c: Config, seen: Reading, repository: seq<File>, p: Progress, after: Reading,
                                      same: bool)
    requires Completions(c, seen, repository)(p, after)
    requires Keeps(seen, p, repository) <==> seen.generation != Some(0) && same
    ensures Advancing(seen, same)(after)
  {
  }

  /** `hits` lists the k best of the chunks of the contents, by the score of their embeddings. */
  ghost predicate AnswersFor(env: Env, contents: map<string, string>, dot: (Embedding, Embedding) -> real,
                             query: Embedding, k: nat, hits: seq<Ranking.Hit>) {
    exists l, v :: Holds(env, l, v, contents) && Ranking.IsTop(hits, BruteForceIndex.HitsOf(v, dot, query), k)
  }

  /** Contents and query determine the answer, whatever updates led to the contents. */
  lemma {:induction false} AnswersAreUnique(env: Env, contents: map<string, string>, query: Embedding, k: nat,
                                            dot: (Embedding, Embedding) -> real, hits: seq<Ranking.Hit>,
                                            hits': seq<Ranking.Hit>)
    requires AnswersFor(env, contents, dot, query, k, hits) && AnswersFor(env, contents, dot, query, k, hits')
    ensures hits == hits'
  {
    var l, v :| Holds(env, l, v, contents) && Ranking.IsTop(hits, BruteForceIndex.HitsOf(v, dot, query), k);
    var l', v' :| Holds(env, l', v', contents) && Ranking.IsTop(hits', BruteForceIndex.HitsOf(v', dot, query), k);
    CoherentMeans(env, l, v, contents);
    CoherentMeans(env, l', v', contents);
    CoherentIsUnique(env, l, v, l', v', contents);
    Ranking.TopIsUnique(hits, hits', BruteForceIndex.HitsOf(v, dot, query), k);
  }

  /** The hit of some chunk of the file: its id, and the score of the embedding the embedder answers for it. */
  ghost predicate HitOf(env: Env, path: string, content: string, dot: (Embedding, Embedding) -> real,
                        query: Embedding, h: Ranking.Hit) {
    match env.chunk(path, content)
    case None => false
    case Some(chunks) =>
      match env.embed(Texts(chunks))
      case None => false
      case Some(es) =>
        exists i :: 0 <= i < |chunks| && i < |es| && chunks[i].id == h.id && dot(query, es[i]) == h.score
  }

  /** Every hit is a chunk of some file of the contents. */
  ghost predicate FromContents(env: Env, contents: map<string, string>, dot: (Embedding, Embedding) -> real,
                               query: Embedding, hits: seq<Ranking.Hit>) {
    forall h :: h in hits ==> exists path :: path in contents && HitOf(env, path, contents[path], dot, query, h)
  }

  /** Higher scores first, equal ones by ascending id. */
  predicate InOrder(hits: seq<Ranking.Hit>) {
    forall i, j :: 0 <= i < j < |hits| ==>
      hits[i].score > hits[j].score || (hits[i].score == hits[j].score && hits[i].id < hits[j].id)
  }

  /** A chunk of the contents is left out only when k are listed that come before it. */
  ghost predicate OthersBehind(env: Env, contents: map<string, string>, dot: (Embedding, Embedding) -> real,
                               query: Embedding, k: nat, hits: seq<Ranking.Hit>) {
    forall path, h :: path in contents && HitOf(env, path, contents[path], dot, query, h) && h !in hits ==>
      |hits| == k && forall t :: t in hits ==> t.score > h.score || (t.score == h.score && t.id < h.id)
  }

  /** What an answer is, chunk by chunk: every hit is a chunk of some file of the contents and scores the query
      against the embedding the embedder answers for that chunk, better hits come first, and no chunk that is
      left out would come before one that is listed; at most k are listed, and fewer only when there are no more. */
  lemma {:induction false} AnswersMean(env: Env, contents: map<string, string>, query: Embedding, k: nat,
                                       dot: (Embedding, Embedding) -> real, hits: seq<Ranking.Hit>)
    requires AnswersFor(env, contents, dot, query, k, hits)
    ensures |hits| <= k && InOrder(hits) && FromContents(env, contents, dot, query, hits)
    ensures OthersBehind(env, contents, dot, query, k, hits)
  {
    var l, v :| Holds(env, l, v, contents) && Ranking.IsTop(hits, BruteForceIndex.HitsOf(v, dot, query), k);
    HoldsVectors(env, l, v, contents);
    TopInOrder(v, dot, query, k, hits);
    ListedHaveFiles(env, v, contents, dot, query, k, hits);
    LeftOutComesBehind(env, v, contents, dot, query, k, hits);
  }

  lemma {:induction false} TopInOrder(v: Vectors, dot: (Embedding, Embedding) -> real, query: Embedding, k: nat,
                                      hits: seq<Ranking.Hit>)
    requires Ranking.IsTop(hits, BruteForceIndex.HitsOf(v, dot, query), k)
    ensures |hits| <= k && InOrder(hits)
  {
    BruteForceIndex.AnswerMeans(v, dot, query, k, hits);
  }

  lemma {:induction false} ListedHaveFiles(env: Env, v: Vectors, contents: map<string, string>,
                                           dot: (Embedding, Embedding) -> real, query: Embedding, k: nat,
                                           hits: seq<Ranking.Hit>)
    requires Embedded(env, v, contents) && Ranking.IsTop(hits, BruteForceIndex.HitsOf(v, dot, query), k)
    ensures FromContents(env, contents, dot, query, hits)
  {
    BruteForceIndex.AnswerMeans(v, dot, query, k, hits);
    forall h | h in hits ensures exists path :: path in contents && HitOf(env, path, contents[path], dot, query, h) {
      HitHasFile(env, v, contents, dot, query, h);
    }
  }

  lemma {:induction false} LeftOutComesBehind(env: Env, v: Vectors, contents: map<string, string>,
                                              dot: (Embedding, Embedding) -> real, query: Embedding, k: nat,
                                              hits: seq<Ranking.Hit>)
    requires Embedded(env, v, contents) && Ranking.IsTop(hits, BruteForceIndex.HitsOf(v, dot, query), k)
    ensures OthersBehind(env, contents, dot, query, k, hits)
  {
    forall path, h | path in contents && HitOf(env, path, contents[path], dot, query, h) && h !in hits
      ensures |hits| == k && forall t :: t in hits ==> t.score > h.score || (t.score == h.score && t.id < h.id)
    {
      HitIsStored(env, v, contents, path, dot, query, h);
      NotListed(v, dot, query, k, hits, h);
    }
  }

  lemma {:induction false} HitHasFile(env: Env, v: Vectors, contents: map<string, string>,
                                      dot: (Embedding, Embedding) -> real, query: Embedding, h: Ranking.Hit)
    requires Embedded(env, v, contents) && h.id in v && h.score == dot(query, v[h.id])
    ensures exists path :: path in contents && HitOf(env, path, contents[path], dot, query, h)
  {
    var path :| path in contents && ChunkOfFile(env, path, contents[path], h.id);
    assert FileEmbedded(env, v, path, contents[path]);
    assert HitOf(env, path, contents[path], dot, query, h);
  }

  lemma {:induction false} HitIsStored(env: Env, v: Vectors, contents: map<string, string>, path: string,
                                       dot: (Embedding, Embedding) -> real, query: Embedding, h: Ranking.Hit)
    requires Embedded(env, v, contents) && path in contents && HitOf(env, path, contents[path], dot, query, h)
    ensures h.id in v && h.score == dot(query, v[h.id])
  {
    assert FileEmbedded(env, v, path, contents[path]);
  }

  lemma {:induction false} NotListed(v: Vectors, dot: (Embedding, Embedding) -> real, query: Embedding, k: nat,
                                     hits: seq<Ranking.Hit>, h: Ranking.Hit)
    requires Ranking.IsTop(hits, BruteForceIndex.HitsOf(v, dot, query), k)
    requires h.id in v && h.score == dot(query, v[h.id]) && h !in hits
    ensures |hits| == k && forall t :: t in hits ==> t.score > h.score || (t.score == h.score && t.id < h.id)
  {
    BruteForceIndex.AnswerMeans(v, dot, query, k, hits);
    forall t | t in hits ensures t.id != h.id { assert t.id == h.id ==> t == h; }
    if |hits| < k {
      AllListed(v, hits, h.id);
    }
  }

  /** As many hits with different ids as there are ids leave none out. */
  lemma {:induction false} AllListed(v: Vectors, hits: seq<Ranking.Hit>, id: u64)
    requires |hits| == |v| && (forall h :: h in hits ==> h.id in v)
    requires forall i, j :: 0 <= i < j < |hits| ==> hits[i].id != hits[j].id
    requires id in v
    ensures exists h :: h in hits && h.id == id
  {
    var listed := set i | 0 <= i < |hits| :: hits[i].id;
    ListedSize(hits, listed);
    if id !in listed {
      assert listed <= v.Keys - {id};
      SubsetSize(listed, v.Keys - {id});
      assert false;
    }
  }

  lemma {:induction false} ListedSize(hits: seq<Ranking.Hit>, listed: set<u64>)
    requires forall i, j :: 0 <= i < j < |hits| ==> hits[i].id != hits[j].id
    requires listed == set i | 0 <= i < |hits| :: hits[i].id
    ensures |listed| == |hits|
    decreases |hits|
  {
    if hits != [] {
      var init := hits[..|hits| - 1];
      var less := set i | 0 <= i < |init| :: init[i].id;
      ListedSize(init, less);
      var last := hits[|hits| - 1].id;
      assert last !in less;
      assert listed == less + {last} by {
        forall id | id in listed ensures id in less + {last} {
          var i :| 0 <= i < |hits| && hits[i].id == id;
          if i < |init| { assert init[i].id == id; }
        }
      }
    }
  }

  lemma {:induction false} QuietInRun(c: Config, run: seq<State>, s: State, kind: Kind)
    requires GoodConfig(c) && Behavior(c, run) && StepOf(c, run[|run| - 1], s, kind) && kind != Commits
    ensures Visible(c, s.disk) == Visible(c, run[|run| - 1].disk)
  {
    RunInvariant(c, run, |run| - 1);
    WritingGeneration(c, run[|run| - 1]);
    QuietStep(c, run[|run| - 1], s, kind);
  }

  function Temporary(files: map<FileName, seq<byte>>): set<FileName> {
    set f | f in files && HasTmpExtension(f)
  }

  function Excess(a: nat, b: nat): nat {
    if a <= b then 0 else a - b
  }

  /** Nothing is new or changed, and only temporary files are missing. */
  predicate OnlyTemporaryGone(before: map<FileName, seq<byte>>, after: map<FileName, seq<byte>>) {
    && (forall f :: f in after ==> f in before && after[f] == before[f])
    && (forall f :: f in before && (f.VectorsBin? || f.Other?) ==> f in after)
  }

  class Service {
    const c: Config
    const dot: (Embedding, Embedding) -> real
    var db: Database
    var files: map<FileName, seq<byte>>
    var snapshot: Option<BruteForceIndex.Index>
    ghost var handle: Option<Vectors>
    ghost var process: Process
    ghost var committed: map<string, string>
    ghost var trace: seq<State>

    ghost function View(): State
      reads this
    {
      State(Disk(db, files), process, handle, committed)
    }

    ghost predicate Valid()
      reads this
    {
      GoodConfig(c) && Behaviors(c)(trace) && |trace| > 0 && trace[|trace| - 1] == View()
    }

    /** The published index holds the published vectors. */
    ghost predicate Serving()
      reads `snapshot, `handle, if snapshot.Some? then {snapshot.value} else {}
    {
      match snapshot
      case None => handle.None?
      case Some(index) => index.Valid() && index.dimension == c.dimension && index.dot == dot
                          && handle == Some(index.Contents())
    }

    /** The published vectors are the embeddings of these contents. */
    ghost predicate Serves(contents: map<string, string>)
      reads `handle
    {
      EmbeddingsOf(c.env, contents)(handle)
    }

    /** What a reader of the disk sees now. */
    ghost function Seen(): Reading
      requires GoodConfig(c)
      reads this
    {
      Visible(c, Disk(db, files))
    }

    constructor (config: Config, dot: (Embedding, Embedding) -> real, stray: map<FileName, seq<byte>>)
      requires GoodConfig(config)
      ensures Valid() && Serving() && c == config && this.dot == dot
      ensures process.Idle? && db == EMPTY_DATABASE && files == stray && snapshot == None
    {
      c, this.dot, db, files, snapshot, handle := config, dot, EMPTY_DATABASE, stray, None, None;
      process, committed := Idle, map[];
      trace := [State(Disk(EMPTY_DATABASE, stray), Idle, None, map[])];
    }

    /** Records the current state as the next one of the run; only a commit changes what is seen. */
    ghost method Record(before: State, kind: Kind)
      requires GoodConfig(c) && Behaviors(c)(trace) && |trace| > 0 && trace[|trace| - 1] == before
      requires StepOf(c, before, View(), kind)
      modifies `trace
      ensures Valid() && trace == old(trace) + [View()]
      ensures kind != Commits ==> Seen() == Visible(c, before.disk)
    {
      if kind != Commits {
        QuietInRun(c, trace, View(), kind);
      }
      ExtendRun(c, trace, View(), kind);
      trace := trace + [View()];
    }

    /** The invariant of the machine, for the state the object is in. */
    lemma {:induction false} NowInv()
      requires Valid()
      ensures Inv(c, View())
    {
      RunInvariant(c, trace, |trace| - 1);
    }

    /** An exception leaves the update; an open transaction is rolled back. */
    method Throw() returns (r: Outcome<UpdateResult>)
      requires Valid() && !process.Idle?
      modifies `process, `trace
      ensures Valid() && process.Idle? && old(trace) <= trace && r == Threw(RuntimeError)
    {
      ghost var before := View();
      process := Idle;
      Record(before, Aborts);
      r := Threw(RuntimeError);
    }

    // -------------------------------------------------------------- before the first durable write

    method Enter(repository: seq<File>)
      requires Valid() && process.Idle? && DistinctPaths(repository) && AllOccur(c, repository)
      modifies `process, `trace
      ensures Valid() && process == Cleaning(repository) && old(trace) <= trace
    {
      ghost var before := View();
      process := Cleaning(repository);
      Record(before, Starts);
    }

    method RemoveOne(f: FileName)
      requires Valid() && process.Cleaning? && f in files && HasTmpExtension(f)
      modifies `files, `trace
      ensures Valid() && files == old(files) - {f} && old(trace) <= trace && Seen() == old(Seen())
    {
      ghost var before := View();
      files := files - {f};
      Record(before, Removes);
    }

    method OpenTablesNow()
      requires Valid() && process.Cleaning? && forall f :: f in files ==> !HasTmpExtension(f)
      modifies `db, `process, `trace
      ensures Valid() && process == Opened(old(process.files)) && old(trace) <= trace
      ensures db == OpenDatabase(old(db)) && Seen() == old(Seen())
    {
      ghost var before := View();
      db := OpenDatabase(db);
      process := Opened(process.files);
      Record(before, Opens);
    }

    /** The first `limit` removals of temporary files, in directory order. */
    method RemoveTemporary(limit: nat)
      requires Valid() && process.Cleaning?
      modifies `files, `trace
      ensures Valid() && old(trace) <= trace && Seen() == old(Seen()) && OnlyTemporaryGone(old(files), files)
      ensures |Temporary(files)| == |Temporary(old(files))| - Min(limit, |Temporary(old(files))|)
    {
      var left, removed := Temporary(files), 0;
      while left != {} && removed < limit
        invariant left == Temporary(files) && removed <= limit && |left| + removed == |Temporary(old(files))|
        invariant Valid() && process.Cleaning? && old(trace) <= trace && Seen() == old(Seen())
        invariant OnlyTemporaryGone(old(files), files)
        decreases left
      {
        var f :| f in left;
        RemoveOne(f);
        left, removed := left - {f}, removed + 1;
      }
    }

    /** Removes left-over temporary files and opens the database. */
    method CleanAndOpen(repository: seq<File>, fault: Fault) returns (ok: bool)
      requires Valid() && process.Idle? && DistinctPaths(repository) && AllOccur(c, repository)
      modifies `files, `db, `process, `trace
      ensures Valid() && old(trace) <= trace && Seen() == old(Seen()) && !process.Idle?
      ensures ok <==> !fault.AtClean? && !fault.AtOpen?
      ensures ok ==> process == Opened(repository) && db == OpenDatabase(old(db))
      ensures OnlyTemporaryGone(old(files), files)
      ensures ok ==> forall f :: f in files ==> f.VectorsBin? || f.Other?
      ensures |Temporary(files)| == if fault.AtClean? then Excess(|Temporary(old(files))|, fault.removed) else 0
    {
      Enter(repository);
      ghost var entered := trace;
      var limit := if fault.AtClean? then fault.removed else |Temporary(files)|;
      RemoveTemporary(limit);
      Longer(old(trace), entered, trace);
      if fault.AtClean? || fault.AtOpen? {
        return false;
      }
      ghost var cleaned := trace;
      assert Temporary(files) == {};
      assert forall f :: f in files && HasTmpExtension(f) ==> f in Temporary(files);
      OpenTablesNow();
      Longer(old(trace), cleaned, trace);
      return true;
    }

    /** The model and dimension checks and the read of the committed vector file. */
    method Load() returns (r: Outcome<Vectors>)
      requires GoodConfig(c)
      ensures r.Returned? <==> ModelMatches(c, db) && GenerationOf(db).Some?
                               && LoadVectors(c, files, GenerationOf(db).value).Some?
      ensures r.Returned? ==> r.value == LoadVectors(c, files, GenerationOf(db).value).value
    {
      if !ModelMatches(c, db) {
        return Threw(RuntimeError);
      }
      var generation := GenerationOf(db);
      if generation.None? {
        return Threw(RuntimeError);
      }
      if generation.value == 0 {
        return Returned(map[]);
      }
      if VectorsBin(generation.value) !in files {
        return Threw(RuntimeError);
      }
      var loaded := VectorFile.Parse(files[VectorsBin(generation.value)]);
      if loaded.None? || loaded.value.metadata != FileMetadata(c) {
        return Threw(RuntimeError);
      }
      return Returned(FromRecords(loaded.value.records));
    }

    /** Load, scan and diff: everything before the first durable write. Model, dimension and vector file
        always match, so it fails exactly on a fault or when a chunker or embedder call does. */
    method Prepare(repository: seq<File>, fault: Fault) returns (r: Option<Plan>)
      requires Valid() && process == Opened(repository) && DistinctPaths(repository)
      modifies `process, `trace
      ensures Valid() && old(trace) <= trace && !process.Idle?
      ensures r.Some? <==> !fault.AtLoad? && !fault.AtScan? && Scanned(c, Seen(), repository).Some?
      ensures r.Some? ==> process == Planned(r.value) && PlanIs(c, Seen(), repository, r.value)
    {
      NowInv();
      if fault.AtLoad? {
        return None;
      }
      var loaded := Load();
      if fault.AtScan? {
        return None;
      }
      var progress := IndexRebuild.ScanFiles(c.env, db.view, loaded.value, repository);
      if progress.None? {
        return None;
      }
      r := MakePlanNow(repository, loaded.value, progress.value);
    }

    /** Drops the removed documents and fixes the plan. */
    method MakePlanNow(repository: seq<File>, loaded: Vectors, progress: Progress) returns (r: Option<Plan>)
      requires Valid() && process == Opened(repository) && DistinctPaths(repository)
      requires ModelMatches(c, db) && Seen().generation.Some? && Seen().vectors == Some(loaded)
      requires Scan(c.env, db.view, loaded, repository, |repository|) == Some(progress)
      modifies `process, `trace
      ensures Valid() && old(trace) <= trace
      ensures r.Some? && process == Planned(r.value) && PlanIs(c, Seen(), repository, r.value)
    {
      var vectors, removals, removed :=
        IndexRebuild.DropRemoved(db.view, progress.vectors, repository, PathSet(repository));
      var records := ToRecords(vectors);
      var plan := Plan(repository, GenerationOf(db).value, progress, vectors, removals, records);
      ghost var before := View();
      process := Planned(plan);
      assert PlanFrom(c, before.disk, plan);
      Record(before, Plans);
      return Some(plan);
    }

    // -------------------------------------------------------------- the vector file

    method CreateTmpNow(p: Plan)
      requires Valid() && process == Planned(p) && !NothingToDo(p)
      modifies `files, `process, `trace
      ensures Valid() && old(trace) <= trace && process == Writing(p) && Seen() == old(Seen())
      ensures files == old(files)[VectorsTmp(p.generation + 1) := []]
    {
      ghost var before := View();
      files := files[VectorsTmp(p.generation + 1) := []];
      process := Writing(p);
      Record(before, Creates);
    }

    method FillTmp(p: Plan, bytes: seq<byte>)
      requires Valid() && process == Writing(p) && bytes <= Stream(c, p)
      modifies `files, `trace
      ensures Valid() && old(trace) <= trace && Seen() == old(Seen())
      ensures files == old(files)[VectorsTmp(p.generation + 1) := bytes]
    {
      ghost var before := View();
      files := files[VectorsTmp(p.generation + 1) := bytes];
      assert bytes == Stream(c, p)[..|bytes|];
      Record(before, Writes);
    }

    method RenameNow(p: Plan)
      requires Valid() && process == Writing(p) && VectorFile.Writable(FileMetadata(c), p.records)
      requires VectorsTmp(p.generation + 1) in files && files[VectorsTmp(p.generation + 1)] == Stream(c, p)
      modifies `files, `process, `trace
      ensures Valid() && old(trace) <= trace && process == Renamed(p) && Seen() == old(Seen())
      ensures VectorsBin(p.generation + 1) in files && files[VectorsBin(p.generation + 1)] == Stream(c, p)
    {
      var tmp, bin := VectorsTmp(p.generation + 1), VectorsBin(p.generation + 1);
      ghost var before := View();
      files := (files - {tmp})[bin := files[tmp]];
      process := Renamed(p);
      Record(before, Renames);
    }

    /** write_atomic: temporary file, then rename. A failed write leaves a partial temporary file. */
    method WriteVectors(p: Plan, fault: VectorFile.FileFault) returns (ok: bool)
      requires Valid() && process == Planned(p) && !NothingToDo(p)
      modifies `files, `process, `trace
      ensures Valid() && old(trace) <= trace && Seen() == old(Seen()) && !process.Idle?
      ensures ok <==> VectorFile.Writable(FileMetadata(c), p.records) && fault.NoFault?
      ensures ok ==> process == Renamed(p) && VectorsBin(p.generation + 1) in files
                     && files[VectorsBin(p.generation + 1)] == Stream(c, p)
    {
      var outcome, left := VectorFile.WriteAtomic(FileMetadata(c), p.records, fault);
      if left.None? {
        return false;
      }
      CreateTmpNow(p);
      FillTmp(p, left.value);
      if outcome.Threw? {
        return false;
      }
      RenameNow(p);
      return true;
    }

    // -------------------------------------------------------------- the transaction

    method BeginNow(p: Plan)
      requires Valid() && process == Renamed(p) && VectorsBin(p.generation + 1) in files
      requires VectorFile.Parse(files[VectorsBin(p.generation + 1)]).Some?
      modifies `process, `trace
      ensures Valid() && old(trace) <= trace && process == InTransaction(p, db, 0)
    {
      ghost var before := View();
      process := InTransaction(p, db, 0);
      Record(before, Begins);
    }

    /** One statement of the open transaction. */
    method RunOne(p: Plan, working: Database, done: nat) returns (next: Option<Database>)
      requires Valid() && process == InTransaction(p, working, done) && done < |Script(c, p)|
      requires ApplyAll(db, Script(c, p)[..done]) == Some(working)
      modifies `process, `trace
      ensures Valid() && old(trace) <= trace && next == ApplyAll(db, Script(c, p)[..done + 1])
      ensures process == if next.Some? then InTransaction(p, next.value, done + 1) else old(process)
    {
      NextPrefix(db, Script(c, p), done, working);
      next := Apply(working, Script(c, p)[done]);
      if next.Some? {
        ghost var before := View();
        process := InTransaction(p, next.value, done + 1);
        Record(before, Executes);
      }
    }

    /** The first `limit` statements. */
    method RunStatements(p: Plan, limit: nat) returns (result: Option<Database>)
      requires Valid() && process == InTransaction(p, db, 0) && limit <= |Script(c, p)|
      modifies `process, `trace
      ensures Valid() && old(trace) <= trace && process.InTransaction?
      ensures result == ApplyAll(db, Script(c, p)[..limit])
      ensures result.Some? ==> process == InTransaction(p, result.value, limit)
    {
      var script, working := Script(c, p), db;
      var done := 0;
      assert script[..0] == [];
      while done < limit
        invariant 0 <= done <= limit
        invariant Valid() && old(trace) <= trace && process == InTransaction(p, working, done)
        invariant ApplyAll(db, script[..done]) == Some(working)
      {
        var next := RunOne(p, working, done);
        if next.None? {
          ApplyAllFails(db, script, done + 1, limit);
          return None;
        }
        working, done := next.value, done + 1;
      }
      return Some(working);
    }

    method CommitNow(p: Plan, working: Database)
      requires Valid() && process == InTransaction(p, working, |Script(c, p)|)
      modifies `db, `process, `committed, `trace
      ensures Valid() && old(trace) <= trace && process == Switched(p) && db == working
      ensures committed == Contents(p.files, |p.files|)
    {
      ghost var before := View();
      db := working;
      process, committed := Switched(p), Contents(p.files, |p.files|);
      Record(before, Commits);
    }

    /** The transaction: statements one by one, then the commit. */
    method RunTransaction(p: Plan, fault: Fault) returns (ok: bool)
      requires Valid() && process == Renamed(p) && VectorsBin(p.generation + 1) in files
      requires VectorFile.Parse(files[VectorsBin(p.generation + 1)]).Some?
      modifies `db, `process, `committed, `trace
      ensures Valid() && old(trace) <= trace && !process.Idle?
      ensures ok <==> ApplyAll(old(db), Script(c, p)).Some? && !fault.AtBegin? && !fault.AtCommit?
                      && !(fault.AtStatement? && fault.index < |Script(c, p)|)
      ensures ok ==> process == Switched(p) && db == ApplyAll(old(db), Script(c, p)).value
                     && committed == Contents(p.files, |p.files|)
      ensures !ok ==> db == old(db) && committed == old(committed)
    {
      if fault.AtBegin? {
        return false;
      }
      BeginNow(p);
      var all := |Script(c, p)|;
      assert Script(c, p)[..all] == Script(c, p);
      var limit := if fault.AtStatement? then Min(fault.index, all) else all;
      var working := RunStatements(p, limit);
      if working.None? {
        ApplyAllFails(db, Script(c, p), limit, all);
        return false;
      }
      if limit < all || fault.AtCommit? {
        return false;
      }
      CommitNow(p, working.value);
      return true;
    }

    // -------------------------------------------------------------- the whole update

    /** The vectors are on disk; the rest of the write path. */
    method Transact(p: Plan, fault: Fault) returns (ok: bool)
      requires Valid() && process == Renamed(p)
      requires VectorsBin(p.generation + 1) in files && files[VectorsBin(p.generation + 1)] == Stream(c, p)
      modifies `db, `process, `committed, `trace
      ensures Valid() && old(trace) <= trace && !process.Idle?
      ensures ok <==> Storable(EraseAll(old(db).view, p.removals), p.progress.replacements)
                      && !(fault.AtReadBack? || fault.AtBegin? || fault.AtCommit?
                           || (fault.AtStatement? && fault.index < |Script(c, p)|))
      ensures ok ==> process == Switched(p) && committed == Contents(p.files, |p.files|)
      ensures ok ==> db.view == ReplaceAll(EraseAll(old(db).view, p.removals), p.progress.replacements)
      ensures ok ==> GenerationOf(db) == Some(p.generation + 1)
                     && LoadVectors(c, files, p.generation + 1) == Some(p.vectors)
      ensures !ok ==> db == old(db) && committed == old(committed)
    {
      NowInv();
      NewFileLoads(c, Disk(db, files), p);
      if fault.AtReadBack? {
        return false;
      }
      ghost var outcome := ScriptResult(c, db, p);
      ok := RunTransaction(p, fault);
    }

    /** What decides the write path does not depend on the order of the maps. */
    lemma {:induction false} PlanStores(p: Plan)
      requires Valid() && process == Planned(p)
      ensures Storable(EraseAll(db.view, p.removals), p.progress.replacements) <==>
          OwnIdsDistinct(p.progress.replacements)
      ensures VectorFile.Writable(FileMetadata(c), p.records) <==> VectorsWritable(c, p.vectors)
    {
      NowInv();
      StorableExactly(c, Disk(db, files), committed, p);
      WritableExactly(c, p.records);
    }

    /** The write path of an update whose plan has something to do. */
    method Switch(p: Plan, fault: Fault) returns (ok: bool)
      requires Valid() && process == Planned(p) && !NothingToDo(p)
      modifies `db, `files, `process, `committed, `trace
      ensures Valid() && old(trace) <= trace && !process.Idle?
      ensures ok <==> VectorsWritable(c, p.vectors) && OwnIdsDistinct(p.progress.replacements)
                      && !StrikesWrite(fault, |Script(c, p)|)
      ensures ok ==> process == Switched(p) && committed == Contents(p.files, |p.files|)
      ensures ok ==> db.view == ReplaceAll(EraseAll(old(db).view, p.removals), p.progress.replacements)
      ensures ok ==> GenerationOf(db) == Some(p.generation + 1)
                     && LoadVectors(c, files, p.generation + 1) == Some(p.vectors)
      ensures !ok ==> Seen() == old(Seen()) && committed == old(committed)
    {
      PlanStores(p);
      ok := WriteVectors(p, if fault.AtFile? then fault.file else VectorFile.NoFault);
      if ok {
        ok := Transact(p, fault);
      }
    }

    /** Nothing changed: no durable write. */
    method KeepGeneration(p: Plan)
      requires Valid() && process == Planned(p) && NothingToDo(p)
      modifies `process, `committed, `trace
      ensures Valid() && old(trace) <= trace && process == Switched(p) && Seen() == old(Seen())
      ensures committed == Contents(p.files, |p.files|)
    {
      ghost var before := View();
      process, committed := Switched(p), Contents(p.files, |p.files|);
      Record(before, Skips);
    }

    /** Builds the snapshot from the planned vectors and publishes it; an upsert that throws ends the
        update after its commit. */
    method PublishSnapshot(p: Plan) returns (ok: bool)
      requires Valid() && process == Switched(p)
      modifies `snapshot, `handle, `process, `trace
      ensures Valid() && old(trace) <= trace && Seen() == old(Seen())
      ensures ok <==> AllAccepted(c.dimension, p.vectors)
      ensures ok ==> process.Idle? && handle == Some(p.vectors) && Serving()
      ensures !ok ==> process == old(process) && handle == old(handle) && snapshot == old(snapshot)
    {
      var built := BuildSnapshot(c.dimension, dot, p.vectors);
      if built.Threw? {
        return false;
      }
      ghost var before := View();
      snapshot, handle := Some(built.value), Some(p.vectors);
      process := Idle;
      Record(before, Publishes);
      return true;
    }

    /** Carries a plan out up to the commit. */
    method Carry(p: Plan, fault: Fault, ghost seen: Reading, ghost repository: seq<File>) returns (ok: bool)
      requires Valid() && process == Planned(p) && Seen() == seen && PlanIs(c, seen, repository, p)
      requires !StrikesEarly(fault)
      modifies `db, `files, `process, `committed, `trace
      ensures Valid() && old(trace) <= trace && !process.Idle?
      ensures ok <==> Completes(c, seen, repository, fault)
      ensures ok ==> process == Switched(p) && committed == Contents(repository, |repository|)
                     && Completed(c, seen, repository, Seen())
      ensures !ok ==> Seen() == seen && committed == old(committed)
    {
      PlanDecides(c, seen, repository, p, fault);
      var generation := CarryOut(p, fault);
      ok := generation.Some?;
      if ok {
        SwitchedNow(p);
        CompletedByPlan(c, seen, repository, p, Seen());
      }
    }

    /** The branch on whether there is anything to do. */
    method CarryOut(p: Plan, fault: Fault) returns (generation: Option<nat>)
      requires Valid() && process == Planned(p) && GenerationOf(db) == Some(p.generation)
      modifies `db, `files, `process, `committed, `trace
      ensures Valid() && old(trace) <= trace && !process.Idle?
      ensures generation.Some? <==> NothingToDo(p)
                                    || (VectorsWritable(c, p.vectors) && OwnIdsDistinct(p.progress.replacements)
                                        && !StrikesWrite(fault, |Script(c, p)|))
      ensures generation.Some? ==> process == Switched(p) && committed == Contents(p.files, |p.files|)
                                   && GenerationOf(db) == generation && generation.value == GenerationAfter(p)
      ensures generation.None? ==> Seen() == old(Seen()) && committed == old(committed)
    {
      if NothingToDo(p) {
        KeepGeneration(p);
        return Some(p.generation);
      }
      var ok := Switch(p, fault);
      return if ok then Some(p.generation + 1) else None;
    }

    lemma {:induction false} SwitchedNow(p: Plan)
      requires Valid() && process == Switched(p)
      ensures Seen().vectors == Some(p.vectors)
      ensures Coherent(c.env, Seen().view, p.vectors, Contents(p.files, |p.files|))
    {
      NowInv();
      SwitchedDisk(c, View(), p);
    }

    /** Everything before the first durable change: a plan, or a reason to throw. */
    method Diff(repository: seq<File>, fault: Fault) returns (r: Option<Plan>)
      requires Valid() && process.Idle? && DistinctPaths(repository) && AllOccur(c, repository)
      modifies `files, `db, `process, `trace
      ensures Valid() && old(trace) <= trace && Seen() == old(Seen()) && !process.Idle?
      ensures r.Some? <==> !StrikesEarly(fault) && Scanned(c, old(Seen()), repository).Some?
      ensures r.Some? ==> process == Planned(r.value) && PlanIs(c, old(Seen()), repository, r.value)
    {
      var ok := CleanAndOpen(repository, fault);
      if !ok {
        return None;
      }
      ghost var cleaned := trace;
      r := Prepare(repository, fault);
      Longer(old(trace), cleaned, trace);
    }

    /** Carries a plan out and publishes its vectors. */
    method Finish(p: Plan, fault: Fault, ghost seen: Reading, ghost repository: seq<File>) returns (ok: bool)
      requires Valid() && process == Planned(p) && Seen() == seen && PlanIs(c, seen, repository, p)
      requires !StrikesEarly(fault)
      modifies `db, `files, `snapshot, `handle, `process, `committed, `trace
      ensures Valid() && old(trace) <= trace
      ensures ok <==> Completes(c, seen, repository, fault) && Publishable(c, seen, repository)
      ensures process.Idle? <==> ok
      ensures Completes(c, seen, repository, fault) ==>
                Completed(c, seen, repository, Seen()) && committed == Contents(repository, |repository|)
      ensures !Completes(c, seen, repository, fault) ==> Seen() == seen && committed == old(committed)
      ensures handle == if ok then Seen().vectors else old(handle)
      ensures if ok then Serving() else snapshot == old(snapshot)
    {
      PlanPublishes(c, seen, repository, p);
      ok := Carry(p, fault, seen, repository);
      if ok {
        ghost var carried := trace;
        ok := PublishSnapshot(p);
        Longer(old(trace), carried, trace);
      }
    }

    lemma {:induction false} NowComplete()
      requires Valid()
      ensures DiskComplete(c, Disk(db, files), committed)
    {
      NowInv();
    }

    /** update: clean up, load, diff, and unless nothing changed write the new generation and switch to
        it; then publish. It returns exactly when it completes and the embeddings of the scanned contents
        pass the tests of the snapshot. If it does not complete, nothing seen has changed; if only the
        snapshot fails, the new state is committed although the update throws. */
    method Update(repository: seq<File>, fault: Fault) returns (r: Outcome<UpdateResult>)
      requires Valid() && process.Idle? && DistinctPaths(repository) && AllOccur(c, repository)
      modifies this
      ensures Valid() && process.Idle? && old(trace) <= trace
      ensures !Completes(c, old(Seen()), repository, fault) ==>
                r.Threw? && Seen() == old(Seen()) && committed == old(committed) && handle == old(handle)
      ensures Completes(c, old(Seen()), repository, fault) ==>
                && Completed(c, old(Seen()), repository, Seen())
                && committed == Contents(repository, |repository|)
                && Holding(c.env, Contents(repository, |repository|))(Seen())
                && Advancing(old(Seen()), old(committed) == Contents(repository, |repository|))(Seen())
                && (r.Returned? <==> ContentsAccepted(c.env, c.dimension, Contents(repository, |repository|)))
                && (AnswersAccepted(c.env, c.dimension) ==> r.Returned?)
                && handle == if r.Returned? then Seen().vectors else old(handle)
      ensures r.Returned? ==> Reports(c, old(Seen()), repository, Seen(), r.value)
      ensures r.Returned? ==> Serving() && Serves(Contents(repository, |repository|))
      ensures r.Returned? ==> snapshot.Some?
                              && Embedded(c.env, snapshot.value.Contents(), Contents(repository, |repository|))
      ensures r.Threw? ==> snapshot == old(snapshot)
    {
      ghost var disk, before := Disk(db, files), committed;
      NowComplete();
      var p := Diff(repository, fault);
      ghost var planned := trace;
      if p.None? {
        r := Throw();
        Longer(old(trace), planned, trace);
        return;
      }
      var ok := Finish(p.value, fault, old(Seen()), repository);
      UpdateTells(c, old(Seen()), repository, fault, p.value, Seen(), ok);
      if Completes(c, old(Seen()), repository, fault) {
        GenerationAdvances(c, disk, before, repository, p.value.progress, Seen());
      }
      ghost var finished := trace;
      Longer(old(trace), planned, finished);
      if !ok {
        r := Throw();
        Longer(old(trace), finished, trace);
        return;
      }
      r := Returned(Summary(p.value));
    }

    /** A search on the published snapshot: the k best of the chunks of the contents it was made from. */
    method Search(query: Embedding, k: nat, ghost contents: map<string, string>)
        returns (r: Outcome<seq<Ranking.Hit>>)
      requires Serving() && Serves(contents)
      ensures r.Threw? <==> k > 0 && !BruteForceIndex.Accepted(c.dimension, query)
      ensures r.Returned? ==> AnswersFor(c.env, contents, dot, query, k, r.value)
    {
      r := snapshot.value.Search(query, k);
    }
  }

  lemma {:induction false} ApplyAllFails(db: Database, script: seq<Statement>, n: nat, limit: nat)
    requires n <= limit <= |script| && ApplyAll(db, script[..n]).None?
    ensures ApplyAll(db, script[..limit]).None?
    decreases limit - n
  {
    if n < limit {
      assert script[..n + 1][..n] == script[..n];
      ApplyAllFails(db, script, n + 1, limit);
    }
  }

  /** The records of a vector map, in hash-map order. */
  method ToRecords(v: Vectors) returns (rs: seq<VectorFile.StoredVector>)
    ensures DistinctRecords(rs) && FromRecords(rs) == v
  {
    rs := [];
    var left := v.Keys;
    while left != {}
      invariant left <= v.Keys && DistinctRecords(rs)
      invariant FromRecords(rs) == v - left
      invariant forall i :: 0 <= i < |rs| ==> rs[i].chunkId !in left
      decreases left
    {
      var id :| id in left;
      OneRecordMore(rs, id, v, left);
      rs := rs + [VectorFile.StoredVector(id, v[id])];
      left := left - {id};
    }
    assert v - left == v;
  }

  lemma {:induction false} OneRecordMore(rs: seq<VectorFile.StoredVector>, id: u64, v: Vectors, left: set<u64>)
    requires DistinctRecords(rs) && FromRecords(rs) == v - left && id in left && id in v
    requires forall i :: 0 <= i < |rs| ==> rs[i].chunkId !in left
    ensures var more := rs + [VectorFile.StoredVector(id, v[id])];
            && DistinctRecords(more) && FromRecords(more) == v - (left - {id})
            && forall i :: 0 <= i < |more| ==> more[i].chunkId !in left - {id}
  {
    var r := VectorFile.StoredVector(id, v[id]);
    assert (rs + [r])[..|rs|] == rs;
  }
}
