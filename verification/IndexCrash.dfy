/** IndexService::update as a step machine over durable and volatile state, with a crash or an exception
    allowed between any two steps.

    Durable: the committed tables and the files of the data directory, as bytes. Volatile: the plan of
    the running update, its open transaction, the published snapshot. `committed` is a history
    variable: the file contents of the last update that committed. */
module IndexCrash {
  import opened Base
  import opened SqliteRepository
  import opened IndexUpdate
  import BruteForceIndex
  import Decimal
  import VectorFile

  // ---------------------------------------------------------------- state

  datatype FileName = VectorsBin(generation: nat) | VectorsTmp(generation: nat)
                    | OtherTmp(name: string) | Other(name: string)

  predicate HasTmpExtension(f: FileName) { f.VectorsTmp? || f.OtherTmp? }

  datatype Disk = Disk(db: Database, files: map<FileName, seq<byte>>)

  /** What one update computes before its first durable write. */
  datatype Plan = Plan(files: seq<File>, generation: nat, progress: Progress, vectors: Vectors,
                       removals: seq<string>, records: seq<VectorFile.StoredVector>)

  datatype Process =
    | Idle
    | Cleaning(files: seq<File>)
    | Opened(files: seq<File>)
    | Planned(plan: Plan)
    | Writing(plan: Plan)
    | Renamed(plan: Plan)
    | InTransaction(plan: Plan, working: Database, done: nat)
    | Switched(plan: Plan)

  datatype State = State(disk: Disk, process: Process, handle: Option<Vectors>, committed: map<string, string>)

  /** Fixed for all updates: the environment, the embedding dimension, the model and its hash, and the
      file contents that occur. */
  datatype Config = Config(env: Env, dimension: u32, modelId: string, modelHash: string,
                           occurs: (string, string) -> bool)

  function ToBytes(s: string): seq<byte>
    requires forall i :: 0 <= i < |s| ==> s[i] as int < 256
  {
    seq(|s|, i requires 0 <= i < |s| => s[i] as int)
  }

  /** The assumptions: a usable model hash (it is 16 hex digits), and hashes that do not collide on the
      contents that occur. */
  ghost predicate GoodConfig(c: Config) {
    Assumptions()(c)
  }

  /** The assumptions as a function value, so that proofs carry them as one fact. */
  ghost function Assumptions(): Config -> bool {
    (c: Config) =>
      && c.dimension != 0
      && 1 <= |c.modelHash| <= 32 && (forall i :: 0 <= i < |c.modelHash| ==> 0 < c.modelHash[i] as int < 256)
      && (forall p, a, b :: c.occurs(p, a) && c.occurs(p, b) && c.env.hash(a) == c.env.hash(b) ==> a == b)
      && (forall p, a, q, b :: p != q && c.occurs(p, a) && c.occurs(q, b) ==> IdsApart(c.env, p, a, q, b))
  }

  ghost predicate IdsApart(env: Env, p: string, a: string, q: string, b: string) {
    IndexFile(env, p, a).Some? && IndexFile(env, q, b).Some? ==>
      Ids(IndexFile(env, p, a).value.chunks) !! Ids(IndexFile(env, q, b).value.chunks)
  }

  ghost predicate AllOccur(c: Config, files: seq<File>) {
    forall i :: 0 <= i < |files| ==> c.occurs(files[i].path, files[i].content)
  }

  // ---------------------------------------------------------------- what the disk means

  function Text(db: Database, key: MetaKey): string {
    if key in db.metadata then db.metadata[key] else ""
  }

  /** generation_of: None when the metadata text is not a number. */
  function GenerationOf(db: Database): Option<nat> {
    var text := Text(db, ActiveVectorGeneration);
    if text == "" then Some(0) else Decimal.Parse(text)
  }

  /** The vector map built by emplacing records in file order. */
  function FromRecords(rs: seq<VectorFile.StoredVector>): Vectors {
    if rs == [] then map[]
    else
      var m, last := FromRecords(rs[..|rs| - 1]), rs[|rs| - 1];
      if last.chunkId in m then m else m[last.chunkId := last.values]
  }

  function FileMetadata(c: Config): VectorFile.Metadata
    requires forall i :: 0 <= i < |c.modelHash| ==> 0 < c.modelHash[i] as int < 256
  {
    VectorFile.Metadata(c.dimension, ToBytes(c.modelHash))
  }

  /** The checks that precede an update: model and dimension are unset or ours. */
  predicate ModelMatches(c: Config, db: Database) {
    && (Text(db, EmbeddingModelSha256) == "" || Text(db, EmbeddingModelSha256) == c.modelHash)
    && (Text(db, EmbeddingDimension) == "" || Text(db, EmbeddingDimension) == Decimal.ToString(c.dimension))
  }

  /** Reads the vector file of generation `g`; None is an exception. */
  ghost function LoadVectors(c: Config, files: map<FileName, seq<byte>>, g: nat): Option<Vectors>
    requires GoodConfig(c)
  {
    if g == 0 then Some(map[])
    else if VectorsBin(g) !in files then None
    else
      match VectorFile.Parse(files[VectorsBin(g)])
      case None => None
      case Some(loaded) => if loaded.metadata == FileMetadata(c) then Some(FromRecords(loaded.records)) else None
  }

  // ---------------------------------------------------------------- the database script of an update

  function EraseScript(paths: seq<string>): seq<Statement> {
    seq(|paths|, i requires 0 <= i < |paths| => EraseDocument(paths[i]))
  }

  function PutScript(documents: seq<StoredDocument>, g: nat): seq<Statement> {
    seq(|documents|, i requires 0 <= i < |documents| => PutDocument(documents[i], g))
  }

  function MetadataScript(c: Config, g: nat): seq<Statement> {
    [PutMetadata(ChunkerVersion, "text-v1"), PutMetadata(EmbeddingModelId, c.modelId),
     PutMetadata(EmbeddingModelSha256, c.modelHash),
     PutMetadata(EmbeddingDimension, Decimal.ToString(c.dimension)), PutMetadata(Normalization, "l2"),
     PutMetadata(ActiveVectorGeneration, Decimal.ToString(g))]
  }

  function Script(c: Config, p: Plan): seq<Statement> {
    EraseScript(p.removals) + PutScript(p.progress.replacements, p.generation + 1) + MetadataScript(c, p.generation + 1)
  }

  // ---------------------------------------------------------------- steps

  predicate NothingToDo(p: Plan) {
    |p.progress.replacements| == 0 && |p.removals| == 0 && p.generation != 0
  }

  /** The plan is what load, scan and diff compute from this disk. */
  ghost predicate PlanFrom(c: Config, d: Disk, p: Plan)
    requires GoodConfig(c)
  {
    && ModelMatches(c, d.db) && GenerationOf(d.db) == Some(p.generation)
    && LoadVectors(c, d.files, p.generation).Some?
    && DistinctPaths(p.files)
    && Scan(c.env, d.db.view, LoadVectors(c, d.files, p.generation).value, p.files, |p.files|) == Some(p.progress)
    && ListedPaths(p.removals) == Removed(d.db.view, p.files)
    && p.vectors == FinalVectors(d.db.view, p.progress, p.files)
    && DistinctRecords(p.records) && FromRecords(p.records) == p.vectors
  }

  predicate DistinctRecords(rs: seq<VectorFile.StoredVector>) {
    forall i, j :: 0 <= i < j < |rs| ==> rs[i].chunkId != rs[j].chunkId
  }

  /** The byte stream write_atomic produces, whether or not it gets to the end. */
  ghost function Stream(c: Config, p: Plan): seq<byte>
    requires GoodConfig(c)
  {
    VectorFile.Image(c.dimension, VectorFile.EncodeHash(FileMetadata(c).modelHash), p.records)
  }

  ghost predicate Start(c: Config, s: State, s': State) {
    && s.process.Idle? && s'.process.Cleaning?
    && DistinctPaths(s'.process.files) && AllOccur(c, s'.process.files)
    && s' == s.(process := s'.process)
  }

  ghost predicate RemoveTmp(s: State, s': State) {
    && s.process.Cleaning?
    && exists f :: f in s.disk.files && HasTmpExtension(f)
                   && s' == s.(disk := s.disk.(files := s.disk.files - {f}))
  }

  /** Opening refreshes the full-text rows, which the view does not show, and stamps the schema. */
  function OpenDatabase(db: Database): Database {
    db.(metadata := db.metadata[SchemaVersion := "2"])
  }

  ghost predicate OpenTables(s: State, s': State) {
    && s.process.Cleaning? && (forall f :: f in s.disk.files ==> !HasTmpExtension(f))
    && s' == s.(disk := s.disk.(db := OpenDatabase(s.disk.db)), process := Opened(s.process.files))
  }

  ghost predicate MakePlan(c: Config, s: State, s': State)
    requires GoodConfig(c)
  {
    && s.process.Opened? && s'.process.Planned? && s'.process.plan.files == s.process.files
    && PlanFrom(c, s.disk, s'.process.plan)
    && s' == s.(process := s'.process)
  }

  ghost predicate SkipWrite(s: State, s': State) {
    && s.process.Planned? && NothingToDo(s.process.plan)
    && s' == s.(process := Switched(s.process.plan),
                committed := Contents(s.process.plan.files, |s.process.plan.files|))
  }

  ghost predicate CreateTmp(s: State, s': State) {
    && s.process.Planned? && !NothingToDo(s.process.plan)
    && s' == s.(disk := s.disk.(files := s.disk.files[VectorsTmp(s.process.plan.generation + 1) := []]),
                process := Writing(s.process.plan))
  }

  /** Any prefix of the stream may have reached the temporary file. */
  ghost predicate WriteTmp(c: Config, s: State, s': State)
    requires GoodConfig(c)
  {
    && s.process.Writing?
    && exists k :: 0 <= k <= |Stream(c, s.process.plan)|
         && s' == s.(disk := s.disk.(files := s.disk.files[VectorsTmp(s.process.plan.generation + 1)
                                                           := Stream(c, s.process.plan)[..k]]))
  }

  ghost predicate RenameTmp(c: Config, s: State, s': State)
    requires GoodConfig(c)
  {
    && s.process.Writing? && VectorFile.Writable(FileMetadata(c), s.process.plan.records)
    && var tmp, bin := VectorsTmp(s.process.plan.generation + 1), VectorsBin(s.process.plan.generation + 1);
       && tmp in s.disk.files && s.disk.files[tmp] == Stream(c, s.process.plan)
       && s' == s.(disk := s.disk.(files := (s.disk.files - {tmp})[bin := s.disk.files[tmp]]),
                   process := Renamed(s.process.plan))
  }

  ghost predicate BeginTransaction(s: State, s': State) {
    && s.process.Renamed? && VectorsBin(s.process.plan.generation + 1) in s.disk.files
    && VectorFile.Parse(s.disk.files[VectorsBin(s.process.plan.generation + 1)]).Some?
    && s' == s.(process := InTransaction(s.process.plan, s.disk.db, 0))
  }

  ghost predicate RunStatement(c: Config, s: State, s': State) {
    && s.process.InTransaction? && s.process.done < |Script(c, s.process.plan)|
    && var r := Apply(s.process.working, Script(c, s.process.plan)[s.process.done]);
       r.Some? && s' == s.(process := InTransaction(s.process.plan, r.value, s.process.done + 1))
  }

  ghost predicate CommitTransaction(c: Config, s: State, s': State) {
    && s.process.InTransaction? && s.process.done == |Script(c, s.process.plan)|
    && s' == s.(disk := s.disk.(db := s.process.working), process := Switched(s.process.plan),
                committed := Contents(s.process.plan.files, |s.process.plan.files|))
  }

  /** Every vector passes the tests of the snapshot's upsert. */
  predicate AllAccepted(dimension: nat, v: Vectors) {
    forall id :: id in v ==> BruteForceIndex.Accepted(dimension, v[id])
  }

  /** The snapshot is built by upserts and published; an upsert that throws is an abort. */
  ghost predicate Publish(c: Config, s: State, s': State) {
    && s.process.Switched? && AllAccepted(c.dimension, s.process.plan.vectors)
    && s' == s.(process := Idle, handle := Some(s.process.plan.vectors))
  }

  /** An exception anywhere: the transaction is rolled back, files stay as they are. */
  ghost predicate Abort(s: State, s': State) {
    !s.process.Idle? && s' == s.(process := Idle)
  }

  /** The process dies: everything volatile is gone. */
  ghost predicate Crash(s: State, s': State) {
    s' == s.(process := Idle, handle := None)
  }

  datatype Kind = Starts | Removes | Opens | Plans | Skips | Creates | Writes | Renames | Begins | Executes
                | Commits | Publishes | Aborts | Crashes

  ghost predicate StepOf(c: Config, s: State, s': State, kind: Kind)
    requires GoodConfig(c)
  {
    match kind
    case Starts => Start(c, s, s')
    case Removes => RemoveTmp(s, s')
    case Opens => OpenTables(s, s')
    case Plans => MakePlan(c, s, s')
    case Skips => SkipWrite(s, s')
    case Creates => CreateTmp(s, s')
    case Writes => WriteTmp(c, s, s')
    case Renames => RenameTmp(c, s, s')
    case Begins => BeginTransaction(s, s')
    case Executes => RunStatement(c, s, s')
    case Commits => CommitTransaction(c, s, s')
    case Publishes => Publish(c, s, s')
    case Aborts => Abort(s, s')
    case Crashes => Crash(s, s')
  }

  ghost predicate Next(c: Config, s: State, s': State)
    requires GoodConfig(c)
  {
    exists kind :: StepOf(c, s, s', kind)
  }

  /** A data directory without a database; stray files may lie around. */
  ghost predicate Init(s: State) {
    s.disk.db == EMPTY_DATABASE && s.process.Idle? && s.handle.None? && s.committed == map[]
  }

  ghost predicate Behavior(c: Config, run: seq<State>)
    requires GoodConfig(c)
  {
    |run| > 0 && Init(run[0]) && forall i :: 0 <= i < |run| - 1 ==> Next(c, run[i], run[i + 1])
  }

  // ---------------------------------------------------------------- the invariant

  /** The committed generation names a readable vector file, and tables and vectors are exactly those of
      the committed contents. */
  ghost predicate DiskComplete(c: Config, d: Disk, contents: map<string, string>)
    requires GoodConfig(c)
  {
    && ModelMatches(c, d.db)
    && GenerationOf(d.db).Some?
    && LoadVectors(c, d.files, GenerationOf(d.db).value).Some?
    && Coherent(c.env, d.db.view, LoadVectors(c, d.files, GenerationOf(d.db).value).value, contents)
    && (forall p :: p in contents ==> c.occurs(p, contents[p]))
  }

  ghost predicate Pending(c: Config, s: State, p: Plan)
    requires GoodConfig(c)
  {
    PlanFrom(c, s.disk, p) && AllOccur(c, p.files)
  }

  ghost predicate NewFileComplete(c: Config, d: Disk, p: Plan)
    requires GoodConfig(c)
  {
    && VectorFile.Writable(FileMetadata(c), p.records)
    && VectorsBin(p.generation + 1) in d.files && d.files[VectorsBin(p.generation + 1)] == Stream(c, p)
  }

  ghost predicate ProcessOk(c: Config, s: State)
    requires GoodConfig(c)
  {
    match s.process
    case Idle => true
    case Cleaning(files) => DistinctPaths(files) && AllOccur(c, files)
    case Opened(files) => DistinctPaths(files) && AllOccur(c, files)
    case Planned(p) => Pending(c, s, p)
    case Writing(p) => Pending(c, s, p)
    case Renamed(p) => Pending(c, s, p) && NewFileComplete(c, s.disk, p)
    case InTransaction(p, working, done) =>
      && Pending(c, s, p) && NewFileComplete(c, s.disk, p) && done <= |Script(c, p)|
      && ApplyAll(s.disk.db, Script(c, p)[..done]) == Some(working)
    case Switched(p) =>
      && GenerationOf(s.disk.db).Some?
      && LoadVectors(c, s.disk.files, GenerationOf(s.disk.db).value) == Some(p.vectors)
      && s.committed == Contents(p.files, |p.files|)
  }

  ghost predicate Inv(c: Config, s: State)
    requires GoodConfig(c)
  {
    DiskComplete(c, s.disk, s.committed) && ProcessOk(c, s)
  }

  // ---------------------------------------------------------------- frames

  ghost predicate SameBin(files: map<FileName, seq<byte>>, files': map<FileName, seq<byte>>, g: nat) {
    (VectorsBin(g) in files <==> VectorsBin(g) in files')
    && (VectorsBin(g) in files ==> files'[VectorsBin(g)] == files[VectorsBin(g)])
  }

  lemma {:induction false} LoadFrame(c: Config, files: map<FileName, seq<byte>>, files': map<FileName, seq<byte>>,
                                     g: nat)
    requires GoodConfig(c) && SameBin(files, files', g)
    ensures LoadVectors(c, files', g) == LoadVectors(c, files, g)
  {
  }

  /** Files other than the committed generation do not matter. */
  lemma {:induction false} DiskFrame(c: Config, d: Disk, files': map<FileName, seq<byte>>,
                                     contents: map<string, string>)
    requires GoodConfig(c) && DiskComplete(c, d, contents)
    requires SameBin(d.files, files', GenerationOf(d.db).value)
    ensures DiskComplete(c, d.(files := files'), contents)
  {
    LoadFrame(c, d.files, files', GenerationOf(d.db).value);
  }

  lemma {:induction false} PlanFrame(c: Config, d: Disk, files': map<FileName, seq<byte>>, p: Plan)
    requires GoodConfig(c) && PlanFrom(c, d, p) && SameBin(d.files, files', p.generation)
    ensures PlanFrom(c, d.(files := files'), p)
  {
    LoadFrame(c, d.files, files', p.generation);
  }

  lemma {:induction false} OpenFrame(c: Config, d: Disk, contents: map<string, string>)
    requires GoodConfig(c) && DiskComplete(c, d, contents)
    ensures DiskComplete(c, d.(db := OpenDatabase(d.db)), contents)
  {
  }

  /** Opening the row-level database is this step. */
  lemma {:induction false} OpenRefinesRows(t: Tables)
    requires Consistent(t)
    ensures Consistent(Open(t)) && Abstract(Open(t)) == OpenDatabase(Abstract(t))
  {
    OpenRefines(t);
  }

  // ---------------------------------------------------------------- the transaction

  function Then(r: Option<Database>, script: seq<Statement>): Option<Database> {
    match r case None => None case Some(u) => ApplyAll(u, script)
  }

  lemma {:induction false} ApplyAllSplit(db: Database, a: seq<Statement>, b: seq<Statement>)
    ensures ApplyAll(db, a + b) == Then(ApplyAll(db, a), b)
    decreases |b|
  {
    if b == [] {
      assert a + b == a;
    } else {
      var init, last := b[..|b| - 1], b[|b| - 1];
      ApplyAllSplit(db, a, init);
      assert (a + b)[..|a + b| - 1] == a + init && (a + b)[|a + b| - 1] == last;
    }
  }

  lemma {:induction false} ApplyThree(db: Database, a: seq<Statement>, b: seq<Statement>, d: seq<Statement>)
    ensures ApplyAll(db, a + b + d) == Then(Then(ApplyAll(db, a), b), d)
  {
    ApplyAllSplit(db, a + b, d);
    ApplyAllSplit(db, a, b);
  }

  lemma {:induction false} EraseScriptResult(db: Database, paths: seq<string>)
    ensures ApplyAll(db, EraseScript(paths)) == Some(db.(view := EraseAll(db.view, paths)))
    decreases |paths|
  {
    var script := EraseScript(paths);
    if paths != [] {
      var init, last := paths[..|paths| - 1], paths[|paths| - 1];
      EraseScriptResult(db, init);
      assert script[..|script| - 1] == EraseScript(init) && script[|script| - 1] == EraseDocument(last);
    }
  }

  /** The replacements go through exactly when they are storable. */
  ghost predicate PutOutcome(l: Logical, documents: seq<StoredDocument>, r: Option<Database>) {
    && (r.Some? <==> Storable(l, documents))
    && (r.Some? ==> r.value.view == ReplaceAll(l, documents))
  }

  lemma {:induction false} PutStep(l: Logical, documents: seq<StoredDocument>, u: Database, d: StoredDocument, g: nat)
    requires PutOutcome(l, documents, Some(u))
    ensures PutOutcome(l, documents + [d], Apply(u, PutDocument(d, g)))
  {
    ReplaceAllAppend(l, documents, d);
  }

  lemma {:induction false} PutScriptResult(db: Database, documents: seq<StoredDocument>, g: nat)
      returns (r: Option<Database>)
    ensures r == ApplyAll(db, PutScript(documents, g)) && PutOutcome(db.view, documents, r)
    decreases |documents|
  {
    var script := PutScript(documents, g);
    if documents == [] {
      r := Some(db);
    } else {
      var init, last := documents[..|documents| - 1], documents[|documents| - 1];
      var r0 := PutScriptResult(db, init, g);
      assert script[..|script| - 1] == PutScript(init, g) && script[|script| - 1] == PutDocument(last, g);
      assert documents == init + [last];
      match r0
      case None =>
        ReplaceAllAppend(db.view, init, last);
        r := None;
      case Some(u) =>
        PutStep(db.view, init, u, last, g);
        r := Apply(u, PutDocument(last, g));
    }
  }

  function Stamped(c: Config, db: Database, g: nat): Database {
    var m1 := db.metadata[ChunkerVersion := "text-v1"][EmbeddingModelId := c.modelId];
    var m2 := m1[EmbeddingModelSha256 := c.modelHash][EmbeddingDimension := Decimal.ToString(c.dimension)];
    db.(metadata := m2[Normalization := "l2"][ActiveVectorGeneration := Decimal.ToString(g)])
  }

  lemma {:induction false} MetadataScriptResult(c: Config, db: Database, g: nat)
    ensures ApplyAll(db, MetadataScript(c, g)) == Some(Stamped(c, db, g))
  {
    var s := MetadataScript(c, g);
    assert s[..0] == [] && ApplyAll(db, s[..0]) == Some(db);
    var d1 := db.(metadata := db.metadata[ChunkerVersion := "text-v1"]);
    assert s[..1][..0] == s[..0] && ApplyAll(db, s[..1]) == Some(d1);
    var d2 := d1.(metadata := d1.metadata[EmbeddingModelId := c.modelId]);
    assert s[..2][..1] == s[..1] && ApplyAll(db, s[..2]) == Some(d2);
    var d3 := d2.(metadata := d2.metadata[EmbeddingModelSha256 := c.modelHash]);
    assert s[..3][..2] == s[..2] && ApplyAll(db, s[..3]) == Some(d3);
    var d4 := d3.(metadata := d3.metadata[EmbeddingDimension := Decimal.ToString(c.dimension)]);
    assert s[..4][..3] == s[..3] && ApplyAll(db, s[..4]) == Some(d4);
    var d5 := d4.(metadata := d4.metadata[Normalization := "l2"]);
    assert s[..5][..4] == s[..4] && ApplyAll(db, s[..5]) == Some(d5);
    assert s[..6][..5] == s[..5] && s[..6] == s;
  }

  lemma {:induction false} StampedMetadata(c: Config, db: Database, g: nat)
    ensures ModelMatches(c, Stamped(c, db, g)) && GenerationOf(Stamped(c, db, g)) == Some(g)
  {
    Decimal.ParseToString(g);
  }

  /** The outcome `r` of the whole script: it goes through exactly when the replacements are storable, and
      then the tables are the old ones without the removed and with the replaced documents. */
  ghost predicate ScriptOutcome(c: Config, db: Database, p: Plan, r: Option<Database>) {
    var l0 := EraseAll(db.view, p.removals);
    && (r.Some? <==> Storable(l0, p.progress.replacements))
    && (r.Some? ==> && r.value.view == ReplaceAll(l0, p.progress.replacements)
                    && ModelMatches(c, r.value) && GenerationOf(r.value) == Some(p.generation + 1))
  }

  lemma {:induction false} ScriptResult(c: Config, db: Database, p: Plan) returns (r: Option<Database>)
    ensures r == ApplyAll(db, Script(c, p)) && ScriptOutcome(c, db, p, r)
  {
    var g := p.generation + 1;
    ApplyThree(db, EraseScript(p.removals), PutScript(p.progress.replacements, g), MetadataScript(c, g));
    EraseScriptResult(db, p.removals);
    var r0 := PutScriptResult(db.(view := EraseAll(db.view, p.removals)), p.progress.replacements, g);
    match r0
    case None =>
      r := None;
    case Some(u) =>
      MetadataScriptResult(c, u, g);
      StampedMetadata(c, u, g);
      r := Some(Stamped(c, u, g));
  }

  // ---------------------------------------------------------------- an update completes

  lemma {:induction false} FileFaithful(c: Config, l: Logical, v: Vectors, m: map<string, string>, files: seq<File>,
                                        f: File)
    requires GoodConfig(c) && Coherent(c.env, l, v, m) && (forall p :: p in m ==> c.occurs(p, m[p]))
    requires f.path in PathSet(files) && c.occurs(f.path, f.content)
    ensures FaithfulFile(c.env, m, RemovedIds(l, files), f)
  {
    if IndexFile(c.env, f.path, f.content).Some? {
      var x := IndexFile(c.env, f.path, f.content).value;
      forall id | id in RemovedIds(l, files) ensures id !in Ids(x.chunks) {
        assert Owned(c.env, l, m, id);
        var q := l.chunks[id].path;
        RowsOfKeys(q, IndexFile(c.env, q, m[q]).value.chunks, 0);
        assert IdsApart(c.env, f.path, f.content, q, m[q]);
      }
    }
  }

  lemma {:induction false} FilesFaithful(c: Config, l: Logical, v: Vectors, m: map<string, string>, files: seq<File>)
    requires GoodConfig(c) && Coherent(c.env, l, v, m) && (forall p :: p in m ==> c.occurs(p, m[p]))
    requires AllOccur(c, files)
    ensures Faithful(c.env, l, m, files)
  {
    forall i | 0 <= i < |files| ensures FaithfulFile(c.env, m, RemovedIds(l, files), files[i]) {
      FileFaithful(c, l, v, m, files, files[i]);
    }
  }

  lemma {:induction false} ContentsOccur(c: Config, files: seq<File>, n: nat)
    requires AllOccur(c, files) && n <= |files|
    ensures forall p :: p in Contents(files, n) ==> c.occurs(p, Contents(files, n)[p])
    decreases n
  {
    if n > 0 { ContentsOccur(c, files, n - 1); }
  }

  /** In tables that hold contents that occur, a file that occurs finds its chunk ids free. */
  lemma {:induction false} IdsAreFree(c: Config, ln: Logical, vn: Vectors, mn: map<string, string>, f: File, x: Indexed)
    requires GoodConfig(c) && Coherent(c.env, ln, vn, mn) && (forall p :: p in mn ==> c.occurs(p, mn[p]))
    requires c.occurs(f.path, f.content) && IndexFile(c.env, f.path, f.content) == Some(x) && DistinctIds(x.chunks)
    ensures Insertable(ln, DocumentOf(c.env, f, x.chunks))
  {
    forall id | id in Erase(ln, f.path).chunks ensures id !in Ids(x.chunks) {
      assert Owned(c.env, ln, mn, id);
      var q := ln.chunks[id].path;
      RowsOfKeys(q, IndexFile(c.env, q, mn[q]).value.chunks, 0);
      assert IdsApart(c.env, f.path, f.content, q, mn[q]);
    }
  }

  /** The loop invariant of StorableExactly. */
  ghost function StoresDistinct(env: Env, l: Logical, l0: Logical, m0: map<string, string>, files: seq<File>)
    : (nat, Progress) -> bool
  {
    (n: nat, p: Progress) =>
      && ReachedInvariant(env, l, l0, m0, files)(n, p)
      && (OwnIdsDistinct(p.replacements) ==> Storable(l0, p.replacements))
  }

  lemma {:induction false} StoresNext(c: Config, l: Logical, l0: Logical, m0: map<string, string>, files: seq<File>,
                                      n: nat, q: Progress, p: Progress)
    requires GoodConfig(c) && AllOccur(c, files) && (forall path :: path in m0 ==> c.occurs(path, m0[path]))
    requires n < |files| && ReachedInvariant(c.env, l, l0, m0, files)(n, q)
    requires OwnIdsDistinct(q.replacements) ==> Storable(l0, q.replacements)
    requires ScanFile(c.env, l, q, files[n]) == Some(p) && OwnIdsDistinct(p.replacements)
    ensures Storable(l0, p.replacements)
  {
    var f := files[n];
    if !Unchanged(c.env, l, f) {
      var x := IndexFile(c.env, f.path, f.content).value;
      var d := DocumentOf(c.env, f, x.chunks);
      LastDistinct(q.replacements, d);
      ReachedWhenStored(c.env, l, l0, m0, files, n, q);
      ReachedContents(c, l, l0, m0, files, n, q, f, x);
      ReplaceAllAppend(l0, q.replacements, d);
    }
  }

  lemma {:induction false} LastDistinct(documents: seq<StoredDocument>, d: StoredDocument)
    requires OwnIdsDistinct(documents + [d])
    ensures OwnIdsDistinct(documents) && DistinctIds(d.chunks)
  {
    var more := documents + [d];
    assert more[|documents|] == d;
    assert forall i :: 0 <= i < |documents| ==> more[i] == documents[i];
  }

  lemma {:induction false} ReachedWhenStored(env: Env, l: Logical, l0: Logical, m0: map<string, string>,
                                             files: seq<File>, n: nat, q: Progress)
    requires n <= |files| && ReachedInvariant(env, l, l0, m0, files)(n, q) && Storable(l0, q.replacements)
    ensures Reached(env, l, l0, m0, files, n, q)
  {
  }

  lemma {:induction false} ReachedContents(c: Config, l: Logical, l0: Logical, m0: map<string, string>,
                                           files: seq<File>, n: nat, q: Progress, f: File, x: Indexed)
    requires GoodConfig(c) && AllOccur(c, files) && (forall path :: path in m0 ==> c.occurs(path, m0[path]))
    requires n <= |files| && Reached(c.env, l, l0, m0, files, n, q)
    requires c.occurs(f.path, f.content) && IndexFile(c.env, f.path, f.content) == Some(x) && DistinctIds(x.chunks)
    ensures Insertable(ReplaceAll(l0, q.replacements), DocumentOf(c.env, f, x.chunks))
  {
    ContentsOccur(c, files, n);
    IdsAreFree(c, ReplaceAll(l0, q.replacements), q.vectors - RemovedIds(l, files), m0 + Contents(files, n), f, x);
  }

  /** An incremental update goes through: the replacements can be stored exactly when no file repeats a
      chunk id of its own. */
  lemma {:induction false} StorableExactly(c: Config, d: Disk, m: map<string, string>, p: Plan)
    requires GoodConfig(c) && DiskComplete(c, d, m) && PlanFrom(c, d, p) && AllOccur(c, p.files)
    ensures Storable(EraseAll(d.db.view, p.removals), p.progress.replacements) <==>
        OwnIdsDistinct(p.progress.replacements)
  {
    var l, l0, v := d.db.view, EraseAll(d.db.view, p.removals), LoadVectors(c, d.files, p.generation).value;
    if Storable(l0, p.progress.replacements) {
      StorableMeansDistinct(l0, p.progress.replacements);
    } else {
      NotStorable(c, l, v, m, p.files, p.removals, p.progress);
    }
  }

  lemma {:induction false} NotStorable(c: Config, l: Logical, v: Vectors, m: map<string, string>, files: seq<File>,
                                       removals: seq<string>, p: Progress)
    requires GoodConfig(c) && Coherent(c.env, l, v, m) && (forall path :: path in m ==> c.occurs(path, m[path]))
    requires DistinctPaths(files) && AllOccur(c, files) && ListedPaths(removals) == Removed(l, files)
    requires Scan(c.env, l, v, files, |files|) == Some(p)
    ensures OwnIdsDistinct(p.replacements) ==> Storable(EraseAll(l, removals), p.replacements)
  {
    var l0, m0 := EraseAll(l, removals), m - Removed(l, files);
    FilesFaithful(c, l, v, m, files);
    EraseAllCoherent(c.env, l, v, m, removals);
    assert IdsAt(l, ListedPaths(removals)) == RemovedIds(l, files);
    ReachedAtStart(c.env, l, l0, v, m, files);
    var inv := StoresDistinct(c.env, l, l0, m0, files);
    forall k: nat, q, q' | k < |files| && inv(k, q) && ScanFile(c.env, l, q, files[k]) == Some(q')
      ensures inv(k + 1, q')
    {
      ReachedKept(c.env, l, l0, v, m, files, k, q, q');
      if OwnIdsDistinct(q'.replacements) { StoresNext(c, l, l0, m0, files, k, q, q'); }
    }
    ScanInvariant(c.env, l, v, files, inv, |files|, p);
  }

  /** The tables the statements leave and the planned vectors are those of the scanned contents. */
  lemma {:induction false} PlanCoherent(c: Config, d: Disk, m: map<string, string>, p: Plan)
    requires GoodConfig(c) && DiskComplete(c, d, m) && PlanFrom(c, d, p) && AllOccur(c, p.files)
    requires Storable(EraseAll(d.db.view, p.removals), p.progress.replacements)
    ensures Coherent(c.env, ReplaceAll(EraseAll(d.db.view, p.removals), p.progress.replacements), p.vectors,
                     Contents(p.files, |p.files|))
  {
    var v := LoadVectors(c, d.files, p.generation).value;
    FilesFaithful(c, d.db.view, v, m, p.files);
    UpdateCoherent(c.env, d.db.view, v, m, p.files, p.removals);
  }

  /** The renamed file reads back as the planned vectors. */
  lemma {:induction false} NewFileLoads(c: Config, d: Disk, p: Plan)
    requires GoodConfig(c) && NewFileComplete(c, d, p)
    ensures VectorFile.Parse(d.files[VectorsBin(p.generation + 1)]).Some?
    ensures LoadVectors(c, d.files, p.generation + 1) == Some(FromRecords(p.records))
  {
    VectorFile.ReadInvertsWrite(FileMetadata(c), p.records);
    assert 0 !in FileMetadata(c).modelHash;
  }

  lemma {:induction false} CommitCompletes(c: Config, d: Disk, m: map<string, string>, p: Plan, working: Database)
    requires GoodConfig(c) && DiskComplete(c, d, m) && PlanFrom(c, d, p) && AllOccur(c, p.files)
    requires NewFileComplete(c, d, p) && ApplyAll(d.db, Script(c, p)) == Some(working)
    ensures GenerationOf(working) == Some(p.generation + 1)
    ensures LoadVectors(c, d.files, p.generation + 1) == Some(p.vectors)
    ensures DiskComplete(c, d.(db := working), Contents(p.files, |p.files|))
    ensures Coherent(c.env, working.view, p.vectors, Contents(p.files, |p.files|))
  {
    var r := ScriptResult(c, d.db, p);
    PlanCoherent(c, d, m, p);
    NewFileLoads(c, d, p);
    ContentsOccur(c, p.files, |p.files|);
  }

  /** When nothing changed, the disk already holds the scanned contents. */
  lemma {:induction false} SkipCompletes(c: Config, d: Disk, m: map<string, string>, p: Plan)
    requires GoodConfig(c) && DiskComplete(c, d, m) && PlanFrom(c, d, p) && AllOccur(c, p.files)
    requires NothingToDo(p)
    ensures LoadVectors(c, d.files, p.generation) == Some(p.vectors)
    ensures DiskComplete(c, d, Contents(p.files, |p.files|))
  {
    var v := LoadVectors(c, d.files, p.generation).value;
    CountersExact(c.env, d.db.view, v, p.files, p.progress);
    assert Removed(d.db.view, p.files) == {};
    assert RemovedIds(d.db.view, p.files) == {};
    MinusNothing(p.progress.vectors, RemovedIds(d.db.view, p.files));
    assert p.vectors == v;
    PlanCoherent(c, d, m, p);
    ContentsOccur(c, p.files, |p.files|);
  }

  // ---------------------------------------------------------------- every step keeps the invariant

  lemma {:induction false} InitInv(c: Config, s: State)
    requires GoodConfig(c) && Init(s)
    ensures Inv(c, s)
  {
    EmptyIsCoherent(c.env);
  }

  lemma {:induction false} RemoveTmpInv(c: Config, s: State, s': State)
    requires GoodConfig(c) && Inv(c, s) && RemoveTmp(s, s')
    ensures Inv(c, s')
  {
    DiskFrame(c, s.disk, s'.disk.files, s.committed);
  }

  lemma {:induction false} OpenTablesInv(c: Config, s: State, s': State)
    requires GoodConfig(c) && Inv(c, s) && OpenTables(s, s')
    ensures Inv(c, s')
  {
    OpenFrame(c, s.disk, s.committed);
  }

  lemma {:induction false} SkipWriteInv(c: Config, s: State, s': State)
    requires GoodConfig(c) && Inv(c, s) && SkipWrite(s, s')
    ensures Inv(c, s')
  {
    SkipCompletes(c, s.disk, s.committed, s.process.plan);
  }

  lemma {:induction false} TmpInv(c: Config, s: State, s': State)
    requires GoodConfig(c) && Inv(c, s) && (CreateTmp(s, s') || WriteTmp(c, s, s'))
    ensures Inv(c, s')
  {
    DiskFrame(c, s.disk, s'.disk.files, s.committed);
    PlanFrame(c, s.disk, s'.disk.files, s.process.plan);
  }

  lemma {:induction false} RenameTmpInv(c: Config, s: State, s': State)
    requires GoodConfig(c) && Inv(c, s) && RenameTmp(c, s, s')
    ensures Inv(c, s')
  {
    DiskFrame(c, s.disk, s'.disk.files, s.committed);
    PlanFrame(c, s.disk, s'.disk.files, s.process.plan);
  }

  lemma {:induction false} BeginTransactionInv(c: Config, s: State, s': State)
    requires GoodConfig(c) && Inv(c, s) && BeginTransaction(s, s')
    ensures Inv(c, s')
  {
    assert Script(c, s.process.plan)[..0] == [];
  }

  lemma {:induction false} RunStatementInv(c: Config, s: State, s': State)
    requires GoodConfig(c) && Inv(c, s) && RunStatement(c, s, s')
    ensures Inv(c, s')
  {
    NextPrefix(s.disk.db, Script(c, s.process.plan), s.process.done, s.process.working);
  }

  lemma {:induction false} NextPrefix(db: Database, script: seq<Statement>, done: nat, working: Database)
    requires done < |script| && ApplyAll(db, script[..done]) == Some(working)
    ensures ApplyAll(db, script[..done + 1]) == Apply(working, script[done])
  {
    assert script[..done + 1][..done] == script[..done];
  }

  lemma {:induction false} CommitInv(c: Config, s: State, s': State)
    requires GoodConfig(c) && Inv(c, s) && CommitTransaction(c, s, s')
    ensures Inv(c, s')
  {
    var script := Script(c, s.process.plan);
    assert script[..|script|] == script;
    CommitCompletes(c, s.disk, s.committed, s.process.plan, s.process.working);
  }

  lemma {:induction false} NextInv(c: Config, s: State, s': State)
    requires GoodConfig(c) && Inv(c, s) && Next(c, s, s')
    ensures Inv(c, s')
  {
    var kind :| StepOf(c, s, s', kind);
    match kind
    case Removes => RemoveTmpInv(c, s, s');
    case Opens => OpenTablesInv(c, s, s');
    case Skips => SkipWriteInv(c, s, s');
    case Creates => TmpInv(c, s, s');
    case Writes => TmpInv(c, s, s');
    case Renames => RenameTmpInv(c, s, s');
    case Begins => BeginTransactionInv(c, s, s');
    case Executes => RunStatementInv(c, s, s');
    case Commits => CommitInv(c, s, s');
    case _ => SameDiskInv(c, s, s', kind);
  }

  /** Start, plan, publish, abort and crash leave the disk alone. */
  lemma {:induction false} SameDiskInv(c: Config, s: State, s': State, kind: Kind)
    requires GoodConfig(c) && Inv(c, s) && StepOf(c, s, s', kind) && kind in {Starts, Plans, Publishes, Aborts, Crashes}
    ensures Inv(c, s') && s'.disk == s.disk
  {
  }
}
