/** The chunk repository (sqlite_chunk_repository.cpp): the tables with their constraints, cascade
    deletes and full-text triggers, and the transaction bracket around them.

    `Tables` is the row-level state. `View` forgets row ids: documents by path, chunks by id with the
    path of their document. Every statement is proved to act on the view as a simple map operation. */
module SqliteRepository {
  import opened Base
  import Decimal

  datatype MetaKey = SchemaVersion | ChunkerVersion | EmbeddingModelId | EmbeddingModelSha256
                   | EmbeddingDimension | Normalization | ActiveVectorGeneration

  datatype StoredDocument = StoredDocument(path: string, contentHash: string, sizeBytes: nat,
                                           modifiedNs: int, parserVersion: string, chunks: seq<Chunk>)

  datatype DocumentRow = DocumentRow(path: string, contentHash: string, sizeBytes: nat,
                                     modifiedNs: int, parserVersion: string)

  datatype ChunkRow = ChunkRow(documentId: nat, startLine: nat, endLine: nat, language: string,
                               symbol: string, content: string, contentHash: string, offset: nat)

  datatype FtsRow = FtsRow(path: string, symbol: string, content: string)

  datatype Tables = Tables(documents: Documents, chunks: Chunks,
                           fts: map<u64, FtsRow>, metadata: map<MetaKey, string>)

  // ---------------------------------------------------------------- constraints

  type Documents = map<nat, DocumentRow>
  type Chunks = map<u64, ChunkRow>

  /** SELECT chunks.id, relative_path, symbol, content FROM chunks JOIN documents. */
  function Join(documents: Documents, chunks: Chunks): map<u64, FtsRow> {
    map id | id in chunks && chunks[id].documentId in documents ::
      FtsRow(documents[chunks[id].documentId].path, chunks[id].symbol, chunks[id].content)
  }

  ghost predicate UniquePaths(documents: Documents) {
    forall i, j :: i in documents && j in documents && documents[i].path == documents[j].path ==> i == j
  }

  ghost predicate ForeignKeys(documents: Documents, chunks: Chunks) {
    forall id :: id in chunks ==> chunks[id].documentId in documents
  }

  /** The declared constraints hold and the full-text table is the join. */
  ghost predicate Consistent(t: Tables) {
    Constraints()(t)
  }

  /** The constraints as a function value, so that proofs carry them as one fact. */
  ghost function Constraints(): Tables -> bool {
    (t: Tables) =>
      UniquePaths(t.documents) && ForeignKeys(t.documents, t.chunks) && t.fts == Join(t.documents, t.chunks)
  }

  // ---------------------------------------------------------------- statements

  function SetMetadata(t: Tables, key: MetaKey, value: string): Tables {
    t.(metadata := t.metadata[key := value])
  }

  function Metadata(t: Tables, key: MetaKey): string {
    if key in t.metadata then t.metadata[key] else ""
  }

  function RowsAt(documents: Documents, path: string): set<nat> {
    set i | i in documents && documents[i].path == path
  }

  function Children(chunks: Chunks, parents: set<nat>): set<u64> {
    set id | id in chunks && chunks[id].documentId in parents
  }

  /** DELETE FROM documents WHERE relative_path=?: cascades to chunks, whose delete trigger clears
      the full-text rows. */
  function DeleteDocument(t: Tables, path: string): Tables {
    var gone := RowsAt(t.documents, path);
    var orphans := Children(t.chunks, gone);
    t.(documents := t.documents - gone, chunks := t.chunks - orphans, fts := t.fts - orphans)
  }

  /** The row id SQLite assigns: one more than the largest in use. */
  function NextRowId(ids: set<nat>): (n: nat)
    ensures n !in ids && forall i :: i in ids ==> i < n
    ensures if ids == {} then n == 1 else n - 1 in ids
  {
    if ids == {} then 1
    else
      var m := MaxOf(ids);
      m + 1
  }

  function MaxOf(ids: set<nat>): (m: nat)
    requires ids != {}
    ensures m in ids && forall i :: i in ids ==> i <= m
  {
    MaxExists(ids);
    var m :| m in ids && forall i :: i in ids ==> i <= m;
    m
  }

  lemma {:induction false} MaxExists(ids: set<nat>)
    requires ids != {}
    ensures exists m :: m in ids && forall i :: i in ids ==> i <= m
    decreases ids
  {
    var x :| x in ids;
    var rest := ids - {x};
    if rest != {} {
      MaxExists(rest);
      var m :| m in rest && forall i :: i in rest ==> i <= m;
      var top := if x > m then x else m;
      forall i | i in ids ensures i <= top {
        if i != x { assert i in rest; }
      }
    } else {
      assert ids == {x} + rest;
    }
  }

  /** INSERT INTO chunks with its insert trigger. */
  function InsertChunk(t: Tables, documentId: nat, c: Chunk, offset: nat): Tables
    requires documentId in t.documents && c.id !in t.chunks
  {
    var row := ChunkRow(documentId, c.startLine, c.endLine, c.language, "", c.content, c.contentHash, offset);
    t.(chunks := t.chunks[c.id := row],
       fts := t.fts[c.id := FtsRow(t.documents[documentId].path, row.symbol, row.content)])
  }

  /** Tables after the statements that ran; `ok` is false when one violated a constraint. */
  datatype Executed = Executed(ok: bool, tables: Tables)

  function InsertChunks(t: Tables, documentId: nat, chunks: seq<Chunk>, offset: nat): Executed
    requires documentId in t.documents
    decreases |chunks|
  {
    if chunks == [] then Executed(true, t)
    else if chunks[0].id in t.chunks then Executed(false, t)
    else InsertChunks(InsertChunk(t, documentId, chunks[0], offset), documentId, chunks[1..], offset + 1)
  }

  function RowOf(d: StoredDocument): DocumentRow {
    DocumentRow(d.path, d.contentHash, d.sizeBytes, d.modifiedNs, d.parserVersion)
  }

  /** Inserts a document and its chunks. */
  function StoreDocument(t: Tables, d: StoredDocument): Executed {
    var documentId := NextRowId(t.documents.Keys);
    InsertChunks(t.(documents := t.documents[documentId := RowOf(d)]), documentId, d.chunks, 0)
  }

  /** replace_document. */
  function ReplaceDocument(t: Tables, d: StoredDocument, generation: nat): Executed {
    var r := StoreDocument(DeleteDocument(t, d.path), d);
    if r.ok then Executed(true, SetMetadata(r.tables, ActiveVectorGeneration, Decimal.ToString(generation)))
    else r
  }

  /** Opening the database refreshes the full-text rows of all chunks and stamps the schema. */
  function Open(t: Tables): Tables {
    SetMetadata(t.(fts := t.fts + Join(t.documents, t.chunks)), SchemaVersion, "2")
  }

  // ---------------------------------------------------------------- the view

  datatype ChunkView = ChunkView(path: string, startLine: nat, endLine: nat, language: string,
                                 symbol: string, content: string, contentHash: string, offset: nat)

  datatype Logical = Logical(documents: map<string, DocumentRow>, chunks: map<u64, ChunkView>)

  ghost function View(t: Tables): Logical
    requires Consistent(t)
  {
    Logical(DocumentViews(t.documents), ChunkViews(t.documents, t.chunks))
  }

  ghost function DocumentViews(documents: Documents): map<string, DocumentRow>
    requires UniquePaths(documents)
  {
    map p | p in Paths(documents) :: documents[RowId(documents, p)]
  }

  function Paths(documents: Documents): set<string> {
    set i | i in documents :: documents[i].path
  }

  ghost function RowId(documents: Documents, path: string): (i: nat)
    requires path in Paths(documents)
    ensures i in documents && documents[i].path == path
  {
    var i :| i in documents && documents[i].path == path;
    i
  }

  ghost function ChunkViews(documents: Documents, chunks: Chunks): map<u64, ChunkView>
    requires ForeignKeys(documents, chunks)
  {
    map id | id in chunks :: ViewOfRow(documents[chunks[id].documentId].path, chunks[id])
  }

  function ViewOfRow(path: string, r: ChunkRow): ChunkView {
    ChunkView(path, r.startLine, r.endLine, r.language, r.symbol, r.content, r.contentHash, r.offset)
  }

  function Erase(l: Logical, path: string): Logical {
    Logical(l.documents - {path}, WithoutPath(l.chunks, path))
  }

  function WithoutPath(views: map<u64, ChunkView>, path: string): map<u64, ChunkView> {
    map id | id in views && views[id].path != path :: views[id]
  }

  function ChunkViewOf(path: string, c: Chunk, offset: nat): ChunkView {
    ChunkView(path, c.startLine, c.endLine, c.language, "", c.content, c.contentHash, offset)
  }

  /** The rows a document contributes, keyed by chunk id, when numbering starts at `offset`. */
  function RowsOf(path: string, chunks: seq<Chunk>, offset: nat): map<u64, ChunkView> {
    if chunks == [] then map[]
    else RowsOf(path, chunks[1..], offset + 1)[chunks[0].id := ChunkViewOf(path, chunks[0], offset)]
  }

  function Ids(chunks: seq<Chunk>): set<u64> {
    set i | 0 <= i < |chunks| :: chunks[i].id
  }

  predicate DistinctIds(chunks: seq<Chunk>) {
    forall i, j :: 0 <= i < j < |chunks| ==> chunks[i].id != chunks[j].id
  }

  predicate Fresh(chunks: seq<Chunk>, taken: set<u64>) {
    DistinctIds(chunks) && Ids(chunks) !! taken
  }

  /** A document can be stored when its chunk ids are new. */
  predicate Insertable(l: Logical, d: StoredDocument) {
    Fresh(d.chunks, Erase(l, d.path).chunks.Keys)
  }

  function Replace(l: Logical, d: StoredDocument): Logical {
    var e := Erase(l, d.path);
    Logical(e.documents[d.path := RowOf(d)], e.chunks + RowsOf(d.path, d.chunks, 0))
  }

  // ---------------------------------------------------------------- statements act on the view

  lemma {:induction false} DeleteKeepsConstraints(t: Tables, path: string)
    requires Consistent(t)
    ensures Consistent(DeleteDocument(t, path))
  {
    var u := DeleteDocument(t, path);
    var orphans := Children(t.chunks, RowsAt(t.documents, path));
    forall id | id in u.chunks ensures u.chunks[id].documentId in u.documents {
      assert id !in orphans;
    }
    assert u.fts.Keys == Join(u.documents, u.chunks).Keys;
  }

  lemma {:induction false} DeleteActsOnDocuments(documents: Documents, path: string)
    requires UniquePaths(documents)
    ensures UniquePaths(documents - RowsAt(documents, path))
    ensures DocumentViews(documents - RowsAt(documents, path)) == DocumentViews(documents) - {path}
  {
    var rest := documents - RowsAt(documents, path);
    assert Paths(rest) == Paths(documents) - {path} by {
      forall p | p in Paths(documents) && p != path ensures p in Paths(rest) {
        assert RowId(documents, p) in rest;
      }
    }
    forall p | p in Paths(rest) ensures RowId(rest, p) == RowId(documents, p) {
      assert RowId(rest, p) in documents;
    }
  }

  lemma {:induction false} DeleteActsOnChunks(documents: Documents, chunks: Chunks, path: string)
    requires ForeignKeys(documents, chunks)
    ensures var gone := RowsAt(documents, path);
            && ForeignKeys(documents - gone, chunks - Children(chunks, gone))
            && ChunkViews(documents - gone, chunks - Children(chunks, gone))
               == WithoutPath(ChunkViews(documents, chunks), path)
  {
  }

  lemma {:induction false} DeleteRefines(t: Tables, path: string)
    requires Consistent(t)
    ensures Consistent(DeleteDocument(t, path))
    ensures View(DeleteDocument(t, path)) == Erase(View(t), path)
  {
    DeleteKeepsConstraints(t, path);
    DeleteActsOnDocuments(t.documents, path);
    DeleteActsOnChunks(t.documents, t.chunks, path);
  }

  lemma {:induction false} RowsOfKeys(path: string, chunks: seq<Chunk>, offset: nat)
    ensures RowsOf(path, chunks, offset).Keys == Ids(chunks)
  {
    if chunks != [] {
      RowsOfKeys(path, chunks[1..], offset + 1);
      IdsStep(chunks);
    }
  }

  lemma {:induction false} RowsOfPath(path: string, chunks: seq<Chunk>, offset: nat)
    ensures forall id :: id in RowsOf(path, chunks, offset) ==> RowsOf(path, chunks, offset)[id].path == path
    decreases |chunks|
  {
    if chunks != [] { RowsOfPath(path, chunks[1..], offset + 1); }
  }

  lemma {:induction false} IdsStep(chunks: seq<Chunk>)
    requires chunks != []
    ensures Ids(chunks) == {chunks[0].id} + Ids(chunks[1..])
    ensures DistinctIds(chunks) <==> DistinctIds(chunks[1..]) && chunks[0].id !in Ids(chunks[1..])
  {
    var rest := chunks[1..];
    assert forall i :: 0 <= i < |rest| ==> rest[i] == chunks[i + 1];
    forall x | x in Ids(chunks) ensures x in {chunks[0].id} + Ids(rest) {
      var i :| 0 <= i < |chunks| && chunks[i].id == x;
      if i > 0 { assert rest[i - 1].id == x; }
    }
    forall x | x in Ids(rest) ensures x in Ids(chunks) {
      var i :| 0 <= i < |rest| && rest[i].id == x;
      assert chunks[i + 1].id == x;
    }
    if DistinctIds(chunks) {
      forall i | 0 <= i < |rest| ensures rest[i].id != chunks[0].id {
        assert rest[i] == chunks[i + 1];
      }
    }
    if DistinctIds(rest) && chunks[0].id !in Ids(rest) {
      forall i, j | 0 <= i < j < |chunks| ensures chunks[i].id != chunks[j].id {
        assert chunks[j] == rest[j - 1] && rest[j - 1].id in Ids(rest);
        if i > 0 { assert chunks[i] == rest[i - 1]; }
      }
    }
  }

  lemma {:induction false} JoinInsert(documents: Documents, chunks: Chunks, id: u64, row: ChunkRow)
    requires row.documentId in documents
    ensures Join(documents, chunks[id := row])
            == Join(documents, chunks)[id := FtsRow(documents[row.documentId].path, row.symbol, row.content)]
  {
  }

  lemma {:induction false} InsertChunkKeepsConstraints(t: Tables, documentId: nat, c: Chunk, offset: nat)
    requires Consistent(t) && documentId in t.documents && c.id !in t.chunks
    ensures Consistent(InsertChunk(t, documentId, c, offset))
  {
    JoinInsert(t.documents, t.chunks, c.id, InsertChunk(t, documentId, c, offset).chunks[c.id]);
  }

  lemma {:induction false} InsertChunkRefines(t: Tables, documentId: nat, c: Chunk, offset: nat)
    requires Consistent(t) && documentId in t.documents && c.id !in t.chunks
    ensures Consistent(InsertChunk(t, documentId, c, offset))
    ensures ChunkViews(t.documents, InsertChunk(t, documentId, c, offset).chunks)
            == ChunkViews(t.documents, t.chunks)[c.id := ChunkViewOf(t.documents[documentId].path, c, offset)]
  {
    InsertChunkKeepsConstraints(t, documentId, c, offset);
  }

  /** What the chunk loop promises. */
  ghost predicate Inserted(t: Tables, documentId: nat, chunks: seq<Chunk>, offset: nat, r: Executed)
    requires Consistent(t) && documentId in t.documents
  {
    && Consistent(r.tables) && r.tables.documents == t.documents && r.tables.metadata == t.metadata
    && (r.ok <==> Fresh(chunks, t.chunks.Keys))
    && (r.ok ==> ChunkViews(t.documents, r.tables.chunks)
                 == ChunkViews(t.documents, t.chunks) + RowsOf(t.documents[documentId].path, chunks, offset))
  }

  /** The chunk loop fails exactly on a duplicate id; in any case it leaves consistent tables. */
  lemma {:induction false} InsertChunksRefines(t: Tables, documentId: nat, chunks: seq<Chunk>, offset: nat)
    requires Consistent(t) && documentId in t.documents
    ensures Inserted(t, documentId, chunks, offset, InsertChunks(t, documentId, chunks, offset))
    decreases |chunks|
  {
    if chunks == [] {
    } else if chunks[0].id in t.chunks {
      assert chunks[0].id in Ids(chunks);
    } else {
      var u := InsertChunk(t, documentId, chunks[0], offset);
      InsertChunkRefines(t, documentId, chunks[0], offset);
      InsertChunksRefines(u, documentId, chunks[1..], offset + 1);
      InsertedStep(t, u, documentId, chunks, offset, InsertChunks(u, documentId, chunks[1..], offset + 1));
    }
  }

  lemma {:induction false} FreshStep(chunks: seq<Chunk>, taken: set<u64>)
    requires chunks != [] && chunks[0].id !in taken
    ensures Fresh(chunks, taken) <==> Fresh(chunks[1..], taken + {chunks[0].id})
    ensures Fresh(chunks, taken) ==> chunks[0].id !in Ids(chunks[1..])
  {
    IdsStep(chunks);
  }

  lemma {:induction false} InsertedStep(t: Tables, u: Tables, documentId: nat, chunks: seq<Chunk>, offset: nat,
                                        r: Executed)
    requires Consistent(t) && documentId in t.documents && Consistent(u)
    requires chunks != [] && chunks[0].id !in t.chunks
    requires u == InsertChunk(t, documentId, chunks[0], offset)
    requires ChunkViews(t.documents, u.chunks) == ChunkViews(t.documents, t.chunks)[chunks[0].id :=
               ChunkViewOf(t.documents[documentId].path, chunks[0], offset)]
    requires Inserted(u, documentId, chunks[1..], offset + 1, r)
    ensures Inserted(t, documentId, chunks, offset, r)
  {
    FreshStep(chunks, t.chunks.Keys);
    assert u.chunks.Keys == t.chunks.Keys + {chunks[0].id};
    var path := t.documents[documentId].path;
    RowsOfKeys(path, chunks[1..], offset + 1);
    if r.ok {
      UpdateBeforeUnion(ChunkViews(t.documents, t.chunks), RowsOf(path, chunks[1..], offset + 1),
                        chunks[0].id, ChunkViewOf(path, chunks[0], offset));
    }
  }

  lemma {:induction false} UpdateBeforeUnion<K, V>(a: map<K, V>, b: map<K, V>, k: K, v: V)
    requires k !in b
    ensures a[k := v] + b == a + b[k := v]
  {
  }

  lemma {:induction false} InsertDocumentRefines(t: Tables, row: DocumentRow, documentId: nat)
    requires Consistent(t) && documentId !in t.documents
    requires row.path !in View(t).documents
    ensures var u := t.(documents := t.documents[documentId := row]);
            && Consistent(u)
            && View(u) == Logical(View(t).documents[row.path := row], View(t).chunks)
  {
    DocumentViewsInsert(t.documents, row, documentId);
    InsertKeepsChunks(t.documents, t.chunks, row, documentId);
  }

  lemma {:induction false} InsertKeepsChunks(documents: Documents, chunks: Chunks, row: DocumentRow, documentId: nat)
    requires ForeignKeys(documents, chunks) && documentId !in documents
    ensures ForeignKeys(documents[documentId := row], chunks)
    ensures Join(documents[documentId := row], chunks) == Join(documents, chunks)
    ensures ChunkViews(documents[documentId := row], chunks) == ChunkViews(documents, chunks)
  {
  }

  lemma {:induction false} PathsInsert(documents: Documents, row: DocumentRow, documentId: nat)
    requires UniquePaths(documents) && documentId !in documents && row.path !in Paths(documents)
    ensures UniquePaths(documents[documentId := row])
    ensures Paths(documents[documentId := row]) == Paths(documents) + {row.path}
  {
    var more := documents[documentId := row];
    assert forall i :: i in documents ==> documents[i].path in Paths(documents);
    assert more[documentId].path in Paths(more);
    forall p | p in Paths(documents) ensures p in Paths(more) {
      assert more[RowId(documents, p)].path == p;
    }
  }

  lemma {:induction false} DocumentViewsInsert(documents: Documents, row: DocumentRow, documentId: nat)
    requires UniquePaths(documents) && documentId !in documents && row.path !in DocumentViews(documents)
    ensures UniquePaths(documents[documentId := row])
    ensures DocumentViews(documents[documentId := row]) == DocumentViews(documents)[row.path := row]
  {
    var more := documents[documentId := row];
    PathsInsert(documents, row, documentId);
    forall p | p in Paths(more) ensures DocumentViews(more)[p] == DocumentViews(documents)[row.path := row][p] {
      var i := RowId(more, p);
      assert i in documents || i == documentId;
    }
  }

  lemma {:induction false} StoreRefines(t: Tables, d: StoredDocument)
    requires Consistent(t) && d.path !in View(t).documents
    ensures var r := StoreDocument(t, d);
            && Consistent(r.tables) && r.tables.metadata == t.metadata
            && (r.ok <==> Fresh(d.chunks, View(t).chunks.Keys))
            && (r.ok ==> View(r.tables) == Logical(View(t).documents[d.path := RowOf(d)],
                                                   View(t).chunks + RowsOf(d.path, d.chunks, 0)))
  {
    var documentId := NextRowId(t.documents.Keys);
    var u := t.(documents := t.documents[documentId := RowOf(d)]);
    InsertDocumentRefines(t, RowOf(d), documentId);
    InsertChunksRefines(u, documentId, d.chunks, 0);
    StoredFrom(View(t), u, d, documentId, InsertChunks(u, documentId, d.chunks, 0));
  }

  lemma {:induction false} StoredFrom(l: Logical, u: Tables, d: StoredDocument, documentId: nat, r: Executed)
    requires Consistent(u) && documentId in u.documents && u.documents[documentId].path == d.path
    requires View(u) == Logical(l.documents[d.path := RowOf(d)], l.chunks)
    requires Inserted(u, documentId, d.chunks, 0, r)
    ensures Consistent(r.tables) && r.tables.metadata == u.metadata
    ensures r.ok <==> Fresh(d.chunks, l.chunks.Keys)
    ensures r.ok ==> View(r.tables) == Logical(View(u).documents, l.chunks + RowsOf(d.path, d.chunks, 0))
  {
    assert ChunkViews(u.documents, u.chunks) == l.chunks;
    assert u.chunks.Keys == l.chunks.Keys;
  }

  /** replace_document succeeds exactly when the ids are new, and then replaces the document in the
      view; a failed one still leaves consistent tables behind for the rollback. */
  lemma {:induction false} ReplaceRefines(t: Tables, d: StoredDocument, generation: nat)
    requires Consistent(t)
    ensures var r := ReplaceDocument(t, d, generation);
            && Consistent(r.tables)
            && (r.ok <==> Insertable(View(t), d))
            && (r.ok ==> View(r.tables) == Replace(View(t), d))
            && (r.ok ==> r.tables.metadata
                         == t.metadata[ActiveVectorGeneration := Decimal.ToString(generation)])
  {
    DeleteRefines(t, d.path);
    var erased := DeleteDocument(t, d.path);
    StoreRefines(erased, d);
    SetMetadataRefines(StoreDocument(erased, d).tables, ActiveVectorGeneration, Decimal.ToString(generation));
  }

  lemma {:induction false} SetMetadataRefines(t: Tables, key: MetaKey, value: string)
    requires Consistent(t)
    ensures Consistent(SetMetadata(t, key, value)) && View(SetMetadata(t, key, value)) == View(t)
  {
  }

  /** Opening a consistent database changes nothing but the schema stamp. */
  lemma {:induction false} OpenRefines(t: Tables)
    requires Consistent(t)
    ensures Open(t) == SetMetadata(t, SchemaVersion, "2")
    ensures Consistent(Open(t)) && View(Open(t)) == View(t)
  {
    assert t.fts + Join(t.documents, t.chunks) == t.fts;
    SetMetadataRefines(t, SchemaVersion, "2");
  }

  /** Opening a database whose full-text table is stale or partial repairs it exactly when every
      full-text row belongs to a chunk. */
  lemma {:induction false} OpenRepairsFts(t: Tables)
    requires UniquePaths(t.documents) && ForeignKeys(t.documents, t.chunks)
    ensures Consistent(Open(t)) <==> t.fts.Keys <= t.chunks.Keys
  {
    var join := Join(t.documents, t.chunks);
    assert join.Keys == t.chunks.Keys;
    FtsAfterRefresh(t.fts, join);
    assert Consistent(Open(t)) <==> t.fts + join == join;
  }

  /** A full-text row whose chunk is gone: opening leaves it, and the table is not the join. */
  lemma {:induction false} OrphanExample()
    ensures var t := Tables(map[], map[], map[7 := FtsRow("a", "", "x")], map[]);
            && UniquePaths(t.documents) && ForeignKeys(t.documents, t.chunks)
            && 7 in Open(t).fts && 7 !in Join(Open(t).documents, Open(t).chunks) && !Consistent(Open(t))
  {
    var t := Tables(map[], map[], map[7 := FtsRow("a", "", "x")], map[]);
    OpenRepairsFts(t);
    assert 7 in t.fts.Keys && 7 !in t.chunks.Keys;
  }

  lemma {:induction false} FtsAfterRefresh(fts: map<u64, FtsRow>, join: map<u64, FtsRow>)
    ensures fts + join == join <==> fts.Keys <= join.Keys
  {
    assert (fts + join).Keys == fts.Keys + join.Keys;
  }

  // ---------------------------------------------------------------- what the rows hold

  /** The row of a chunk and its full-text row. */
  ghost predicate RowHolds(t: Tables, documentId: nat, path: string, c: Chunk, offset: nat) {
    && c.id in t.chunks
    && t.chunks[c.id]
       == ChunkRow(documentId, c.startLine, c.endLine, c.language, "", c.content, c.contentHash, offset)
    && c.id in t.fts && t.fts[c.id] == FtsRow(path, "", c.content)
  }

  /** What stands under an id is the same in both tables. */
  ghost predicate SameRow(t: Tables, u: Tables, id: u64) {
    && (id in u.chunks <==> id in t.chunks) && (id in t.chunks ==> u.chunks[id] == t.chunks[id])
    && (id in u.fts <==> id in t.fts) && (id in t.fts ==> u.fts[id] == t.fts[id])
  }

  lemma {:induction false} InsertedRows(t: Tables, documentId: nat, path: string, chunks: seq<Chunk>, offset: nat)
    requires documentId in t.documents && t.documents[documentId].path == path
    requires InsertChunks(t, documentId, chunks, offset).ok
    ensures var u := InsertChunks(t, documentId, chunks, offset).tables;
            && u.documents == t.documents && u.metadata == t.metadata
            && (forall i :: 0 <= i < |chunks| ==> RowHolds(u, documentId, path, chunks[i], offset + i))
            && (forall id :: id !in Ids(chunks) ==> SameRow(t, u, id))
            && (forall id :: id in t.chunks ==> id !in Ids(chunks))
    decreases |chunks|
  {
    if chunks != [] {
      var v := InsertChunk(t, documentId, chunks[0], offset);
      InsertedRows(v, documentId, path, chunks[1..], offset + 1);
      IdsStep(chunks);
      var u := InsertChunks(t, documentId, chunks, offset).tables;
      forall i | 0 <= i < |chunks| ensures RowHolds(u, documentId, path, chunks[i], offset + i) {
        if i > 0 {
          assert RowHolds(u, documentId, path, chunks[1..][i - 1], offset + 1 + (i - 1));
        } else {
          assert SameRow(v, u, chunks[0].id);
        }
      }
      forall id | id !in Ids(chunks) ensures SameRow(t, u, id) {
        assert SameRow(v, u, id);
      }
    }
  }

  /** A deleted document leaves no row of its own behind, and every other row as it was. */
  lemma {:induction false} DeletedRows(t: Tables, path: string)
    requires Consistent(t)
    ensures var u := DeleteDocument(t, path);
            && u.metadata == t.metadata
            && (forall i :: i in u.documents <==> i in t.documents && t.documents[i].path != path)
            && (forall i :: i in u.documents ==> u.documents[i] == t.documents[i])
            && (forall id :: id in u.chunks <==> id in t.chunks && t.documents[t.chunks[id].documentId].path != path)
            && (forall id :: id in u.chunks ==> SameRow(t, u, id))
            && u.fts.Keys == u.chunks.Keys
  {
    var gone := RowsAt(t.documents, path);
    var orphans := Children(t.chunks, gone);
    var u := DeleteDocument(t, path);
    assert u.chunks == t.chunks - orphans && u.fts == t.fts - orphans && t.fts.Keys == t.chunks.Keys;
    forall id ensures id in u.chunks <==> id in t.chunks && t.documents[t.chunks[id].documentId].path != path {
      if id in t.chunks {
        assert id in orphans <==> t.chunks[id].documentId in gone;
      }
    }
  }

  /** A replaced document has one row with the given fields, and for each of its chunks, numbered in order, a
      row and a full-text row with the fields of that chunk; every other document and chunk is as it was. */
  lemma {:induction false} ReplacedRows(t: Tables, d: StoredDocument, generation: nat) returns (documentId: nat)
    requires Consistent(t) && ReplaceDocument(t, d, generation).ok
    ensures var u := ReplaceDocument(t, d, generation).tables;
            && documentId in u.documents
            && u.documents[documentId]
               == DocumentRow(d.path, d.contentHash, d.sizeBytes, d.modifiedNs, d.parserVersion)
            && (forall i :: 0 <= i < |d.chunks| ==> RowHolds(u, documentId, d.path, d.chunks[i], i))
            && (forall i :: i in t.documents && t.documents[i].path != d.path ==>
                  i in u.documents && u.documents[i] == t.documents[i])
            && (forall id :: id in t.chunks && t.documents[t.chunks[id].documentId].path != d.path ==>
                  SameRow(t, u, id))
  {
    var v := DeleteDocument(t, d.path);
    DeletedRows(t, d.path);
    documentId := NextRowId(v.documents.Keys);
    var w := v.(documents := v.documents[documentId := RowOf(d)]);
    InsertedRows(w, documentId, d.path, d.chunks, 0);
    var u := ReplaceDocument(t, d, generation).tables;
    forall i | 0 <= i < |d.chunks| ensures RowHolds(u, documentId, d.path, d.chunks[i], i) {
      assert RowHolds(InsertChunks(w, documentId, d.chunks, 0).tables, documentId, d.path, d.chunks[i], 0 + i);
    }
    forall id | id in t.chunks && t.documents[t.chunks[id].documentId].path != d.path ensures SameRow(t, u, id) {
      assert id in v.chunks && SameRow(t, v, id);
      assert SameRow(w, InsertChunks(w, documentId, d.chunks, 0).tables, id);
    }
  }

  // ---------------------------------------------------------------- transactions

  /** A connection: the durable tables, the tables its statements see, and whether a transaction is
      open. Outside a transaction every statement commits by itself. */
  datatype Session = Session(committed: Tables, working: Tables, open: bool)

  datatype Statement = BeginImmediate | Commit | Rollback
                     | EraseDocument(path: string)
                     | PutDocument(document: StoredDocument, generation: nat)
                     | PutMetadata(key: MetaKey, value: string)

  function Write(s: Session, t: Tables): Session {
    if s.open then s.(working := t) else Session(t, t, false)
  }

  function Step(s: Session, st: Statement): Session {
    match st
    case BeginImmediate => if s.open then s else s.(open := true)
    case Commit => if s.open then Session(s.working, s.working, false) else s
    case Rollback => if s.open then Session(s.committed, s.committed, false) else s
    case EraseDocument(path) => Write(s, DeleteDocument(s.working, path))
    case PutDocument(d, generation) => Write(s, ReplaceDocument(s.working, d, generation).tables)
    case PutMetadata(key, value) => Write(s, SetMetadata(s.working, key, value))
  }

  function Run(s: Session, script: seq<Statement>): Session {
    if script == [] then s else Step(Run(s, script[..|script| - 1]), script[|script| - 1])
  }

  ghost predicate SessionConsistent(s: Session) {
    Consistent(s.committed) && Consistent(s.working) && (!s.open ==> s.working == s.committed)
  }

  lemma {:induction false} StepKeepsConsistent(s: Session, st: Statement)
    requires SessionConsistent(s)
    ensures SessionConsistent(Step(s, st))
  {
    match st
    case EraseDocument(path) => DeleteRefines(s.working, path);
    case PutDocument(d, generation) => ReplaceRefines(s.working, d, generation);
    case PutMetadata(key, value) => SetMetadataRefines(s.working, key, value);
    case _ =>
  }

  /** After any script of statements, committed or rolled back, failing or not, the full-text table
      is the join of chunks with documents, in the durable tables and in the open transaction. */
  lemma {:induction false} FtsAlwaysEqualsJoin(s: Session, script: seq<Statement>)
    requires SessionConsistent(s)
    ensures SessionConsistent(Run(s, script))
    ensures Run(s, script).committed.fts == Join(Run(s, script).committed.documents, Run(s, script).committed.chunks)
    ensures Run(s, script).working.fts == Join(Run(s, script).working.documents, Run(s, script).working.chunks)
    decreases |script|
  {
    if script != [] {
      FtsAlwaysEqualsJoin(s, script[..|script| - 1]);
      StepKeepsConsistent(Run(s, script[..|script| - 1]), script[|script| - 1]);
    }
  }

  predicate InsideTransaction(script: seq<Statement>) {
    forall i :: 0 <= i < |script| ==> !script[i].Commit? && !script[i].Rollback?
  }

  /** Nothing inside an open transaction is durable before the commit. */
  lemma {:induction false} NothingDurableBeforeCommit(s: Session, script: seq<Statement>)
    requires s.open && InsideTransaction(script)
    ensures Run(s, script).open && Run(s, script).committed == s.committed
    decreases |script|
  {
    if script != [] {
      NothingDurableBeforeCommit(s, script[..|script| - 1]);
    }
  }

  /** Whatever a transaction did, rolling it back restores the session it began in. */
  lemma {:induction false} RollbackRestores(s: Session, script: seq<Statement>)
    requires SessionConsistent(s) && !s.open && InsideTransaction(script)
    ensures Step(Run(Step(s, BeginImmediate), script), Rollback) == s
  {
    NothingDurableBeforeCommit(Step(s, BeginImmediate), script);
  }

  // ---------------------------------------------------------------- the tables as a value

  /** The database without row ids and full-text rows. */
  datatype Database = Database(view: Logical, metadata: map<MetaKey, string>)

  const EMPTY_DATABASE := Database(Logical(map[], map[]), map[])

  const EMPTY_TABLES := Tables(map[], map[], map[], map[])

  lemma {:induction false} EmptyTablesStand()
    ensures StandsFor(EMPTY_TABLES, EMPTY_DATABASE)
  {
    var t := EMPTY_TABLES;
    NoDocuments(t.documents);
    NoChunks(t.documents, t.chunks);
    assert Consistent(t);
    assert Abstract(t) == EMPTY_DATABASE;
  }

  lemma {:induction false} NoDocuments(documents: Documents)
    requires documents.Keys == {}
    ensures UniquePaths(documents) && DocumentViews(documents) == map[]
  {
    assert Paths(documents) == {};
  }

  lemma {:induction false} NoChunks(documents: Documents, chunks: Chunks)
    requires chunks.Keys == {}
    ensures ForeignKeys(documents, chunks) && Join(documents, chunks) == map[] && ChunkViews(documents, chunks) == map[]
  {
  }

  ghost function Abstract(t: Tables): Database
    requires Consistent(t)
  {
    Database(View(t), t.metadata)
  }

  /** One statement of a transaction on rows; None is a constraint violation. */
  function Execute(t: Tables, st: Statement): Option<Tables> {
    match st
    case EraseDocument(path) => Some(DeleteDocument(t, path))
    case PutDocument(d, g) => var r := ReplaceDocument(t, d, g); if r.ok then Some(r.tables) else None
    case PutMetadata(key, value) => Some(SetMetadata(t, key, value))
    case _ => None
  }

  /** The same statement on the abstract database. */
  function Apply(db: Database, st: Statement): Option<Database> {
    match st
    case EraseDocument(path) => Some(db.(view := Erase(db.view, path)))
    case PutDocument(d, g) =>
      if Insertable(db.view, d)
      then Some(Database(Replace(db.view, d), db.metadata[ActiveVectorGeneration := Decimal.ToString(g)]))
      else None
    case PutMetadata(key, value) => Some(db.(metadata := db.metadata[key := value]))
    case _ => None
  }

  function ExecuteAll(t: Tables, script: seq<Statement>): Option<Tables> {
    if script == [] then Some(t)
    else
      match ExecuteAll(t, script[..|script| - 1])
      case None => None
      case Some(u) => Execute(u, script[|script| - 1])
  }

  function ApplyAll(db: Database, script: seq<Statement>): Option<Database> {
    if script == [] then Some(db)
    else
      match ApplyAll(db, script[..|script| - 1])
      case None => None
      case Some(u) => Apply(u, script[|script| - 1])
  }

  /** The tables are consistent and stand for this database. */
  ghost predicate StandsFor(t: Tables, db: Database) {
    Standing()(t, db)
  }

  ghost function Standing(): (Tables, Database) -> bool {
    (t: Tables, db: Database) => Consistent(t) && Abstract(t) == db
  }

  /** Rows `r` and abstract outcome `a` of the same statements agree. */
  ghost predicate Agrees(r: Option<Tables>, a: Option<Database>) {
    && (r.Some? <==> a.Some?)
    && (r.Some? ==> Consistent(r.value) && Abstract(r.value) == a.value)
  }

  lemma {:induction false} StatementRefines(t: Tables, db: Database, st: Statement)
    requires Consistent(t) && Abstract(t) == db
    ensures Agrees(Execute(t, st), Apply(db, st))
  {
    match st
    case EraseDocument(path) => DeleteRefines(t, path);
    case PutDocument(d, g) => ReplaceRefines(t, d, g);
    case PutMetadata(key, value) => SetMetadataRefines(t, key, value);
    case _ =>
  }

  /** Every script acts on rows, constraints, cascades and triggers exactly as on the abstract
      database, including which statement fails. */
  lemma {:induction false} ScriptRefines(t: Tables, script: seq<Statement>)
    requires Consistent(t)
    ensures Agrees(ExecuteAll(t, script), ApplyAll(Abstract(t), script))
    decreases |script|
  {
    if script != [] {
      var init, last := script[..|script| - 1], script[|script| - 1];
      ScriptRefines(t, init);
      if ExecuteAll(t, init).Some? {
        StatementRefines(ExecuteAll(t, init).value, ApplyAll(Abstract(t), init).value, last);
      }
    }
  }

  predicate WritesOnly(script: seq<Statement>) {
    forall i :: 0 <= i < |script| ==> !script[i].BeginImmediate? && !script[i].Commit? && !script[i].Rollback?
  }

  lemma {:induction false} RunInside(s: Session, script: seq<Statement>)
    requires s.open && WritesOnly(script) && ExecuteAll(s.working, script).Some?
    ensures Run(s, script) == s.(working := ExecuteAll(s.working, script).value)
    decreases |script|
  {
    if script != [] {
      var init, last := script[..|script| - 1], script[|script| - 1];
      assert forall i :: 0 <= i < |init| ==> init[i] == script[i];
      RunInside(s, init);
    }
  }

  /** A transaction whose statements go through makes exactly their result durable by its commit. */
  lemma {:induction false} CommitMakesDurable(s: Session, script: seq<Statement>)
    requires SessionConsistent(s) && !s.open && WritesOnly(script) && ExecuteAll(s.committed, script).Some?
    ensures var t := ExecuteAll(s.committed, script).value;
            Step(Run(Step(s, BeginImmediate), script), Commit) == Session(t, t, false)
  {
    RunInside(Step(s, BeginImmediate), script);
  }

  /** Outside a transaction a statement that goes through is durable at once. */
  lemma {:induction false} AloneIsDurable(s: Session, st: Statement)
    requires SessionConsistent(s) && !s.open && Execute(s.committed, st).Some?
    ensures Step(s, st) == Session(Execute(s.committed, st).value, Execute(s.committed, st).value, false)
  {
  }

  /** replace_document when SQLite refuses statement number `fault`: the delete is number 0, the document
      row 1, the chunk rows follow, the metadata comes last. */
  function Attempt(t: Tables, d: StoredDocument, generation: nat, fault: Option<nat>): Executed {
    if fault.None? || fault.value > |d.chunks| + 2 then ReplaceDocument(t, d, generation)
    else if fault.value == 0 then Executed(false, t)
    else if fault.value == 1 then Executed(false, DeleteDocument(t, d.path))
    else
      var r := StoreDocument(DeleteDocument(t, d.path), d.(chunks := d.chunks[..fault.value - 2]));
      Executed(false, r.tables)
  }

  /** Wherever it stops, the tables stay consistent; without a refusal it stops only at a repeated id. */
  lemma {:induction false} AttemptStaysConsistent(t: Tables, d: StoredDocument, generation: nat, fault: Option<nat>)
    requires Consistent(t)
    ensures Consistent(Attempt(t, d, generation, fault).tables)
    ensures Attempt(t, d, generation, fault).ok <==>
            Insertable(View(t), d) && (fault.None? || fault.value > |d.chunks| + 2)
  {
    if fault.None? || fault.value > |d.chunks| + 2 {
      ReplaceRefines(t, d, generation);
    } else if fault.value == 1 {
      DeleteRefines(t, d.path);
    } else if fault.value >= 2 {
      StoreAfterDelete(t, d.(chunks := d.chunks[..fault.value - 2]));
    }
  }

  lemma {:induction false} StoreAfterDelete(t: Tables, d: StoredDocument)
    requires Consistent(t)
    ensures Consistent(StoreDocument(DeleteDocument(t, d.path), d).tables)
  {
    DeleteRefines(t, d.path);
    StoreRefines(DeleteDocument(t, d.path), d);
  }

  class SqliteChunkRepository {
    var committed: Tables
    var working: Tables
    var inTransaction: bool

    ghost function View(): Session
      reads this
    {
      Session(committed, working, inTransaction)
    }

    constructor (stored: Tables)
      ensures View() == Session(Open(stored), Open(stored), false)
    {
      committed, working, inTransaction := Open(stored), Open(stored), false;
    }

    /** Runs one statement: durable at once unless a transaction is open. */
    method Execute(t: Tables)
      modifies this
      ensures View() == Write(old(View()), t)
    {
      working := t;
      if !inTransaction {
        committed := t;
      }
    }

    method Begin() returns (ok: bool)
      modifies this
      ensures ok == !old(inTransaction) && View() == Step(old(View()), BeginImmediate)
    {
      ok := !inTransaction;
      inTransaction := true;
    }

    method Commit() returns (ok: bool)
      modifies this
      ensures ok == old(inTransaction) && View() == Step(old(View()), Statement.Commit)
    {
      ok := inTransaction;
      if inTransaction {
        committed, inTransaction := working, false;
      }
    }

    method Rollback()
      modifies this
      ensures View() == Step(old(View()), Statement.Rollback)
    {
      if inTransaction {
        working, inTransaction := committed, false;
      }
    }

    method EraseDocument(path: string)
      modifies this
      ensures View() == Step(old(View()), Statement.EraseDocument(path))
    {
      Execute(DeleteDocument(working, path));
    }

    method SetMetadata(key: MetaKey, value: string)
      modifies this
      ensures View() == Step(old(View()), PutMetadata(key, value))
    {
      Execute(working.(metadata := working.metadata[key := value]));
    }

    /** replace_document, statement by statement. A repeated chunk id ends it with an exception, and so
        does statement number `fault`, if any, that SQLite refuses for a reason of its own. */
    method ReplaceDocument(d: StoredDocument, generation: nat, fault: Option<nat>) returns (ok: bool)
      requires !inTransaction ==> working == committed
      modifies this
      ensures ok == Attempt(old(working), d, generation, fault).ok
      ensures View() == Write(old(View()), Attempt(old(working), d, generation, fault).tables)
      ensures fault.None? ==> View() == Step(old(View()), PutDocument(d, generation))
    {
      if fault == Some(0) {
        return false;
      }
      Execute(DeleteDocument(working, d.path));
      if fault == Some(1) {
        return false;
      }
      var documentId := NextRowId(working.documents.Keys);
      Execute(working.(documents := working.documents[documentId := RowOf(d)]));
      var limit := if fault.Some? then Min(fault.value - 2, |d.chunks|) else |d.chunks|;
      assert limit == |d.chunks| ==> d.chunks[..limit] == d.chunks;
      ok := StoreChunks(documentId, d.chunks[..limit]);
      if ok && fault.Some? && fault.value <= |d.chunks| + 2 {
        return false;
      }
      if ok {
        SetMetadata(ActiveVectorGeneration, Decimal.ToString(generation));
      }
    }

    /** The chunk loop of replace_document. */
    method StoreChunks(documentId: nat, chunks: seq<Chunk>) returns (ok: bool)
      requires documentId in working.documents
      requires !inTransaction ==> working == committed
      modifies this
      ensures View() == Write(old(View()), InsertChunks(old(working), documentId, chunks, 0).tables)
      ensures ok == InsertChunks(old(working), documentId, chunks, 0).ok
    {
      var offset := 0;
      assert chunks[0..] == chunks;
      while offset < |chunks|
        invariant 0 <= offset <= |chunks| && documentId in working.documents
        invariant View() == Write(old(View()), working)
        invariant InsertChunks(old(working), documentId, chunks, 0)
                  == InsertChunks(working, documentId, chunks[offset..], offset)
      {
        var chunk := chunks[offset];
        if chunk.id in working.chunks {
          return false;
        }
        assert chunks[offset..][1..] == chunks[offset + 1..];
        Execute(InsertChunk(working, documentId, chunk, offset));
        offset := offset + 1;
      }
      return true;
    }
  }
}
