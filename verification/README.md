# LlamaCodeLab in Dafny

A Dafny 4.11 model of the parts of LlamaCodeLab that are its own algorithms and protocols, with
proofs of what they promise. `dafny verify dfyconfig.toml` checks everything.

| file | what it models |
|---|---|
| `SqliteRepository.dfy` | the chunk repository: rows, constraints, cascade deletes, full-text triggers, transactions |
| `VectorFile.dfy` | the binary vector file, byte by byte |
| `IndexUpdate.dfy`, `IndexRebuild.dfy` | the incremental update against a reference: tables and vectors are exactly those of the contents |
| `IndexMeaning.dfy` | what that reference says about one chunk, read from the answers of chunker and embedder alone |
| `IndexCrash.dfy`, `IndexRuns.dfy` | the update as a step machine over durable and volatile state, with exceptions and crashes anywhere |
| `IndexRows.dfy` | the same behaviours over the rows of the repository |
| `IndexCommitted.dfy` | what a commit leaves: vector records, document rows, metadata, and when there is a new generation |
| `IndexAccepted.dfy` | which contents can be published, and that the embedder of the source leaves none out |
| `IndexCollisions.dfy`, `SourceFiles.dfy` | what a shared chunk id costs, for files the scan hands over |
| `IndexService.dfy` | the update as a method that mutates database, files and handle, every action a step of that machine |
| `TextChunker.dfy`, `IndexChunking.dfy` | line splitting, windows, chunk keys, and what they give the index |
| `LexicalPath.dfy` | lexical normalization of paths and the test for paths outside the repository |
| `Utf8Stream.dfy` | streaming UTF-8 repair against the grammar of section 4 of RFC 3629 |
| `GenerationQueue.dfy` | the bounded queue as interleaved atomic steps |
| `Ranking.dfy`, `BruteForceIndex.dfy`, `RankFusion.dfy`, `Evaluation.dfy` | search order, the brute-force index, reciprocal rank fusion, retrieval metrics |
| `EmbedBatches.dfy` | packing, filling and reading embedding batches |
| `GitIgnore.dfy` | the glob table, ignore rules and their cache |
| `StableHash.dfy` | 64-bit FNV-1a and its hexadecimal text |
| `ContextBudget.dfy`, `ChatPrompt.dfy` | the two prompt builders |
| `Base.dfy`, `Decimal.dfy` | shared types, decimal text |

## How the index is modelled

Durable state is the committed database and the files by name; volatile state is the update in flight,
the open transaction and the published snapshot. A step is one action a process can die after: removing
one temporary file, writing any prefix of the temporary vector file, the rename, one statement, the
commit, the publication. Abort (an exception) and crash are possible in every state.

`Coherent(env, tables, vectors, contents)` is the independent reference: every file is stored with its
hash and exactly the chunks of indexing it from scratch, every chunk has exactly its embedding, and
nothing else is there. `IndexMeaning.CoherentMeans` reads it off chunker and embedder: the k-th vector the
embedder answers for the chunk contents of a file belongs to the k-th chunk. The proof goes from rows to the abstract database (`ScriptRefines`), from the
loop of the update to coherence (`UpdateCoherent`), from one step to the invariant (`NextInv`), and
from there to whole behaviours (`IndexRuns`). `IndexService.Service` is the imperative form: it keeps
the trace of its own states as a ghost field and proves each action to be a step. Errors of the disk and
of SQLite enter it as a parameter that says where the first one strikes.

Assumptions, all stated in `GoodConfig` or as parameters:

- One updater at a time, and the repository does not change during an update.
- Content hash, chunker and embedder are arbitrary functions that stay fixed. Chunker and embedder may fail,
  which ends the update before a durable write, and the embedder may return any bit patterns.
- The content hash does not collide on two contents of one path that occur, and chunk ids of different
  files that occur are apart. `IndexChunking.IdAssumptionHolds` gives the second from the absence of 64-bit
  collisions between keys that occur, and `VectorIdsExact` says exactly what happens without it.
- Steps take effect in program order: process crashes are covered, power loss is not, because the
  directory is not synced after the rename.

## Results that limit what the source promises

- `IndexCollisions.SomeUpdateLosesVector`: vectors of removed documents are erased after the new ones are
  inserted, so a new chunk that reuses such an id is stored without a vector. Whatever the hash, two such
  files exist.
- `IndexService.NotFiniteIsCommitted`, `IndexService.RefusedForever`: the vector file takes components that
  are not finite, the snapshot does not. With an embedder that answers such a vector it is committed, and
  that update and every later one over the same contents throw. Only another `IEmbedder` than the one of
  the repository can do so: `LlamaEmbedder` normalizes what it returns, and `EmbedManyAnswersAccepted` with
  `CommittedAreAccepted` shows that with it the case cannot arise.
- `Evaluation.RepetitionScoresAboveOne`: a ranking that repeats an id can score above 1.
- `TextChunker.WrapExample`: `start + max_lines` can wrap for options that validation accepts.
- `ContextBudget.WrapExample`: `reserved + safety` can wrap past the check that should refuse it.
- `TextChunker.NoOverlapExample`: a window that ends within the first `overlap_lines` lines of the file is not
  overlapped by the next one, although `overlap_lines` asks for it.
- `LexicalPath.ParentIsAccepted`: the chunker promises to refuse paths outside the repository, and accepts
  those that lead exactly to its parent.
- `SqliteRepository.OrphanExample`: the refresh on opening does not remove full-text rows without a chunk.

The exact conditions under which the code keeps these promises are `VectorIdsExact`, `Service.Update`,
`UnitExactlyWhenDistinct`, `PlanExact` (with `LimitsInPractice`), `NeverCutExactly`,
`LexicalPath.AcceptedExactly`, `OpenRepairsFts`, and for the overlap `PlanOverlaps`.

## Model

| member | source | states |
|---|---|---|
| `IndexRuns.CommittedGenerationIsComplete` | src/application/index_service.cpp:102-252 | in every state of every behaviour, with a crash or exception between any two steps of any sequence of updates, a committed generation other than 0 names a vector file that reads back completely, carries the configured model, and holds exactly the committed chunk ids; tables and vectors are those of the last committed contents, whole |
| `IndexCommitted.CommittedMeans` | src/application/index_service.cpp:102-252 | in every state of every run the committed tables and vectors hold each file of the last committed contents in that sense, each chunk with its own embedding |
| `IndexCommitted.CommittedRecord` | src/application/index_service.cpp:211-220 | in every state of every run the committed vector file has, for chunk j of a committed file, a record with that chunk's id and the j-th vector the embedder answers for the file |
| `IndexRuns.OldOrNew` | src/application/index_service.cpp:206-240 | no step changes part of what a reader of the disk sees: every step but the commit leaves all of it, and the commit replaces all of it by the new contents, the next generation and the planned vectors |
| `IndexRuns.RunInvariant` | src/application/index_service.cpp:71-269 | every state of every behaviour satisfies the machine invariant: the disk is complete, and the plan, the temporary file, the renamed file and the open transaction are what the update in flight made them |
| `IndexRuns.SnapshotIsCommitted` | src/application/index_service.cpp:253-268 | the snapshot a successful update publishes is the vector map of the committed generation, and its ids are the committed chunk ids |
| `IndexRuns.RunEqualsRebuild` | src/application/index_service.cpp:119-209 | incremental equals rebuild: after any history, indexing the last committed contents into an empty data directory goes through, in any scan order, and gives the same documents, chunks and vectors (modification times aside) |
| `IndexRuns.UnchangedContentsKeepGeneration` | src/application/index_service.cpp:206-207 | an update over the committed contents plans no replacement and no removal, embeds nothing and keeps generation and vectors |
| `IndexCommitted.GenerationKeptExactly` | src/application/index_service.cpp:206-209 | an update keeps the generation if and only if there is one and the scanned contents are the committed ones |
| `IndexCommitted.CommitStamps` | src/application/index_service.cpp:230-235 | the metadata a commit leaves, value by value, and that from then on another configuration passes the model and dimension checks if and only if its hash and dimension are these |
| `IndexCommitted.CommitWritesRows` | src/application/index_service.cpp:188-229 | the document row of each scanned file after a commit: the old row if its hash is unchanged, otherwise one with the new hash, size and modification time |
| `IndexCrash.NextInv` | src/application/index_service.cpp:71-269 | each of the fourteen step kinds (start, clean, open, plan, skip, create, write any prefix, rename, begin, statement, commit, publish, abort, crash) keeps the invariant |
| `IndexCrash.CommitCompletes` | src/application/index_service.cpp:222-236 | when the statements go through, the working tables carry the next generation, whose file loads as the planned vectors, and tables and vectors are those of the scanned contents |
| `IndexCrash.SkipCompletes` | src/application/index_service.cpp:206-207 | when nothing is to be replaced or removed, the disk already holds the scanned contents |
| `IndexCrash.ScriptResult` | src/application/index_service.cpp:224-235 | what the transaction script does to the abstract database, and that it fails exactly when a replacement cannot be stored |
| `IndexCrash.FilesFaithful` | src/application/index_service.cpp:140-145 | with hashes that do not collide on the contents that occur, a document that counts as unchanged has its old content and no new chunk takes the id of a removed document |
| `IndexCrash.StorableExactly` | src/application/index_service.cpp:222-229 | an incremental update goes through: from a complete disk the planned replacements can be stored if and only if no replaced file repeats a chunk id of its own |
| `IndexCrash.OpenRefinesRows` | src/adapters/sqlite/sqlite_chunk_repository.cpp:85-88 | opening the row-level database is the opening step of the machine |
| `IndexRows.RowsAlwaysConsistent` | src/adapters/sqlite/sqlite_chunk_repository.cpp:59-152 | the same behaviours over rows: in every state of every run, with exceptions and crashes anywhere, the durable rows satisfy every constraint, their full-text table equals the join of chunks with documents, and they stand for the database of the machine; so do the rows of an open transaction |
| `IndexUpdate.UpdateCoherent` | src/application/index_service.cpp:137-229 | from tables and vectors that are exactly those of the old contents, the update reaches exactly those of the scanned contents |
| `IndexUpdate.CoherentIsUnique` | src/application/index_service.cpp:119-194 | contents determine documents, chunks and vectors: two coherent states over the same contents are equal, modification times aside |
| `IndexMeaning.CoherentMeans` | src/application/index_service.cpp:119-194 | what it means that tables and vectors are those of the contents, in terms of hash, chunker and embedder alone and in both directions: a document row for each path and no other; for the k-th chunk the chunker makes of a file, a row with its path, lines, language, content, hash and offset k, and under its id the k-th vector the embedder answers for the chunk contents; no other chunk and no other vector |
| `IndexMeaning.ChunksAndVectors` | src/application/index_service.cpp:178-193 | for each file: the chunks its chunker answers, the vectors the embedder answers for their contents, as many of them, and under the id of chunk i vector i and a row with the fields of chunk i |
| `IndexUpdate.ScanCoherent` | src/application/index_service.cpp:137-194 | the loop over the scanned files: after n files the replaced tables and the vector map, less what removals will take, are those of the kept contents plus the first n files |
| `IndexUpdate.VectorIdsExact` | src/application/index_service.cpp:195-229 | without any hash assumption: the vector map misses exactly the stored ids that also belonged to a removed document, so vector ids and chunk ids agree if and only if no new chunk reuses such an id |
| `IndexUpdate.SharedIdLosesVector` | src/application/index_service.cpp:195-229 | if chunks of two files share an id, replacing the one file by the other goes through, stores the shared chunk and leaves it without a vector |
| `IndexCollisions.SomeUpdateLosesVector` | src/application/index_service.cpp:195-229 | with the chunker of the source, for every hash, all valid options and any embedder that answers: two C sources in the repository exist such that indexing the first and then replacing it by the second stores a chunk without a vector |
| `IndexCollisions.SomeIdIsShared` | src/adapters/filesystem/text_chunker.cpp:120-126 | a 64-bit id cannot tell 2^64 + 1 paths apart: for every hash there are two different paths the scan hands over, in normal form and with a C extension, whose one-line files get the same chunk id |
| `SourceFiles.ExtensionIsSuffix` | src/adapters/filesystem/file_scanner.cpp:164-180 | a file has an extension exactly when its name is that suffix after a non-empty stem |
| `SourceFiles.CFileIsIndexed` | src/adapters/filesystem/file_scanner.cpp:164-180 | every name that ends in .c after a non-empty stem is a C source, so the scan hands it over |
| `IndexUpdate.CountersExact` | src/application/index_service.cpp:137-194 | the files counted as added are exactly those whose path has no document, those counted as kept exactly the unchanged ones, and the rest is changed; embedded chunks are those of the replacements; nothing is replaced exactly when every file is unchanged, and then the vectors stay |
| `IndexCommitted.EmbeddedExactly` | src/application/index_service.cpp:183-187 | the number of embedded chunks is the number of places in the chunks of new and changed files |
| `IndexRebuild.RebuildAgrees` | src/application/index_service.cpp:119-209 | a coherent state equals the result of one update from an empty data directory on the same contents, which is proved to go through |
| `IndexRebuild.ScanFiles` | src/application/index_service.cpp:137-194 | the file loop with its vector map, replacement list and counters computes the scan function |
| `IndexRebuild.DropRemoved` | src/application/index_service.cpp:195-205 | the loop over the old documents, in any order, erases exactly the ids of removed documents and lists each removed path once |
| `IndexService.Service.Update` | src/application/index_service.cpp:71-269 | the whole update, whatever fault strikes: it reaches its commit, or finds nothing to commit, if and only if every chunker and embedder call answers, the new vectors fit the file format, no file repeats a chunk id and no fault hits an operation it performs; then tables and vectors hold each scanned file with its own chunks, and each chunk with the vector the embedder answers at its place; the generation stays if there is one and the contents are the committed ones, and else grows by one; it returns if and only if the embeddings of these contents are finite and of the dimension, always so with an embedder that answers only such, and the index it then publishes holds exactly these embeddings; if it does not complete, database, generation, vectors and handle are those before; what it reports is exact |
| `IndexService.Service.Search` | src/adapters/vector/brute_force_index.cpp:55-76 | a search on the published snapshot lists the k best of the chunks of the contents it was made from, or throws exactly on a bad query with k positive |
| `IndexService.AnswersAreUnique` | src/adapters/vector/brute_force_index.cpp:55-76 | contents, query and k determine the answer, whatever updates led to the contents |
| `IndexService.AnswersMean` | src/adapters/vector/brute_force_index.cpp:55-76 | each hit of an answer is a chunk of some file of the contents and scores the query against the vector the embedder answers for that chunk; better hits come first and equal ones by id; a chunk is left out only when k better ones are listed |
| `IndexService.PublishableExactly` | src/application/index_service.cpp:253-268 | whether a completed update can publish is decided by the embeddings of the scanned contents alone, not by its history; an embedder that answers only finite vectors of the dimension leaves nothing to decide |
| `IndexAccepted.AcceptedExactly` | src/application/index_service.cpp:119-194 | in tables and vectors that are those of the contents, every vector passes the tests of the snapshot if and only if every embedding of the contents does |
| `IndexAccepted.CommittedAcceptedExactly` | src/application/index_service.cpp:206-268 | the same for the committed vectors of every state of every run, with exceptions and crashes anywhere |
| `IndexAccepted.CommittedAreAccepted` | src/application/index_service.cpp:206-268 | with an embedder that answers only finite vectors of the dimension, every committed vector of every state of every run passes the tests of the snapshot |
| `IndexAccepted.EmbedManyAnswersAccepted` | src/domain/similarity.cpp:18-33 | the embedder of the source is such an embedder, because normalization throws on what is not finite |
| `IndexService.Service.CleanAndOpen` | src/application/index_service.cpp:72-78 | only temporary files go and every other file stays bit for bit; when it succeeds no temporary file is left and the database is opened; a fault after n removals leaves the other temporary files |
| `IndexService.Service.RemoveTemporary` | src/application/index_service.cpp:73-77 | the removal loop, cut off after any number of removals |
| `IndexService.Service.Prepare` | src/application/index_service.cpp:90-205 | everything before the first durable write: it fails exactly on a fault of reading or when a chunker or embedder call fails, and otherwise gives the plan that follows from the disk; nothing durable changes |
| `IndexService.Service.Diff` | src/application/index_service.cpp:72-205 | clean-up, opening and planning together: what a reader of the disk sees stays the same, and a plan is made exactly when no fault strikes and the scan goes through |
| `IndexService.Service.WriteVectors` | src/application/index_service.cpp:209-220 | the new generation file is written under a temporary name and renamed; it succeeds exactly when the records are writable and create, write, flush, sync and rename go through, and no reader of the disk sees anything before the commit |
| `IndexService.Service.RunTransaction` | src/application/index_service.cpp:222-240 | the statements one by one and the commit: all of the script or nothing; it succeeds exactly when the script applies and neither begin, a statement nor the commit is refused |
| `IndexService.Service.Switch` | src/application/index_service.cpp:208-240 | the write path succeeds exactly when the vectors fit the format, no file repeats a chunk id and no fault hits it, and then tables, generation and vector file are the new ones together; otherwise a reader of the disk sees what was there before |
| `IndexService.Service.Finish` | src/application/index_service.cpp:206-268 | the rest of the update: the scanned contents are committed exactly when the write path completes, and the handle changes exactly when the snapshot takes every vector too |
| `IndexService.Service.KeepGeneration` | src/application/index_service.cpp:206-207 | the path without change writes nothing durable |
| `IndexService.Service.PublishSnapshot` | src/application/index_service.cpp:253-268 | builds the snapshot by upserts and publishes it if and only if every planned vector has the dimension and is finite; otherwise it throws after the commit with the old handle in place |
| `IndexService.BuildSnapshot` | src/application/index_service.cpp:262-266 | a fresh index loaded in any order holds exactly the vector map; throws if and only if some vector is refused |
| `IndexService.NotFiniteIsCommitted` | src/application/index_service.cpp:206-268 | the file format takes what the snapshot refuses: with an embedder that answers any vector that is not finite, the first update over a one-chunk file reaches its commit and cannot publish |
| `IndexService.NotANumberIsWritten` | src/adapters/vector/vector_file.cpp:76-114 | with an embedder that answers a not-a-number, the first update over a one-chunk file commits it and throws |
| `IndexService.RefusedForever` | src/application/index_service.cpp:206-268 | once a refused vector is committed, every later update over the same contents completes and throws |
| `IndexService.WritableExactly` | src/adapters/vector/vector_file.cpp:76-107 | whether a vector map can be written does not depend on the order of its records: dimensions must match and the size must fit 64 bits |
| `SqliteRepository.FtsAlwaysEqualsJoin` | src/adapters/sqlite/sqlite_chunk_repository.cpp:60-87 | after any script of replacements, erasures and metadata writes, with commits and rollbacks and failing statements, the full-text table equals the join of chunks with documents, in the durable and in the working tables |
| `SqliteRepository.RollbackRestores` | src/adapters/sqlite/sqlite_chunk_repository.cpp:94-105 | whatever a transaction did, rolling it back restores the session it began in |
| `SqliteRepository.NothingDurableBeforeCommit` | src/adapters/sqlite/sqlite_chunk_repository.cpp:94-99 | no statement inside an open transaction changes the durable tables |
| `SqliteRepository.CommitMakesDurable` | src/adapters/sqlite/sqlite_chunk_repository.cpp:94-99 | a transaction whose statements go through makes exactly their result durable by its commit |
| `SqliteRepository.AloneIsDurable` | src/adapters/sqlite/sqlite_chunk_repository.cpp:107-152 | outside a transaction a statement that goes through is durable at once |
| `SqliteRepository.DeleteRefines` | src/adapters/sqlite/sqlite_chunk_repository.cpp:148-152 | deleting a document with cascade and triggers keeps all constraints and removes exactly that path and its chunks from the view |
| `SqliteRepository.InsertChunksRefines` | src/adapters/sqlite/sqlite_chunk_repository.cpp:124-144 | the chunk loop with its insert trigger fails exactly on a repeated id and otherwise adds exactly these chunks; the tables stay consistent either way |
| `SqliteRepository.ReplaceRefines` | src/adapters/sqlite/sqlite_chunk_repository.cpp:107-146 | replace_document succeeds exactly when its chunk ids are new, and then acts on the view as a replacement of one document; a failed one leaves consistent tables |
| `SqliteRepository.ReplacedRows` | src/adapters/sqlite/sqlite_chunk_repository.cpp:107-146 | what a replacement leaves, row by row: one document row with the given fields, for each chunk in order a chunk row and a full-text row with its fields, and all rows of other documents as they were |
| `SqliteRepository.DeletedRows` | src/adapters/sqlite/sqlite_chunk_repository.cpp:148-152 | what a deletion leaves: exactly the rows of the other documents, unchanged, and full-text rows for exactly the chunks left |
| `SqliteRepository.OpenRefines` | src/adapters/sqlite/sqlite_chunk_repository.cpp:59-88 | opening a consistent database changes nothing but the schema stamp |
| `SqliteRepository.OpenRepairsFts` | src/adapters/sqlite/sqlite_chunk_repository.cpp:85-87 | the refresh on opening repairs a stale full-text table if and only if every full-text row belongs to a chunk |
| `SqliteRepository.OrphanExample` | src/adapters/sqlite/sqlite_chunk_repository.cpp:85-87 | a database with a full-text row whose chunk is gone: opening leaves the row there |
| `SqliteRepository.StatementRefines` | src/adapters/sqlite/sqlite_chunk_repository.cpp:107-152 | each statement acts on rows, constraints, cascades and triggers as on the abstract database, including whether it fails |
| `SqliteRepository.ScriptRefines` | src/adapters/sqlite/sqlite_chunk_repository.cpp:94-152 | the same for every script |
| `SqliteRepository.SqliteChunkRepository.ReplaceDocument` | src/adapters/sqlite/sqlite_chunk_repository.cpp:107-146 | statement by statement: it stops at a repeated chunk id or at the statement SQLite refuses, with the tables of what was executed; without a refusal it is the session step |
| `SqliteRepository.AttemptStaysConsistent` | src/adapters/sqlite/sqlite_chunk_repository.cpp:107-146 | wherever replace_document stops, all constraints hold and the full-text table equals the join; it succeeds exactly when the ids are new and no statement is refused |
| `SqliteRepository.SqliteChunkRepository.StoreChunks` | src/adapters/sqlite/sqlite_chunk_repository.cpp:127-144 | the chunk loop inserts up to the first repeated id |
| `SqliteRepository.SqliteChunkRepository.EraseDocument` | src/adapters/sqlite/sqlite_chunk_repository.cpp:148-152 | the object's erase_document is the session step |
| `SqliteRepository.SqliteChunkRepository.Begin` | src/adapters/sqlite/sqlite_chunk_repository.cpp:94-96 | begin is the session step, and fails exactly inside a transaction |
| `SqliteRepository.SqliteChunkRepository.Commit` | src/adapters/sqlite/sqlite_chunk_repository.cpp:97-99 | the object's commit is the session step |
| `SqliteRepository.SqliteChunkRepository.Rollback` | src/adapters/sqlite/sqlite_chunk_repository.cpp:100-105 | the object's rollback is the session step |
| `SqliteRepository.SqliteChunkRepository.SetMetadata` | src/adapters/sqlite/sqlite_chunk_repository.cpp:230-236 | the object's metadata write is the session step |
| `Decimal.ParseToString` | src/application/index_service.cpp:235 | a generation written as decimal text is read back as itself |
| `VectorFile.ReadInvertsWrite` | src/adapters/vector/vector_file.cpp:76-157 | reading a written file gives the records bit for bit, and the model hash too if and only if it holds no zero byte |
| `VectorFile.WriteInvertsRead` | src/adapters/vector/vector_file.cpp:76-157 | writing what was read gives the file back if and only if its hash field is a non-empty hash padded with zeros |
| `VectorFile.NoPartialFile` | src/adapters/vector/vector_file.cpp:119-141 | every strict prefix and every strict extension of a readable file is rejected |
| `VectorFile.GuardIsExact` | src/adapters/vector/vector_file.cpp:136-141 | with the overflow guard the 64-bit size equation holds exactly when the unbounded one does |
| `VectorFile.GuardIsNeeded` | src/adapters/vector/vector_file.cpp:137-139 | without the guard a bare header announcing 2^62 records would pass |
| `VectorFile.WritableMeans` | src/adapters/vector/vector_file.cpp:78-107 | what can be written: a positive dimension, a hash of 1 to 32 bytes, vectors of that dimension, and a file, of 56 bytes and 8 + 4 n for each record, below 2^64 |
| `VectorFile.ParseOfImage` | src/adapters/vector/vector_file.cpp:93-107 | every image of a header and uniform records is accepted and parsed as what it was made from |
| `VectorFile.ImageOfParse` | src/adapters/vector/vector_file.cpp:117-157 | whatever is accepted is the image of what was read |
| `VectorFile.HashRoundTrip` | src/adapters/vector/vector_file.cpp:46-58 | the padded hash field gives the hash back if and only if it holds no zero byte |
| `VectorFile.LeRoundTrip` | src/adapters/vector/vector_file.cpp:26-44 | little-endian bytes of a fitting number read back as the number |
| `VectorFile.LeInverse` | src/adapters/vector/vector_file.cpp:26-44 | any bytes are the little-endian form of the number they read as |
| `VectorFile.LeByte` | src/adapters/vector/vector_file.cpp:26-31 | byte i holds the bits from 8 i on, so the order is least significant first |
| `VectorFile.FileExample` | src/adapters/vector/vector_file.cpp:76-107 | a whole file byte for byte: magic, version, dimension, count, padded hash and one record |
| `VectorFile.WriteLe` | src/adapters/vector/vector_file.cpp:26-31 | the byte loop appends the little-endian bytes |
| `VectorFile.ReadLe` | src/adapters/vector/vector_file.cpp:33-44 | the byte loop reads the number or throws exactly when the stream is too short |
| `VectorFile.WriteAtomic` | src/adapters/vector/vector_file.cpp:76-114 | it succeeds exactly on writable input without a fault of creating, writing, flushing, syncing or renaming, and then the file is the whole image; an exception leaves no file or a prefix of the image |
| `VectorFile.WriteStream` | src/adapters/vector/vector_file.cpp:93-107 | the stream writes make the whole image exactly when the hash fits its field and every vector has the dimension, and otherwise stop at a prefix of it |
| `VectorFile.Read` | src/adapters/vector/vector_file.cpp:117-157 | header checks, 64-bit size test and record loops accept and return exactly what the format defines |
| `Utf8Stream.StreamPieces` | src/adapters/llama/llama_generator.cpp:110-167 | cut invariance end to end: however the bytes are cut into pieces, the concatenated callbacks of all non-final calls and the final one are the one-shot repair of the whole, which is its only decomposition into characters copied and single bytes that start no character turned into the encoding of U+FFFD; each callback is well-formed UTF-8 |
| `Utf8Stream.RepairsExactly` | src/adapters/llama/llama_generator.cpp:114-161 | the decoder as a relation of its own, in both directions: the output is the concatenation of what the pieces of the input become, a character copied, or one byte that starts no character there turned into the encoding of U+FFFD |
| `Utf8Stream.DecompositionIsUnique` | src/adapters/llama/llama_generator.cpp:114-161 | there is exactly one such way to cut a byte string |
| `Utf8Stream.ReplacementIsFFFD` | src/adapters/llama/llama_generator.cpp:126-154 | the replacement the decoder writes is the encoding of U+FFFD |
| `Utf8Stream.LeadWidthMeans` | src/adapters/llama/llama_generator.cpp:115-124 | the width a lead byte announces is the length of every character that begins with it, and there is none when it announces none |
| `Utf8Stream.RfcExamples` | src/adapters/llama/llama_generator.cpp:115-151 | the encodings of the code points of section 7 of RFC 3629 |
| `Utf8Stream.DrainThenMore` | src/adapters/llama/llama_generator.cpp:114-163 | whatever follows, a non-final call emits what the one-shot decoder would have emitted, and the bytes it keeps are all that later calls need |
| `Utf8Stream.DrainKeepsAtMostThree` | src/adapters/llama/llama_generator.cpp:131-138 | after a non-final call at most three bytes are pending, all of them undecided |
| `Utf8Stream.DrainFinal` | src/adapters/llama/llama_generator.cpp:131-136 | a final call is the one-shot decoder and leaves nothing pending |
| `Utf8Stream.DrainIsWellFormed` | src/adapters/llama/llama_generator.cpp:114-165 | every callback argument is well-formed by section 4 of RFC 3629 |
| `Utf8Stream.RepairIsWellFormed` | src/adapters/llama/llama_generator.cpp:114-161 | the repair of any byte string is well-formed |
| `Utf8Stream.RepairFixesExactlyWellFormed` | src/adapters/llama/llama_generator.cpp:114-161 | a byte string passes unchanged if and only if it is well-formed |
| `Utf8Stream.RepairIsIdempotent` | src/adapters/llama/llama_generator.cpp:114-161 | repairing twice is repairing once |
| `Utf8Stream.EncodeIsChar` | src/adapters/llama/llama_generator.cpp:115-151 | every Unicode scalar value has an encoding that the decoder accepts and that decodes to it |
| `Utf8Stream.CharIsEncoding` | src/adapters/llama/llama_generator.cpp:115-151 | every character the decoder accepts is the encoding of a scalar value: nothing overlong, no surrogate, nothing above U+10FFFF |
| `Utf8Stream.Validate` | src/adapters/llama/llama_generator.cpp:140-151 | the continuation and second-byte tests accept exactly the characters of the grammar |
| `Utf8Stream.DecodeNext` | src/adapters/llama/llama_generator.cpp:115-160 | the loop body copies one character, replaces one byte, or leaves a non-final call waiting on undecided bytes, and always keeps output plus remaining bytes adding up to the answer |
| `Utf8Stream.Emitter.Emit` | src/adapters/llama/llama_generator.cpp:110-167 | the loop with its consumed index, output and pending buffer is the drain function, and an empty output makes no callback |
| `GenerationQueue.BoundedAndInOrder` | src/application/generation_queue.cpp:19-60 | in every state of every interleaving: started tasks are a prefix of accepted ones in order, at most one runs, waiting tasks fit the capacity and accepted but unfinished ones exceed it by at most one |
| `GenerationQueue.AcceptedExactlyWithRoom` | src/application/generation_queue.cpp:23-29 | in every state of every run, a submission to an open queue with fewer tasks waiting than the capacity is appended to the waiting and to the accepted tasks; otherwise nothing changes, and the queue is closed or exactly full |
| `GenerationQueue.OnlySubmissionsAccept` | src/application/generation_queue.cpp:19-60 | no other step accepts a task, and only the worker takes one from the queue, the first |
| `GenerationQueue.QueueFills` | src/application/generation_queue.cpp:19-30 | every capacity can be used up: for any tasks up to the capacity some run has exactly these waiting, in order |
| `GenerationQueue.CallsInOrder` | src/application/generation_queue.cpp:55-58 | each call is of the first accepted task not yet called, and each return is counted |
| `GenerationQueue.AcceptedAreAccountedFor` | src/application/generation_queue.cpp:19-60 | an accepted task has been called, is in the worker's hand or waits, in that order; after the worker's exit nothing is in hand or running |
| `GenerationQueue.NothingAcceptedAfterClose` | src/application/generation_queue.cpp:24-26 | once accepting is false nothing is accepted any more |
| `GenerationQueue.StopEndsAcceptance` | src/application/generation_queue.cpp:37-41 | after the critical section of stop nothing is accepted any more |
| `GenerationQueue.AtMostOneStartAfterStop` | src/application/generation_queue.cpp:37-58 | after the stop request at most one task starts, and none unless the worker had already passed its test |
| `GenerationQueue.StopRequestEndsStarts` | src/application/generation_queue.cpp:42-58 | the same counted from the stop request, which also leaves the worker at most four steps |
| `GenerationQueue.IdleWorkerSleeps` | src/application/generation_queue.cpp:47-54 | with nothing to do two undisturbed worker steps from the top of its loop put it to sleep |
| `GenerationQueue.LateStartExample` | src/application/generation_queue.cpp:50-58 | an interleaving in which a task starts after the stop request |
| `GenerationQueue.StopsWithinFourSteps` | src/application/generation_queue.cpp:46-60 | after the stop request the worker takes at most four more steps and then has exited, unless a task that threw has ended the process |
| `GenerationQueue.NoLostWakeup` | src/application/generation_queue.cpp:27-51 | before its exit the worker always has a step, unless a task that threw has ended the process, and when it sleeps with a task waiting, a stop requested, or all stop calls complete, a notification is pending |
| `GenerationQueue.WaitingTaskGetsCalled` | src/application/generation_queue.cpp:46-60 | while a task waits and no stop is requested, six worker steps always call a task, whatever the other threads do |
| `GenerationQueue.StepKeepsInv` | src/application/generation_queue.cpp:19-60 | each atomic step of each thread keeps the invariant |
| `GenerationQueue.Queue.TrySubmit` | src/application/generation_queue.cpp:19-30 | an empty task throws; otherwise it returns true exactly when the queue accepts and fewer tasks wait than the capacity, and then the task is the last to wait; it is the submit step of the machine |
| `GenerationQueue.Queue.Depth` | src/application/generation_queue.cpp:32-35 | the number of waiting tasks, within capacity |
| `GenerationQueue.Queue.CloseAccepting` | src/application/generation_queue.cpp:38-41 | the critical section of stop is the close step |
| `GenerationQueue.Queue.SetStop` | src/application/generation_queue.cpp:42-43 | the stop request and notification are the request step, outside the mutex |
| `GenerationQueue.Queue.SeekStep` | src/application/generation_queue.cpp:47-54 | the worker's loop test, wait, wake-up and emptiness test are steps of the machine |
| `GenerationQueue.Queue.TaskStep` | src/application/generation_queue.cpp:55-58 | pop, call and return are steps of the machine, and so is a task that throws, which ends the process |
| `GenerationQueue.Queue.Create` | src/application/generation_queue.cpp:8-13 | a zero capacity throws, any other gives the initial state |
| `Evaluation.MetricsInUnit` | src/domain/evaluation.cpp:16-49 | for distinct ids, every grade map and every k: DCG is at most the ideal DCG, recall and nDCG lie in [0, 1], and nDCG is 1 if and only if positive grades exist and the grades of the first k places are the ideal ones |
| `Evaluation.UnitExactlyWhenDistinct` | src/domain/evaluation.cpp:16-49 | recall and nDCG stay at most 1 for every grade map if and only if the first k places name no id twice |
| `Evaluation.RepetitionScoresAboveOne` | src/domain/evaluation.cpp:31-48 | for every ranking with a repetition in its first k places, a grade map whose recall and nDCG exceed 1 |
| `Evaluation.TopGainsMost` | src/domain/evaluation.cpp:26-30 | no choice of n members of a descending list gains more than its first n |
| `Evaluation.LeadSurvivesDiscount` | src/domain/evaluation.cpp:27-30 | summation by parts: a lead in plain gain at every place is a lead in discounted gain, and a lead once won is never lost |
| `Evaluation.EqualLeadsAgree` | src/domain/evaluation.cpp:27-48 | equal discounted gain under that dominance forces equal grades at every place |
| `Evaluation.FirstRelevantDecides` | src/domain/evaluation.cpp:38-40 | the reciprocal rank is one over the first relevant place |
| `Evaluation.NoRelevantNoRank` | src/domain/evaluation.cpp:34-42 | the reciprocal rank is zero when no relevant place is among the first n |
| `Evaluation.RecallMeans` | src/domain/evaluation.cpp:33-48 | for distinct ids, recall times the number of relevant ids is the number of them among the first k, and zero when there are none |
| `Evaluation.NdcgMeans` | src/domain/evaluation.cpp:26-49 | nDCG times the ideal sum is the sum of the ranking, and zero when nothing is relevant |
| `Evaluation.PlaceContributes` | src/domain/evaluation.cpp:27-30 | each of the first k places adds its own gain over its own discount, and nothing else adds |
| `Evaluation.GainIsExponential` | src/domain/evaluation.cpp:28-28 | gain plus one is a power of two: it multiplies as grades add, from 1 at grade 0 and 2 at grade 1 |
| `Evaluation.Evaluate` | src/domain/evaluation.cpp:10-50 | the whole function: throws exactly on k = 0, otherwise recall, reciprocal rank and nDCG are the defined ones, with the ideal list the positive grades in descending order |
| `Evaluation.ScanRanking` | src/domain/evaluation.cpp:32-44 | the loop over the ranking computes hit count, reciprocal rank and DCG |
| `Evaluation.CollectGrades` | src/domain/evaluation.cpp:17-25 | the map loop collects exactly the positive grades, in any order |
| `Evaluation.SortDescending` | src/domain/evaluation.cpp:26 | the sort returns a descending permutation |
| `Evaluation.IdealDcg` | src/domain/evaluation.cpp:27-30 | the accumulator loop computes the ideal DCG |
| `BruteForceIndex.LastTouchDecides` | src/adapters/vector/brute_force_index.cpp:24-53 | after any sequence of upserts and erases an id is present exactly when the last call that touched it was an accepted upsert, with that vector |
| `BruteForceIndex.HistoryDoesNotMatter` | src/adapters/vector/brute_force_index.cpp:55-76 | two histories that end in the same map give the same answer to every query |
| `BruteForceIndex.SnapshotHoldsMap` | src/application/index_service.cpp:262-266 | loading a fresh index with the entries of a map in any order makes it hold exactly that map |
| `BruteForceIndex.Index.Upsert` | src/adapters/vector/brute_force_index.cpp:24-38 | overwrite or append: the abstract map gains the entry, or a wrong dimension or non-finite vector throws and nothing changes |
| `BruteForceIndex.Index.Erase` | src/adapters/vector/brute_force_index.cpp:40-53 | swap-remove takes exactly one id out of the abstract map |
| `BruteForceIndex.Index.Replay` | src/adapters/vector/brute_force_index.cpp:24-53 | any sequence of calls leaves records and positions representing exactly the map of the history |
| `BruteForceIndex.Index.Search` | src/adapters/vector/brute_force_index.cpp:55-76 | returns the min(k, n) best of the abstract map by score descending, then id ascending, or throws exactly on a bad query with k positive |
| `BruteForceIndex.AnswerMeans` | src/adapters/vector/brute_force_index.cpp:55-76 | an answer in terms of the map: min(k, n) ids, each with the score of its own vector, in order, and each other id behind all of them |
| `BruteForceIndex.FiniteMeans` | src/domain/similarity.cpp:9-16 | a component is finite if and only if its bits without the sign lie below those of infinity |
| `BruteForceIndex.Index.Create` | src/adapters/vector/brute_force_index.cpp:18-22 | a zero dimension throws, any other gives an empty index |
| `Ranking.TopIsUnique` | src/adapters/vector/brute_force_index.cpp:12-14 | the list of the k best of a set of hits with one score for each id is unique |
| `Ranking.TopMeans` | src/adapters/vector/brute_force_index.cpp:12-14 | the k best: as many as there are up to k, by score descending and then by id ascending, and nothing left out belongs in front of one listed |
| `Ranking.SortTop` | src/adapters/vector/brute_force_index.cpp:71-75 | sort and resize give the k best |
| `Ranking.Sort` | src/adapters/vector/brute_force_index.cpp:71 | the sort returns the same hits in strict rank order |
| `RankFusion.Dominance` | src/application/reciprocal_rank_fusion.cpp:30-47 | for duplicate-free lists, if a stands before b in every list that has b, then whenever b is returned a is returned at an earlier place with a strictly higher score |
| `RankFusion.ListOrderDoesNotMatter` | src/application/reciprocal_rank_fusion.cpp:36-37 | permuting the lists does not change the result |
| `RankFusion.Fuse` | src/application/reciprocal_rank_fusion.cpp:24-48 | the exact top k of the rank sums; throws exactly on a zero constant with k positive |
| `RankFusion.Accumulate` | src/application/reciprocal_rank_fusion.cpp:31-35 | one list adds to every id the shares of its positions, new ids starting from zero |
| `RankFusion.Entries` | src/application/reciprocal_rank_fusion.cpp:38-42 | the score map read out in any order, each id once |
| `RankFusion.ScoreOfPlaced` | src/application/reciprocal_rank_fusion.cpp:32-34 | in a duplicate-free list the id at position i scores 1 / (rank_constant + i + 1) |
| `RankFusion.OneListMore` | src/application/reciprocal_rank_fusion.cpp:30-37 | one duplicate-free list more adds 1 / (rank_constant + i + 1) to the id at position i and nothing to an id it does not have |
| `RankFusion.OneHitMore` | src/application/reciprocal_rank_fusion.cpp:31-35 | in any list each place adds its own share, so an id that stands twice scores twice |
| `TextChunker.WindowsAreGood` | src/adapters/filesystem/text_chunker.cpp:109-141 | for every text and valid options: no gap, strictly increasing starts, ends that never go back; each window is within both limits unless it is one line, and is the longest such; consecutive windows overlap by exactly overlap_lines when the first is longer than that, by all but its first line otherwise, and not at all exactly when it ends within the first overlap_lines lines of the file |
| `TextChunker.GoodWindowsAreUnique` | src/adapters/filesystem/text_chunker.cpp:111-140 | no other windows have these properties |
| `TextChunker.PlanOverlaps` | src/adapters/filesystem/text_chunker.cpp:138-139 | the same exact overlap of consecutive windows whatever the loop makes with its 64-bit integers |
| `TextChunker.NoOverlapExample` | src/adapters/filesystem/text_chunker.cpp:138-139 | two lines of overlap are asked for, the first window ends at line 2, and the second begins at line 3 |
| `TextChunker.ChunkedRecovers` | src/adapters/filesystem/text_chunker.cpp:93-142 | within the integer limits the chunks are those of the good windows, and dropping the overlaps their line numbers show gives back exactly the lines of the text |
| `TextChunker.PlanExact` | src/adapters/filesystem/text_chunker.cpp:109-141 | the loop with 64-bit addition and 32-bit line numbers makes the good windows if the file has fewer than 2^32 lines and no visited start plus max_lines reaches 2^64; otherwise it throws or emits a window that ends before it starts |
| `TextChunker.LimitsInPractice` | src/adapters/filesystem/text_chunker.cpp:109-124 | with max_lines at most 2^64 - 2^32, the integer limits hold if and only if the text has fewer than 2^32 lines |
| `TextChunker.WrapExample` | src/adapters/filesystem/text_chunker.cpp:112-124 | valid options and a two-line text on which the wrapped addition makes the loop throw |
| `TextChunker.RawRejoins` | src/adapters/filesystem/text_chunker.cpp:15-32 | the lines before carriage returns are dropped, with their newlines put back, are the text |
| `TextChunker.RawOfUnsplit` | src/adapters/filesystem/text_chunker.cpp:15-32 | any list of newline-free lines comes back from its text unless its last line is empty and unclosed |
| `TextChunker.SplitOfJoin` | src/adapters/filesystem/text_chunker.cpp:46-57 | splitting a chunk content at newlines gives its lines |
| `TextChunker.LinesMean` | src/adapters/filesystem/text_chunker.cpp:15-32 | a line is what stands between the newlines, less one carriage return at its end if there is one |
| `TextChunker.KeyInjective` | src/adapters/filesystem/text_chunker.cpp:120-123 | for NUL-free paths a chunk key determines path, line range and content hash |
| `TextChunker.KeysApart` | src/adapters/filesystem/text_chunker.cpp:120-126 | different windows or different NUL-free paths have different keys |
| `TextChunker.ChunkMeans` | src/adapters/filesystem/text_chunker.cpp:116-133 | the fields of chunk i: one-based first and last line of window i, content that splits back into its lines, the hash of that content, and an id that is the hash of path, lines, content hash and version between NULs |
| `TextChunker.SplitLines` | src/adapters/filesystem/text_chunker.cpp:15-32 | the loop computes the lines |
| `TextChunker.ContentSize` | src/adapters/filesystem/text_chunker.cpp:34-44 | the size computed without building the content is the content's size |
| `TextChunker.JoinLines` | src/adapters/filesystem/text_chunker.cpp:46-57 | the loop joins the lines with newlines |
| `TextChunker.FitWindow` | src/adapters/filesystem/text_chunker.cpp:112-115 | the shrinking loop ends at the largest window that fits, or at one line |
| `TextChunker.ChunkText` | src/adapters/filesystem/text_chunker.cpp:93-142 | the whole function: option and path errors with their exception, the empty text, and the chunks of the plan under the normal form of the path |
| `LexicalPath.AcceptedExactly` | src/adapters/filesystem/text_chunker.cpp:102-107 | for every path: it is accepted if and only if it is relative, not empty, and leads from every directory to a place inside that directory, or its normal form is a lone dot-dot |
| `LexicalPath.InsideExactly` | src/adapters/filesystem/text_chunker.cpp:102-107 | a path leads inside from every directory if and only if its normal form does not begin with dot-dot |
| `LexicalPath.ReducedLeadsTheSame` | src/adapters/filesystem/text_chunker.cpp:102 | normalization keeps the place a path leads to, from every directory |
| `LexicalPath.NormalIsIdempotent` | src/adapters/filesystem/text_chunker.cpp:102 | normalizing twice is normalizing once |
| `LexicalPath.NormalReadsBack` | src/adapters/filesystem/text_chunker.cpp:102-102 | the normal form, split at its slashes, is the reduced components, with a closing slash exactly when the path ends in one, a dot or a dot-dot that does not lead up |
| `LexicalPath.ParentIsAccepted` | src/adapters/filesystem/text_chunker.cpp:103-106 | the path dot-dot passes the test that should refuse it |
| `TextChunker.ChunkLines` | src/adapters/filesystem/text_chunker.cpp:109-141 | the window loop emits one chunk for each planned window, or the exception of the first bad line number |
| `IndexChunking.PathsKeepIdsApart` | src/adapters/filesystem/text_chunker.cpp:120-126 | files under different NUL-free paths share a chunk id only if two of their keys collide under the 64-bit hash |
| `IndexChunking.IdAssumptionHolds` | src/adapters/filesystem/text_chunker.cpp:120-126 | for all contents that occur: without key collisions, the chunk ids of different paths are apart, which is the id assumption of the index |
| `IndexChunking.FileIdsAreDistinct` | src/adapters/filesystem/text_chunker.cpp:120-126 | the chunk ids of one file are distinct unless two of its keys collide |
| `EmbedBatches.FewestBatches` | src/adapters/llama/llama_embedder.cpp:111-119 | the batches are a contiguous in-order partition within the batch size, with the minimum number of batches over all such partitions |
| `EmbedBatches.BatchingIsInvisible` | src/adapters/llama/llama_embedder.cpp:108-187 | if what the pooling type reads for a sequence of a regular batch is what it reads for the slots of that sequence alone, result i is what input i yields as the only input of its batch; tokens, positions and flags may decide the vector in any way, and nothing is asked of batches the loop cannot write |
| `EmbedBatches.BatchesDoNotMatter` | src/adapters/llama/llama_embedder.cpp:108-187 | any two ways to cut the inputs into batches, under any two batch sizes, give the same vectors |
| `EmbedBatches.VectorAlone` | src/adapters/llama/llama_embedder.cpp:168-186 | in any batch that evaluates, input i gets the vector, or the exception, it gets in a batch of its own |
| `EmbedBatches.OwnSlotsSuffice` | src/adapters/llama/llama_embedder.cpp:150-176 | the independence asked of the model holds of every model whose vectors are any function of the own slots of the sequence, positions and flags included, for pooled reads and for reads of a last slot |
| `EmbedBatches.LayoutKeepsInputs` | src/adapters/llama/llama_embedder.cpp:150-160 | a batch holds, under each sequence id, exactly the slots the input has alone: its tokens in order at positions from zero |
| `EmbedBatches.LayoutMeans` | src/adapters/llama/llama_embedder.cpp:150-160 | token p of an input stands p places behind the tokens of the inputs before it, at position p, under the number of the input in the batch, alone in its sequence and as an output |
| `EmbedBatches.ResultMeans` | src/adapters/llama/llama_embedder.cpp:108-187 | result i is the normalized vector the model answers for the sequence of input i, or for its last slot, in an evaluated batch that holds that input |
| `EmbedBatches.LastSlotIsTheInputs` | src/adapters/llama/llama_embedder.cpp:169-176 | the slot read back is where the input's last token was written, with its position and sequence id, and no later slot belongs to that input |
| `EmbedBatches.PackBatch` | src/adapters/llama/llama_embedder.cpp:112-119 | the packing loop takes the greedy batch and always at least one input, so the "cannot fit" exception is unreachable |
| `EmbedBatches.FillBatch` | src/adapters/llama/llama_embedder.cpp:150-160 | the five arrays filled in place hold the layout of the batch: token, position, number of sequences, sequence id and output flag of every slot |
| `EmbedBatches.FillRow` | src/adapters/llama/llama_embedder.cpp:152-159 | the inner loop writes one input's slots behind the ones already filled |
| `EmbedBatches.ReadBatch` | src/adapters/llama/llama_embedder.cpp:168-186 | the reading loop returns one vector for each input of the batch, in order, or throws the exception of the first input whose vector is missing or does not normalize |
| `EmbedBatches.TokenListsMeans` | src/adapters/llama/llama_embedder.cpp:41-106 | when it returns, list i is what the tokenizer makes of prefix + text i, not empty and within context and batch size; otherwise the exception is that of the first input refused: empty or over-long text, failed tokenization, or too many tokens |
| `EmbedBatches.FirstRefusalDecides` | src/adapters/llama/llama_embedder.cpp:86-106 | one refused input is enough, and the first one decides the exception |
| `EmbedBatches.TokenizeAll` | src/adapters/llama/llama_embedder.cpp:98-106 | the tokenizing loop computes the token lists or the first refusal |
| `EmbedBatches.EmbedLists` | src/adapters/llama/llama_embedder.cpp:108-189 | the outer loop: all vectors read from the greedy batches, or the exception of the first batch or input that fails, and it returns only when none does |
| `EmbedBatches.EmbedMany` | src/adapters/llama/llama_embedder.cpp:96-190 | the whole function, on the tokenizer and the model: it returns only if prefix + text i tokenizes, for every i, to at least one and not too many tokens; the first refusal of an input throws its exception, else the first batch or vector that fails does, else there is one vector for each input in order |
| `GitIgnore.TableIsMeaning` | src/adapters/filesystem/file_scanner.cpp:37-60 | the table decides, for all patterns and values, whether the value can be cut into one segment for each token |
| `GitIgnore.GlobMatches` | src/adapters/filesystem/file_scanner.cpp:37-60 | two rows swapped after every token compute that meaning |
| `GitIgnore.NextRow` | src/adapters/filesystem/file_scanner.cpp:41-56 | one pass over the value makes the next row of the table |
| `GitIgnore.MatchesRule` | src/adapters/filesystem/file_scanner.cpp:62-77 | a rule matches a relative path as a directory prefix, as a whole-path glob or as a component glob |
| `GitIgnore.DirectoryRuleMeans` | src/adapters/filesystem/file_scanner.cpp:62-68 | a directory rule that names a directory matches exactly the paths whose components begin with its components |
| `GitIgnore.PathTextReadsBack` | src/adapters/filesystem/file_scanner.cpp:62-77 | the text the globs are matched against, split at its slashes, is the components of the path |
| `GitIgnore.LineStatesRule` | src/adapters/filesystem/file_scanner.cpp:87-111 | a line states a rule if and only if it is one of the two spellings of that rule: marks for negation and directory around the pattern, with or without the leading slash |
| `GitIgnore.EditLine` | src/adapters/filesystem/file_scanner.cpp:87-111 | erasing the marks from the line one after the other reads the rule it states |
| `GitIgnore.ReadIgnoreFile` | src/adapters/filesystem/file_scanner.cpp:79-114 | the line loop reads exactly the rules its lines state, in order |
| `GitIgnore.RulesInFileOrder` | src/adapters/filesystem/file_scanner.cpp:79-114 | the rules are those the lines state, in the order of the lines, and every other line states none |
| `GitIgnore.Matcher.RulesFor` | src/adapters/filesystem/file_scanner.cpp:145-151 | the cache answers with what the file says, and grows by that directory only |
| `GitIgnore.Matcher.Directories` | src/adapters/filesystem/file_scanner.cpp:121-130 | the directories from the root down to the parent, none outside the root |
| `GitIgnore.Matcher.TryRules` | src/adapters/filesystem/file_scanner.cpp:135-139 | the rule loop of one directory carries the verdict through its rules in file order |
| `GitIgnore.AfterIsLastMatch` | src/adapters/filesystem/file_scanner.cpp:135-139 | carrying a verdict through the rules of a directory gives the verdict of the last matching rule of all rules tried so far, or the earlier verdict when none matches |
| `GitIgnore.IgnoredMeans` | src/adapters/filesystem/file_scanner.cpp:120-142 | a path is ignored if and only if some rule of a file from the root down to its parent matches and is not negated, and no rule matches that stands later in that file or in a file further down |
| `GitIgnore.Matcher.Ignores` | src/adapters/filesystem/file_scanner.cpp:120-142 | with its cache the verdict is that of the last matching rule read from the root to the parent without a cache, and not ignored when none matches |
| `StableHash.SingleDifferenceNeverCollides` | src/support/hash.cpp:7-17 | two strings of equal length that differ in exactly one byte never collide |
| `StableHash.StepUndone` | src/support/hash.cpp:12-15 | every hash step is a bijection of the 64-bit state |
| `StableHash.SuffixKeepsDifference` | src/support/hash.cpp:12-15 | a common suffix neither makes nor hides a collision |
| `StableHash.ReadInvertsHex` | src/support/hash.cpp:19-28 | a hexadecimal reader inverts the 16-digit text |
| `StableHash.HexInjective` | src/support/hash.cpp:19-28 | equal texts come from equal hashes |
| `StableHash.StableHash64` | src/support/hash.cpp:7-17 | the loop computes the hash |
| `StableHash.KnownHashes` | src/support/hash.cpp:7-17 | the published 64-bit FNV-1a values of the empty string and of the letter a |
| `StableHash.StableHashHex` | src/support/hash.cpp:19-28 | the loop fills the 16 digits, most significant first |
| `ContextBudget.Build` | src/application/context_budget.cpp:35-74 | for any token counter: exactly the sources that fit at their turn are kept, in order; kept plus skipped are all; the text is made of exactly the kept ones and its count is within the budget; throws exactly on an empty question, a refused budget, or instructions and question that do not fit |
| `ContextBudget.FlagsAreUnique` | src/application/context_budget.cpp:59-68 | there is only one way to keep exactly what fits at its turn |
| `ContextBudget.KeptMeans` | src/application/context_budget.cpp:56-67 | the kept sources are those at the flagged places, in their order |
| `ContextBudget.BodyMeans` | src/application/context_budget.cpp:50-68 | the text begins with the instructions, each kept source stands right behind those before it, and nothing follows the last |
| `ContextBudget.BudgetMeans` | src/application/context_budget.cpp:42-49 | which budgets are accepted and what limit they leave, modulo 2^64 |
| `ContextBudget.NeverCutExactly` | src/application/context_budget.cpp:42-49 | an accepted budget leaves the reserved tokens to every prompt it allows if and only if reserved plus safety does not wrap |
| `ContextBudget.WrapExample` | src/application/context_budget.cpp:45-49 | a request of 5 tokens with a safety margin of 2^64 - 1 is accepted, and a prompt within the limit leaves 4 of the 5 reserved tokens |
| `ChatPrompt.Build` | src/application/prompt_builder.cpp:9-46 | the least allowed number of oldest non-system messages that fits is dropped, all system messages stay; throws exactly when no allowed number fits or the input is empty or the limit zero |
| `ChatPrompt.KeepDropsOldest` | src/application/prompt_builder.cpp:34-43 | dropping d keeps every system message and exactly the non-system messages after the first d |
| `ChatPrompt.KeepMeans` | src/application/prompt_builder.cpp:34-43 | dropping one more takes out the first non-system message left and leaves the others in their places |
| `ChatPrompt.AllowedMeans` | src/application/prompt_builder.cpp:34-42 | all non-system messages may go if a system message exists, otherwise one message must remain |

## Left out

- Semantic chunks, the Clang parser and the symbol database: foreign syntax trees, and symbols are replaced after the main commit, so they are not atomic with it.
- Queries during an update and two updates at once: the repository documents this window as open.
- HNSW graph search, llama.cpp calls, tokenization, sampling and chat templates: foreign code; tokenizer, formatter, token counter and embedder are arbitrary functions here.
- Directory walking, symbolic links and canonical paths: operating-system behaviour; the index is given paths in normal form. No claim of full gitignore conformance.
- Float rounding: vector components are 32-bit patterns, the similarity score is an arbitrary real function, rank fusion and metrics use exact reals. The dot product's overflow to infinity is not modelled.
- HTTP server, SSE, CLI, configuration, logging, `ChatSession`, `AskService`, `InMemoryChunkRepository`, `SymbolGraphRetriever`, `LlamaReranker`: plumbing or one-branch facts.
- `percentile` and the two-list overload of `reciprocal_rank_fuse`: they would only add easy members.
- `SearchIndexHandle` locking: the handle is one published index.
- IndexService.Service.Update: generation numbers are unbounded naturals, so the wrap of a 64-bit generation is not modelled. The snapshot is the brute-force index; the HNSW index makes the same tests on a vector. An embedder that answers with another number of vectors than texts counts as failed, where the source would read past the end.
- IndexAccepted.EmbedManyAnswersAccepted: that the result of a division by the norm is finite is taken from `l2_normalize`, because floats are bit patterns here.
- SqliteRepository.SqliteChunkRepository.ReplaceDocument: signed storage of 64-bit ids is taken as the bijection it is.
- VectorFile.Read: the file is one byte string, so it cannot change between the size query and the reads; file sizes are below 2^64.
- GenerationQueue.Queue.SeekStep: spurious wake-ups are allowed, so a wake-up needs no notification, and `NoLostWakeup` says separately when one is pending.
- BruteForceIndex.Index.Search: scores are exact and totally ordered; a NaN score, which would break the sort, is not modelled.
- RankFusion.Fuse: `rank_constant + index + 1` is taken without 64-bit wrap, and shares are not rounded to float.
- Evaluation.Evaluate: `log2` enters as any positive, strictly increasing function of the place.
- TextChunker.ChunkText: the language and both hash functions are parameters; an absolute path is one that starts with a slash, and the slash is the only separator.
- GitIgnore.ReadIgnoreFile: a line that consists of a slash, or of an exclamation mark and a slash, makes the source look at the last character of an empty string, which is undefined; the model skips such a line, as the source does when the read is harmless.
- GitIgnore.Matcher.Ignores: ignore files do not change while a matcher lives.
- ContextBudget.Build: instructions, source elements and question frame are arbitrary texts instead of the fixed ones.
