/** Incremental update against full rebuild, and the imperative loops of the update.

    From any coherent tables, indexing the same contents into an empty data directory succeeds and
    gives the same tables and the same vectors. The methods are the loops of IndexService::update up
    to the first durable write, proved equal to the specification functions of IndexUpdate. */
module IndexRebuild {
  import opened Base
  import opened SqliteRepository
  import opened IndexUpdate

  // ---------------------------------------------------------------- rebuild

  const NO_TABLES := Logical(map[], map[])

  /** Two documents of coherent tables never share a chunk id. */
  lemma {:induction false} CoherentIdsApart(env: Env, l: Logical, v: Vectors, m: map<string, string>, p: string,
                                            q: string, id: u64)
    requires Coherent(env, l, v, m) && p in m && q in m && p != q
    requires Indexable(env, p, m[p]) && Indexable(env, q, m[q]) && id in Rows(env, q, m[q])
    ensures id !in Rows(env, p, m[p])
  {
    assert DocumentCoherent(env, l, v, p, m[p]) && DocumentCoherent(env, l, v, q, m[q]);
    assert ChunkCoherent(env, l, v, q, m[q], id);
    assert id in Rows(env, p, m[p]) ==> ChunkCoherent(env, l, v, p, m[p], id);
    RowsOfPath(p, IndexFile(env, p, m[p]).value.chunks, 0);
    RowsOfPath(q, IndexFile(env, q, m[q]).value.chunks, 0);
  }

  lemma {:induction false} ContentsAt(files: seq<File>, n: nat, i: nat)
    requires i < n <= |files| && DistinctPaths(files)
    ensures files[i].path in Contents(files, n) && Contents(files, n)[files[i].path] == files[i].content
    decreases n
  {
    if i < n - 1 { ContentsAt(files, n - 1, i); }
  }

  lemma {:induction false} ContentsPrefix(files: seq<File>, n: nat, path: string)
    requires n <= |files| && DistinctPaths(files) && path in Contents(files, n)
    ensures path in Contents(files, |files|) && Contents(files, |files|)[path] == Contents(files, n)[path]
  {
    ContentsKeys(files, n);
    var i :| 0 <= i < n && files[i].path == path;
    ContentsAt(files, n, i);
    ContentsAt(files, |files|, i);
  }

  lemma {:induction false} NothingRemovedFromNothing(env: Env, files: seq<File>)
    ensures Removed(NO_TABLES, files) == {} && RemovedIds(NO_TABLES, files) == {}
    ensures Faithful(env, NO_TABLES, map[], files)
    ensures Cleared(env, NO_TABLES, NO_TABLES, map[], map[], files)
    ensures Coherent(env, NO_TABLES, map[], map[])
  {
    EmptyIsCoherent(env);
    var none: Vectors := map[];
    var empty: map<string, string> := map[];
    MinusNothing(none, RemovedIds(NO_TABLES, files));
    MinusNothing(empty, Removed(NO_TABLES, files));
  }

  lemma {:induction false} RebuildInsertable(env: Env, l: Logical, v: Vectors, files: seq<File>, n: nat,
                                             ln: Logical, vn: Vectors, x: Indexed)
    requires Coherent(env, l, v, Contents(files, |files|)) && DistinctPaths(files) && n < |files|
    requires Coherent(env, ln, vn, Contents(files, n))
    requires IndexFile(env, files[n].path, files[n].content) == Some(x) && DistinctIds(x.chunks)
    ensures Insertable(ln, DocumentOf(env, files[n], x.chunks))
  {
    var f := files[n];
    ContentsAt(files, |files|, n);
    ContentsKeys(files, n);
    RowsOfKeys(f.path, x.chunks, 0);
    forall id | id in ln.chunks ensures id !in Ids(x.chunks) {
      assert Owned(env, ln, Contents(files, n), id);
      var q := ln.chunks[id].path;
      ContentsPrefix(files, n, q);
      CoherentIdsApart(env, l, v, Contents(files, |files|), f.path, q, id);
    }
  }

  lemma {:induction false} RebuildFits(env: Env, l: Logical, v: Vectors, files: seq<File>, n: nat, q: Progress)
      returns (x: Indexed)
    requires Coherent(env, l, v, Contents(files, |files|)) && DistinctPaths(files) && n < |files|
    requires Scan(env, NO_TABLES, map[], files, n) == Some(q) && Storable(NO_TABLES, q.replacements)
    ensures IndexFile(env, files[n].path, files[n].content) == Some(x)
    ensures Insertable(ReplaceAll(NO_TABLES, q.replacements), DocumentOf(env, files[n], x.chunks))
  {
    var f := files[n];
    ContentsAt(files, |files|, n);
    assert DocumentCoherent(env, l, v, f.path, Contents(files, |files|)[f.path]);
    x := IndexFile(env, f.path, f.content).value;
    var ln, vn := RebuildSoFar(env, files, n, q);
    RebuildInsertable(env, l, v, files, n, ln, vn, x);
  }

  lemma {:induction false} RebuildSoFar(env: Env, files: seq<File>, n: nat, q: Progress)
      returns (ln: Logical, vn: Vectors)
    requires DistinctPaths(files) && n < |files|
    requires Scan(env, NO_TABLES, map[], files, n) == Some(q) && Storable(NO_TABLES, q.replacements)
    ensures ln == ReplaceAll(NO_TABLES, q.replacements) && Coherent(env, ln, vn, Contents(files, n))
  {
    NothingRemovedFromNothing(env, files);
    ScanCoherent(env, NO_TABLES, NO_TABLES, map[], map[], files, n, q);
    RebuildContents(files, n);
    ln, vn := ReplaceAll(NO_TABLES, q.replacements), q.vectors - RemovedIds(NO_TABLES, files);
  }

  /** Indexing the first n files into empty tables goes through; a function value, so that the
      induction carries it as one fact. */
  ghost function Rebuilds(env: Env, files: seq<File>): nat -> bool {
    (n: nat) =>
      n <= |files| && var r := Scan(env, NO_TABLES, map[], files, n);
                      r.Some? && Storable(NO_TABLES, r.value.replacements)
  }

  lemma {:induction false} RebuildStep(env: Env, l: Logical, v: Vectors, files: seq<File>, n: nat)
    requires Coherent(env, l, v, Contents(files, |files|)) && DistinctPaths(files) && n < |files|
    requires Rebuilds(env, files)(n)
    ensures Rebuilds(env, files)(n + 1)
  {
    var q := RebuiltSoFar(env, files, n);
    var x := RebuildFits(env, l, v, files, n, q);
    AddFile(env, files, n, q, x);
  }

  lemma {:induction false} RebuiltSoFar(env: Env, files: seq<File>, n: nat) returns (q: Progress)
    requires n <= |files| && Rebuilds(env, files)(n)
    ensures Scan(env, NO_TABLES, map[], files, n) == Some(q) && Storable(NO_TABLES, q.replacements)
  {
    q := Scan(env, NO_TABLES, map[], files, n).value;
  }

  lemma {:induction false} AddFile(env: Env, files: seq<File>, n: nat, q: Progress, x: Indexed)
    requires n < |files| && IndexFile(env, files[n].path, files[n].content) == Some(x)
    requires Scan(env, NO_TABLES, map[], files, n) == Some(q) && Storable(NO_TABLES, q.replacements)
    requires Insertable(ReplaceAll(NO_TABLES, q.replacements), DocumentOf(env, files[n], x.chunks))
    ensures Rebuilds(env, files)(n + 1)
  {
    var d := DocumentOf(env, files[n], x.chunks);
    ReplaceAllAppend(NO_TABLES, q.replacements, d);
    var p := ScanNewFile(env, q, files[n], x);
    RebuiltNext(env, files, n, q, p);
  }

  lemma {:induction false} RebuiltNext(env: Env, files: seq<File>, n: nat, q: Progress, p: Progress)
    requires n < |files| && Scan(env, NO_TABLES, map[], files, n) == Some(q)
    requires ScanFile(env, NO_TABLES, q, files[n]) == Some(p) && Storable(NO_TABLES, p.replacements)
    ensures Rebuilds(env, files)(n + 1)
  {
    assert Scan(env, NO_TABLES, map[], files, n + 1) == Some(p);
  }

  lemma {:induction false} ScanNewFile(env: Env, q: Progress, f: File, x: Indexed) returns (p: Progress)
    requires IndexFile(env, f.path, f.content) == Some(x)
    ensures ScanFile(env, NO_TABLES, q, f) == Some(p)
    ensures p.replacements == q.replacements + [DocumentOf(env, f, x.chunks)]
  {
    p := ScanFile(env, NO_TABLES, q, f).value;
  }

  lemma {:induction false} RebuildContents(files: seq<File>, n: nat)
    requires n <= |files| && Removed(NO_TABLES, files) == {}
    ensures var empty: map<string, string> := map[];
            (empty - Removed(NO_TABLES, files)) + Contents(files, n) == Contents(files, n)
  {
  }

  lemma {:induction false} RebuildSucceeds(env: Env, l: Logical, v: Vectors, files: seq<File>, n: nat)
    requires Coherent(env, l, v, Contents(files, |files|)) && DistinctPaths(files) && n <= |files|
    ensures Rebuilds(env, files)(n)
  {
    RebuildsNothing(env, files);
    forall k: nat | k < |files| && Rebuilds(env, files)(k) ensures Rebuilds(env, files)(k + 1) {
      RebuildStep(env, l, v, files, k);
    }
    CountUp(Rebuilds(env, files), |files|, n);
  }

  lemma {:induction false} CountUp(inv: nat -> bool, limit: nat, n: nat)
    requires inv(0) && (forall k: nat :: k < limit && inv(k) ==> inv(k + 1)) && n <= limit
    ensures inv(n)
    decreases n
  {
    if n > 0 {
      CountUp(inv, limit, n - 1);
      assert inv(n - 1 + 1);
    }
  }

  lemma {:induction false} RebuildsNothing(env: Env, files: seq<File>)
    ensures Rebuilds(env, files)(0)
  {
  }

  /** Incremental equals rebuild: whatever updates led to coherent tables, indexing the same contents
      into an empty data directory, in any scan order, goes through and ends with the same documents,
      the same chunks and the same vectors. */
  lemma {:induction false} RebuildAgrees(env: Env, l: Logical, v: Vectors, m: map<string, string>, files: seq<File>)
    requires Coherent(env, l, v, m) && DistinctPaths(files) && Contents(files, |files|) == m
    ensures Scan(env, NO_TABLES, map[], files, |files|).Some?
    ensures var p := Scan(env, NO_TABLES, map[], files, |files|).value;
            var rebuilt := ReplaceAll(NO_TABLES, p.replacements);
            && Storable(NO_TABLES, p.replacements)
            && rebuilt.chunks == l.chunks
            && FinalVectors(NO_TABLES, p, files) == v
            && rebuilt.documents.Keys == l.documents.Keys
            && forall path :: path in l.documents ==>
                 rebuilt.documents[path].(modifiedNs := 0) == l.documents[path].(modifiedNs := 0)
  {
    RebuildSucceeds(env, l, v, files, |files|);
    var p := Scan(env, NO_TABLES, map[], files, |files|).value;
    NothingRemovedFromNothing(env, files);
    assert ListedPaths([]) == {} && EraseAll(NO_TABLES, []) == NO_TABLES;
    UpdateCoherent(env, NO_TABLES, map[], map[], files, []);
    CoherentIsUnique(env, ReplaceAll(NO_TABLES, p.replacements), FinalVectors(NO_TABLES, p, files), l, v, m);
  }

  // ---------------------------------------------------------------- the loops

  /** vectors.erase for every chunk of a document. */
  method EraseVectors(v: Vectors, ids: set<u64>) returns (v': Vectors)
    ensures v' == v - ids
  {
    v' := v;
    var left := ids;
    while left != {}
      invariant left <= ids && v' == v - (ids - left)
      decreases left
    {
      var id :| id in left;
      v' := v' - {id};
      left := left - {id};
    }
  }

  method InsertVectors(v: Vectors, x: Indexed) returns (v': Vectors)
    requires |x.chunks| == |x.embeddings|
    ensures v' == InsertAll(v, x)
  {
    v' := v;
    for index := 0 to |x.chunks|
      invariant v' == InsertFirst(v, x, index)
    {
      v' := v'[x.chunks[index].id := x.embeddings[index]];
    }
  }

  /** The loop over the scanned files. */
  method ScanFiles(env: Env, oldDocuments: Logical, v: Vectors, files: seq<File>) returns (r: Option<Progress>)
    ensures r == Scan(env, oldDocuments, v, files, |files|)
  {
    var vectors := v;
    var replacements: seq<StoredDocument> := [];
    var added: nat, changed: nat, kept: nat, embedded: nat := 0, 0, 0, 0;
    for n := 0 to |files|
      invariant Scan(env, oldDocuments, v, files, n)
                == Some(Progress(vectors, replacements, added, changed, kept, embedded))
    {
      var f := files[n];
      ghost var q := Progress(vectors, replacements, added, changed, kept, embedded);
      ScanFailure(env, oldDocuments, v, files, n, q);
      var hash := env.hash(f.content);
      if f.path in oldDocuments.documents && oldDocuments.documents[f.path].contentHash == hash {
        kept := kept + 1;
        continue;
      }
      if f.path !in oldDocuments.documents {
        added := added + 1;
      } else {
        changed := changed + 1;
        vectors := EraseVectors(vectors, DocIds(oldDocuments, f.path));
      }
      var chunks := env.chunk(f.path, f.content);
      if chunks.None? {
        return None;
      }
      var embeddings := env.embed(Texts(chunks.value));
      if embeddings.None? || |embeddings.value| != |chunks.value| {
        return None;
      }
      vectors := InsertVectors(vectors, Indexed(chunks.value, embeddings.value));
      embedded := embedded + |chunks.value|;
      replacements := replacements + [StoredDocument(f.path, hash, |f.content|, f.modifiedNs, "text-v1", chunks.value)];
    }
    return Some(Progress(vectors, replacements, added, changed, kept, embedded));
  }

  /** One failing file makes the whole scan fail. */
  lemma {:induction false} ScanFailure(env: Env, l: Logical, v: Vectors, files: seq<File>, n: nat, q: Progress)
    requires n < |files| && Scan(env, l, v, files, n) == Some(q)
    ensures ScanFile(env, l, q, files[n]).None? ==> Scan(env, l, v, files, |files|).None?
  {
    if ScanFile(env, l, q, files[n]).None? {
      assert Scan(env, l, v, files, n + 1).None?;
      FailureSpreads(env, l, v, files, n + 1, |files|);
    }
  }

  lemma {:induction false} FailureSpreads(env: Env, l: Logical, v: Vectors, files: seq<File>, n: nat, k: nat)
    requires n <= k <= |files| && Scan(env, l, v, files, n).None?
    ensures Scan(env, l, v, files, k).None?
    decreases k
  {
    if n < k { FailureSpreads(env, l, v, files, n, k - 1); }
  }

  /** The loop over the old documents; hash-map order is arbitrary. */
  method DropRemoved(l: Logical, v: Vectors, files: seq<File>, present: set<string>)
    returns (v': Vectors, removals: seq<string>, removed: nat)
    requires present == PathSet(files)
    ensures v' == v - RemovedIds(l, files)
    ensures ListedPaths(removals) == Removed(l, files) && removed == |removals| == |Removed(l, files)|
  {
    v', removals, removed := v, [], 0;
    var left := l.documents.Keys;
    ghost var gone := Removed(l, files);
    NothingDropped(l, v, gone, left);
    while left != {}
      invariant left <= l.documents.Keys
      invariant Dropped(l, v, gone, left, v', removals) && removed == |removals|
      decreases left
    {
      var path :| path in left;
      if path !in present {
        removed := removed + 1;
        DropStep(l, v, gone, left, v', removals, path);
        v' := EraseVectors(v', DocIds(l, path));
        removals := removals + [path];
      } else {
        NotDropped(l, v, gone, left, v', removals, path);
      }
      left := left - {path};
    }
    AllDropped(l, v, files, left, v', removals);
  }

  lemma {:induction false} NotDropped(l: Logical, v: Vectors, gone: set<string>, left: set<string>, v': Vectors,
                                      removals: seq<string>, path: string)
    requires Dropped(l, v, gone, left, v', removals) && path !in gone
    ensures Dropped(l, v, gone, left - {path}, v', removals)
  {
    assert gone - (left - {path}) == gone - left;
  }

  lemma {:induction false} AllDropped(l: Logical, v: Vectors, files: seq<File>, left: set<string>, v': Vectors,
                                      removals: seq<string>)
    requires Dropped(l, v, Removed(l, files), left, v', removals) && left == {}
    ensures v' == v - RemovedIds(l, files)
    ensures ListedPaths(removals) == Removed(l, files) && |removals| == |Removed(l, files)|
  {
    assert Removed(l, files) - left == Removed(l, files);
    RemovedIdsAt(l, files);
  }

  lemma {:induction false} RemovedIdsAt(l: Logical, files: seq<File>)
    ensures IdsAt(l, Removed(l, files)) == RemovedIds(l, files)
  {
  }

  /** `removals` are the removed documents outside `left`, and their vectors are gone. */
  ghost predicate Dropped(l: Logical, v: Vectors, gone: set<string>, left: set<string>, v': Vectors,
                          removals: seq<string>) {
    ListedPaths(removals) == gone - left && |removals| == |gone - left| && v' == v - IdsAt(l, ListedPaths(removals))
  }

  lemma {:induction false} NothingDropped(l: Logical, v: Vectors, gone: set<string>, left: set<string>)
    requires gone <= left
    ensures Dropped(l, v, gone, left, v, [])
  {
    assert gone - left == {} && ListedPaths([]) == {} && IdsAt(l, {}) == {};
    MinusNothing(v, IdsAt(l, {}));
  }

  lemma {:induction false} DropStep(l: Logical, v: Vectors, gone: set<string>, left: set<string>, v': Vectors,
                                    removals: seq<string>, path: string)
    requires Dropped(l, v, gone, left, v', removals) && path in gone && path in left
    ensures Dropped(l, v, gone, left - {path}, v' - DocIds(l, path), removals + [path])
  {
    DropVectors(l, v, removals, path);
    MoreRemoved(gone, left, path);
  }

  lemma {:induction false} DropVectors(l: Logical, v: Vectors, removals: seq<string>, path: string)
    ensures ListedPaths(removals + [path]) == ListedPaths(removals) + {path}
    ensures (v - IdsAt(l, ListedPaths(removals))) - DocIds(l, path) == v - IdsAt(l, ListedPaths(removals + [path]))
  {
    ListedPathsAppend(removals + [path]);
    assert (removals + [path])[..|removals|] == removals;
    MinusTwice(v, IdsAt(l, ListedPaths(removals)), DocIds(l, path));
    assert IdsAt(l, ListedPaths(removals)) + DocIds(l, path) == IdsAt(l, ListedPaths(removals) + {path});
  }

  lemma {:induction false} MoreRemoved(removed: set<string>, left: set<string>, path: string)
    requires path in removed && path in left
    ensures removed - (left - {path}) == (removed - left) + {path}
    ensures |removed - (left - {path})| == |removed - left| + 1
  {
    assert removed - (left - {path}) == (removed - left) + {path};
  }
}
