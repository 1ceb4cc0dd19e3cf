/** The text chunker inside the index: the id assumptions of IndexCrash reduced to the absence of
    64-bit hash collisions between keys that occur. */
module IndexChunking {
  import opened Base
  import opened SqliteRepository
  import opened TextChunker
  import IndexUpdate
  import IndexCrash
  import LexicalPath

  /** The keys of all chunks of a file. */
  function Keys(h: Host, path: string, text: string, o: Options): set<string>
    requires ValidOptions(o)
  {
    var lines := Lines(text);
    if lines == [] || |text| >= U64_MODULUS then {}
    else
      RawIsShort(text);
      PlanEnds(lines, 0, o);
      match Plan(lines, 0, o)
      case Threw(_) => {}
      case Returned(ws) => set i | 0 <= i < |ws| :: KeyOf(h, path, lines, ws[i], o)
  }

  /** The chunker as the index sees it: chunks, or a failure. The scan hands over paths in normal form. */
  function Chunker(h: Host, o: Options): (string, string) -> Option<seq<Chunk>>
    requires ValidOptions(o)
  {
    (path: string, text: string) =>
      if |text| >= U64_MODULUS then None
      else
        match Chunked(h, path, text, o)
        case Threw(_) => None
        case Returned(chunks) => Some(chunks)
  }

  ghost predicate NoCollision(h: Host, keys: set<string>) {
    forall x, y :: x in keys && y in keys && h.hash64(x) == h.hash64(y) ==> x == y
  }

  lemma {:induction false} IdsAreHashes(h: Host, path: string, text: string, o: Options, id: u64) returns (w: Window)
    requires ValidOptions(o)
    requires Chunker(h, o)(path, text).Some? && id in Ids(Chunker(h, o)(path, text).value)
    ensures w.end <= |Lines(text)|
    ensures var key := KeyOf(h, path, Lines(text), w, o); key in Keys(h, path, text, o) && h.hash64(key) == id
  {
    var chunks := Chunker(h, o)(path, text).value;
    var lines := Lines(text);
    RawIsShort(text);
    PlanEnds(lines, 0, o);
    var i :| 0 <= i < |chunks| && chunks[i].id == id;
    w := Plan(lines, 0, o).value[i];
  }

  /** Files under different NUL-free paths never share a chunk id, unless two of their keys collide. */
  lemma {:induction false} PathsKeepIdsApart(env: IndexUpdate.Env, h: Host, o: Options, p: string, a: string,
                                             q: string, b: string)
    requires ValidOptions(o) && env.chunk == Chunker(h, o)
    requires p != q && NulFree(p) && NulFree(q)
    requires NoCollision(h, Keys(h, p, a, o) + Keys(h, q, b, o))
    ensures IndexCrash.IdsApart(env, p, a, q, b)
  {
    var x, y := IndexUpdate.IndexFile(env, p, a), IndexUpdate.IndexFile(env, q, b);
    if x.Some? && y.Some? {
      forall id | id in Ids(x.value.chunks) ensures id !in Ids(y.value.chunks) {
        if id in Ids(y.value.chunks) {
          var v := IdsAreHashes(h, p, a, o, id);
          var w := IdsAreHashes(h, q, b, o, id);
          KeysApart(h, p, Lines(a), v, q, Lines(b), w, o);
        }
      }
    }
  }

  /** No two keys of contents that occur collide. */
  ghost predicate KeysDoNotCollide(c: IndexCrash.Config, h: Host, o: Options)
    requires ValidOptions(o)
  {
    forall p, a, q, b :: c.occurs(p, a) && c.occurs(q, b) ==> NoCollision(h, Keys(h, p, a, o) + Keys(h, q, b, o))
  }

  /** The id assumption of the index, for all contents that occur, from the absence of key collisions. */
  lemma {:induction false} IdAssumptionHolds(c: IndexCrash.Config, h: Host, o: Options)
    requires ValidOptions(o) && c.env.chunk == Chunker(h, o) && KeysDoNotCollide(c, h, o)
    requires forall p, a :: c.occurs(p, a) ==> NulFree(p)
    ensures forall p, a, q, b :: p != q && c.occurs(p, a) && c.occurs(q, b) ==> IndexCrash.IdsApart(c.env, p, a, q, b)
  {
    forall p, a, q, b | p != q && c.occurs(p, a) && c.occurs(q, b)
      ensures IndexCrash.IdsApart(c.env, p, a, q, b)
    {
      PathsKeepIdsApart(c.env, h, o, p, a, q, b);
    }
  }

  /** One file's chunk ids are distinct, unless two of its keys collide. */
  lemma {:induction false} FileIdsAreDistinct(h: Host, o: Options, path: string, text: string)
    requires ValidOptions(o) && NulFree(path) && !LexicalPath.Refused(path) && |text| < U64_MODULUS
    requires Lines(text) != [] && WithinLimits(Lines(text), 0, o)
    requires NoCollision(h, Keys(h, path, text, o))
    ensures Chunked(h, path, text, o).Returned? && DistinctIds(Chunked(h, path, text, o).value)
  {
    ChunkedRecovers(h, path, text, o);
    RawIsShort(text);
    var lines := Lines(text);
    PlanExact(lines, 0, o);
    var ws := Windows(lines, 0, o);
    var chunks := Chunked(h, path, text, o).value;
    forall i, j | 0 <= i < j < |chunks| ensures chunks[i].id != chunks[j].id {
      StartsIncrease(ws, lines, o, i, j);
      KeysApart(h, path, lines, ws[i], path, lines, ws[j], o);
      assert KeyOf(h, path, lines, ws[i], o) in Keys(h, path, text, o);
      assert KeyOf(h, path, lines, ws[j], o) in Keys(h, path, text, o);
    }
  }

  lemma {:induction false} StartsIncrease(ws: seq<Window>, lines: seq<string>, o: Options, i: nat, j: nat)
    requires GoodWindows(ws, lines, 0, o) && i < j < |ws|
    ensures ws[i].start < ws[j].start
    decreases j
  {
    assert GoodStep(ws[j - 1], ws[j - 1 + 1], o);
    if i < j - 1 { StartsIncrease(ws, lines, o, i, j - 1); }
  }
}
