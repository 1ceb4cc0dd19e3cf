/** brute_force_index.cpp: a record vector with a position map, updated by overwrite, append and
    swap-remove, and an exhaustive search. */
module BruteForceIndex {
  import opened Base
  import opened Ranking

  /** Bit patterns of 32-bit floats. */
  type Vector = seq<u32>

  /** std::isfinite on a bit pattern: the exponent field is not all ones. */
  predicate FiniteBits(x: u32) {
    x / 0x80_0000 % 256 != 255
  }

  /** In magnitude below infinity: neither an infinity nor a not-a-number, of either sign. */
  lemma {:induction false} FiniteMeans(x: u32)
    ensures FiniteBits(x) <==> x % 0x8000_0000 < 0x7F80_0000
  {
    var exponent, fraction := x / 0x80_0000, x % 0x80_0000;
    assert x == 0x80_0000 * exponent + fraction;
    assert x % 0x8000_0000 == 0x80_0000 * (exponent % 256) + fraction;
  }

  predicate Finite(v: Vector) {
    forall x :: x in v ==> FiniteBits(x)
  }

  predicate Accepted(dimension: nat, v: Vector) {
    |v| == dimension && Finite(v)
  }

  // ---------------------------------------------------------------- what a history means

  datatype Op = Upsert(id: u64, values: Vector) | Erase(id: u64)

  /** The effect of one call on the id-to-vector map; a rejected upsert changes nothing. */
  function Apply(m: map<u64, Vector>, dimension: nat, op: Op): map<u64, Vector> {
    match op
    case Upsert(id, values) => if Accepted(dimension, values) then m[id := values] else m
    case Erase(id) => m - {id}
  }

  function ApplyAll(m: map<u64, Vector>, dimension: nat, ops: seq<Op>): map<u64, Vector> {
    if ops == [] then m
    else Apply(ApplyAll(m, dimension, ops[..|ops| - 1]), dimension, ops[|ops| - 1])
  }

  /** The call changes the entry of `id`. */
  predicate Touches(op: Op, dimension: nat, id: u64) {
    op.id == id && (op.Upsert? ==> Accepted(dimension, op.values))
  }

  /** Whatever came before: an id is present exactly when the last call that touched it was an
      upsert, with that call's vector. */
  lemma {:induction false} LastTouchDecides(dimension: nat, ops: seq<Op>, id: u64)
    ensures id in ApplyAll(map[], dimension, ops) <==>
            exists i :: 0 <= i < |ops| && ops[i].Upsert? && Touches(ops[i], dimension, id)
                        && forall j :: i < j < |ops| ==> !Touches(ops[j], dimension, id)
    ensures forall i :: 0 <= i < |ops| && ops[i].Upsert? && Touches(ops[i], dimension, id)
                        && (forall j :: i < j < |ops| ==> !Touches(ops[j], dimension, id))
                        ==> id in ApplyAll(map[], dimension, ops)
                            && ApplyAll(map[], dimension, ops)[id] == ops[i].values
    decreases |ops|
  {
    if ops != [] {
      var init, last := ops[..|ops| - 1], ops[|ops| - 1];
      LastTouchDecides(dimension, init, id);
      assert forall i :: 0 <= i < |init| ==> init[i] == ops[i];
      if Touches(last, dimension, id) {
        if last.Upsert? {
          assert ops[|ops| - 1] == last;
        }
      } else {
        forall i | 0 <= i < |ops| && ops[i].Upsert? && Touches(ops[i], dimension, id)
                   && (forall j :: i < j < |ops| ==> !Touches(ops[j], dimension, id))
          ensures id in ApplyAll(map[], dimension, ops) && ApplyAll(map[], dimension, ops)[id] == ops[i].values
        {
          assert i < |init| && init[i] == ops[i];
        }
        if id in ApplyAll(map[], dimension, init) {
          var i :| 0 <= i < |init| && init[i].Upsert? && Touches(init[i], dimension, id)
                   && forall j :: i < j < |init| ==> !Touches(init[j], dimension, id);
          assert ops[i].Upsert? && forall j :: i < j < |ops| ==> !Touches(ops[j], dimension, id);
        }
      }
    }
  }

  function Loads(m: map<u64, Vector>, ids: seq<u64>): seq<Op>
    requires forall i :: 0 <= i < |ids| ==> ids[i] in m
  {
    seq(|ids|, i requires 0 <= i < |ids| => Upsert(ids[i], m[ids[i]]))
  }

  /** Loading a fresh index with the entries of a map, in any order, makes it hold that map; this is how
      a snapshot is built after an update. */
  lemma {:induction false} SnapshotHoldsMap(m: map<u64, Vector>, dimension: nat, ids: seq<u64>)
    requires forall i :: 0 <= i < |ids| ==> ids[i] in m && Accepted(dimension, m[ids[i]])
    ensures ApplyAll(map[], dimension, Loads(m, ids)) == map id | id in ids :: m[id]
    ensures (forall id :: id in m ==> id in ids) ==> ApplyAll(map[], dimension, Loads(m, ids)) == m
    decreases |ids|
  {
    if ids != [] {
      var init := ids[..|ids| - 1];
      SnapshotHoldsMap(m, dimension, init);
      SplitLast(ids);
      var ops := Loads(m, ids);
      assert ops[..|ops| - 1] == Loads(m, init);
    }
  }

  /** The hits a query has against an id-to-vector map. */
  function HitsOf(m: map<u64, Vector>, dot: (Vector, Vector) -> real, query: Vector): set<Hit> {
    set id | id in m :: Hit(id, dot(query, m[id]))
  }

  lemma {:induction false} HitsSize(m: map<u64, Vector>, dot: (Vector, Vector) -> real, query: Vector)
    ensures |HitsOf(m, dot, query)| == |m|
    decreases |m|
  {
    if m != map[] {
      var id :| id in m;
      var rest := m - {id};
      HitsSize(rest, dot, query);
      assert m.Keys == rest.Keys + {id};
      assert HitsOf(m, dot, query) == HitsOf(rest, dot, query) + {Hit(id, dot(query, m[id]))};
    } else {
      assert HitsOf(m, dot, query) == {};
    }
  }

  /** What the k best of a map are: min(k, n) of its ids, each with the score of its own vector, in descending
      order of score and ascending order of id, and every other id would stand behind all of them. */
  lemma {:induction false} AnswerMeans(m: map<u64, Vector>, dot: (Vector, Vector) -> real, query: Vector, k: nat,
                                       hits: seq<Hit>)
    requires IsTop(hits, HitsOf(m, dot, query), k)
    ensures |hits| == if k <= |m| then k else |m|
    ensures forall h :: h in hits ==> h.id in m && h.score == dot(query, m[h.id])
    ensures forall i, j :: 0 <= i < j < |hits| ==>
              hits[i].score > hits[j].score || (hits[i].score == hits[j].score && hits[i].id < hits[j].id)
    ensures forall id, t :: id in m && t in hits && (forall h :: h in hits ==> h.id != id) ==>
              t.score > dot(query, m[id]) || (t.score == dot(query, m[id]) && t.id < id)
  {
    TopMeans(hits, HitsOf(m, dot, query), k);
    HitsSize(m, dot, query);
    forall id, t | id in m && t in hits && (forall h :: h in hits ==> h.id != id)
      ensures t.score > dot(query, m[id]) || (t.score == dot(query, m[id]) && t.id < id)
    {
      var h := Hit(id, dot(query, m[id]));
      assert h in HitsOf(m, dot, query) && h !in hits;
    }
  }

  /** Two indexes that hold the same map answer every query alike, however they came to hold it. */
  lemma {:induction false} HistoryDoesNotMatter(
    dimension: nat, ops: seq<Op>, others: seq<Op>, dot: (Vector, Vector) -> real, query: Vector, k: nat,
    answer: seq<Hit>, other: seq<Hit>)
    requires forall id :: id in ApplyAll(map[], dimension, ops) <==> id in ApplyAll(map[], dimension, others)
    requires forall id :: id in ApplyAll(map[], dimension, ops) ==>
               ApplyAll(map[], dimension, ops)[id] == ApplyAll(map[], dimension, others)[id]
    requires IsTop(answer, HitsOf(ApplyAll(map[], dimension, ops), dot, query), k)
    requires IsTop(other, HitsOf(ApplyAll(map[], dimension, others), dot, query), k)
    ensures answer == other
  {
    var m := ApplyAll(map[], dimension, ops);
    assert m == ApplyAll(map[], dimension, others);
    TopIsUnique(answer, other, HitsOf(m, dot, query), k);
  }

  // ---------------------------------------------------------------- the structure

  datatype Record = Record(id: u64, values: Vector)

  /** The position map inverts the ids of the record vector. */
  predicate Indexed(records: seq<Record>, positions: map<u64, nat>) {
    && (forall i :: 0 <= i < |records| ==> records[i].id in positions && positions[records[i].id] == i)
    && (forall id :: id in positions ==> positions[id] < |records| && records[positions[id]].id == id)
  }

  /** The map a record vector stands for. */
  function Abstract(records: seq<Record>, positions: map<u64, nat>): (m: map<u64, Vector>)
    requires Indexed(records, positions)
    ensures m.Keys == positions.Keys
  {
    map id | id in positions :: records[positions[id]].values
  }

  function WithoutLast(records: seq<Record>, index: nat): (r: seq<Record>)
    requires index < |records|
    ensures |r| == |records| - 1
    ensures forall i :: 0 <= i < |r| ==> r[i] == if i == index then records[|records| - 1] else records[i]
  {
    records[index := records[|records| - 1]][..|records| - 1]
  }

  /** Moving the last record into the hole keeps the position map exact. */
  lemma {:induction false} SwapRemoveIndexed(records: seq<Record>, positions: map<u64, nat>, id: u64,
                                             after: map<u64, nat>)
    requires Indexed(records, positions) && id in positions
    requires var last := records[|records| - 1].id;
             after == if last == id then positions - {id} else positions[last := positions[id]] - {id}
    ensures Indexed(WithoutLast(records, positions[id]), after)
    ensures forall x :: x in after <==> x in positions && x != id
    ensures forall x :: x in after ==>
        WithoutLast(records, positions[id])[after[x]].values == records[positions[x]].values
  {
  }

  lemma {:induction false} OverwriteIndexed(records: seq<Record>, positions: map<u64, nat>, id: u64, values: Vector)
    requires Indexed(records, positions) && id in positions
    ensures var after := records[positions[id] := Record(id, values)];
            Indexed(after, positions) && Abstract(after, positions) == Abstract(records, positions)[id := values]
  {
  }

  lemma {:induction false} AppendIndexed(records: seq<Record>, positions: map<u64, nat>, id: u64, values: Vector)
    requires Indexed(records, positions) && id !in positions
    ensures var after, at := records + [Record(id, values)], positions[id := |records|];
            Indexed(after, at) && Abstract(after, at) == Abstract(records, positions)[id := values]
  {
  }

  class Index {
    const dimension: nat
    const dot: (Vector, Vector) -> real
    var records: seq<Record>
    var positions: map<u64, nat>

    ghost predicate Valid()
      reads this
    {
      dimension > 0 && Indexed(records, positions)
    }

    ghost function Contents(): map<u64, Vector>
      requires Valid()
      reads this
    {
      Abstract(records, positions)
    }

    constructor (dimension: nat, dot: (Vector, Vector) -> real)
      requires dimension > 0
      ensures Valid() && Contents() == map[] && this.dimension == dimension && this.dot == dot
    {
      this.dimension, this.dot, records, positions := dimension, dot, [], map[];
    }

    static method Create(dimension: nat, dot: (Vector, Vector) -> real) returns (r: Outcome<Index>)
      ensures r.Threw? <==> dimension == 0
      ensures r.Threw? ==> r.error == InvalidArgument
      ensures r.Returned? ==> fresh(r.value) && r.value.Valid() && r.value.Contents() == map[]
                              && r.value.dimension == dimension && r.value.dot == dot
    {
      if dimension == 0 {
        return Threw(InvalidArgument);
      }
      var index := new Index(dimension, dot);
      r := Returned(index);
    }

    method Upsert(id: u64, values: Vector) returns (r: Outcome<()>)
      requires Valid()
      modifies this
      ensures Valid() && Contents() == Apply(old(Contents()), dimension, Op.Upsert(id, values))
      ensures r == if Accepted(dimension, values) then Returned(()) else Threw(InvalidArgument)
    {
      if |values| != dimension {
        return Threw(InvalidArgument);
      }
      if !Finite(values) {
        return Threw(InvalidArgument);
      }
      if id in positions {
        OverwriteIndexed(records, positions, id, values);
        var index := positions[id];
        records := records[index := Record(id, values)];
      } else {
        AppendIndexed(records, positions, id, values);
        positions := positions[id := |records|];
        records := records + [Record(id, values)];
      }
      r := Returned(());
    }

    method Erase(id: u64)
      requires Valid()
      modifies this
      ensures Valid() && Contents() == Apply(old(Contents()), dimension, Op.Erase(id))
    {
      if id !in positions {
        assert Contents() - {id} == Contents();
        return;
      }
      var index, last := positions[id], |records| - 1;
      ghost var after := if records[last].id == id then positions - {id}
          else positions[records[last].id := index] - {id};
      SwapRemoveIndexed(records, positions, id, after);
      ghost var kept := WithoutLast(records, index);
      if index != last {
        records := records[index := records[last]];
        positions := positions[records[index].id := index];
      }
      records := records[..last];
      positions := positions - {id};
      assert records == kept && positions == after;
    }

    /** Any run of calls on one index. */
    method Replay(ops: seq<Op>)
      requires Valid()
      modifies this
      ensures Valid() && Contents() == ApplyAll(old(Contents()), dimension, ops)
    {
      var i := 0;
      assert ops[..0] == [];
      while i < |ops|
        invariant 0 <= i <= |ops| && Valid()
        invariant Contents() == ApplyAll(old(Contents()), dimension, ops[..i])
      {
        assert ops[..i + 1][..i] == ops[..i] && ops[..i + 1][i] == ops[i];
        match ops[i] {
          case Upsert(id, values) => var _ := Upsert(id, values);
          case Erase(id) => Erase(id);
        }
        i := i + 1;
      }
      assert ops[..i] == ops;
    }

    /** The k best of the map the index stands for, or an exception. */
    method Search(query: Vector, topK: nat) returns (r: Outcome<seq<Hit>>)
      requires Valid()
      ensures r.Threw? <==> topK > 0 && !Accepted(dimension, query)
      ensures r.Threw? ==> r.error == InvalidArgument
      ensures r.Returned? ==> IsTop(r.value, HitsOf(Contents(), dot, query), topK)
      ensures r.Returned? ==> |r.value| == if topK <= |Contents()| then topK else |Contents()|
      ensures r.Returned? ==> forall h :: h in r.value ==>
                h.id in Contents() && h.score == dot(query, Contents()[h.id])
      ensures r.Returned? ==> forall i, j :: 0 <= i < j < |r.value| ==>
                r.value[i].score > r.value[j].score
                || (r.value[i].score == r.value[j].score && r.value[i].id < r.value[j].id)
    {
      if topK == 0 {
        AnswerMeans(Contents(), dot, query, 0, []);
        return Returned([]);
      }
      if |query| != dimension {
        return Threw(InvalidArgument);
      }
      if !Finite(query) {
        return Threw(InvalidArgument);
      }
      var hits: seq<Hit> := [];
      var i := 0;
      while i < |records|
        invariant 0 <= i <= |records| && |hits| == i
        invariant forall j :: 0 <= j < i ==> hits[j] == Hit(records[j].id, dot(query, records[j].values))
      {
        hits := hits + [Hit(records[i].id, dot(query, records[i].values))];
        i := i + 1;
      }
      assert ToSet(hits) == HitsOf(Contents(), dot, query) by {
        forall h | h in HitsOf(Contents(), dot, query) ensures h in hits {
          assert hits[positions[h.id]] == h;
        }
      }
      var top := SortTop(hits, topK);
      AnswerMeans(Contents(), dot, query, topK, top);
      r := Returned(top);
    }
  }
}
