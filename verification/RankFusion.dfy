/** reciprocal_rank_fusion.cpp over any number of ranked lists, with exact real shares. */
module RankFusion {
  import opened Base
  import opened Ranking

  // ---------------------------------------------------------------- rank sums

  /** What an entry at `index` adds to the score of its id. */
  function Share(rankConstant: nat, index: nat): real {
    1.0 / (rankConstant + index + 1) as real
  }

  lemma {:induction false} SharesDecrease(c: nat, i: nat, j: nat)
    requires i < j
    ensures Share(c, i) > Share(c, j) > 0.0
  {
    InverseDecreases((c + i + 1) as real, (c + j + 1) as real);
  }

  lemma {:induction false} InverseDecreases(x: real, y: real)
    requires 0.0 < x < y
    ensures 1.0 / x > 1.0 / y > 0.0
  {
    var s, t := 1.0 / x, 1.0 / y;
    Inverse(x, s);
    Inverse(y, t);
    Cancels(s, t, x, y);
  }

  lemma {:induction false} Inverse(x: real, s: real)
    requires x > 0.0 && s == 1.0 / x
    ensures s * x == 1.0 && s > 0.0
  {
  }

  lemma {:induction false} Cancels(s: real, t: real, x: real, y: real)
    requires s > 0.0 && t > 0.0 && 0.0 < x < y && s * x == 1.0 && t * y == 1.0
    ensures s > t
  {
    PositiveProduct(t, y - x, t * (y - x));
    assert t * (y - x) == t * y - t * x;
    assert (s - t) * x == s * x - t * x;
    PositiveFactor(s - t, x);
  }

  function ListScore(hits: seq<Hit>, c: nat, id: u64): (score: real)
  {
    if hits == [] then 0.0
    else
      var n := |hits| - 1;
      ListScore(hits[..n], c, id) + if hits[n].id == id then Share(c, n) else 0.0
  }

  function Total(lists: seq<seq<Hit>>, c: nat, id: u64): real {
    if lists == [] then 0.0
    else Total(lists[..|lists| - 1], c, id) + ListScore(lists[|lists| - 1], c, id)
  }

  function IdsOf(hits: seq<Hit>): set<u64> {
    set h | h in hits :: h.id
  }

  function Mentioned(lists: seq<seq<Hit>>): set<u64> {
    set l, h | l in lists && h in l :: h.id
  }

  /** Every mentioned id with its rank sum. */
  function Fused(lists: seq<seq<Hit>>, c: nat): set<Hit> {
    set id | id in Mentioned(lists) :: Hit(id, Total(lists, c, id))
  }

  // ---------------------------------------------------------------- the order of the lists

  lemma {:induction false} TotalWithout(lists: seq<seq<Hit>>, c: nat, id: u64, j: nat)
    requires j < |lists|
    ensures Total(lists, c, id) == Total(lists[..j] + lists[j + 1..], c, id) + ListScore(lists[j], c, id)
    decreases |lists|
  {
    var n := |lists| - 1;
    var rest := lists[..j] + lists[j + 1..];
    if j == n {
      assert rest == lists[..n];
    } else {
      TotalWithout(lists[..n], c, id, j);
      assert rest[..|rest| - 1] == lists[..n][..j] + lists[..n][j + 1..];
      assert rest[|rest| - 1] == lists[n];
    }
  }

  lemma {:induction false} TotalOfPermutation(a: seq<seq<Hit>>, b: seq<seq<Hit>>, c: nat, id: u64)
    requires multiset(a) == multiset(b)
    ensures Total(a, c, id) == Total(b, c, id)
    decreases |a|
  {
    if a == [] {
      assert |multiset(a)| == |multiset(b)| && b == [];
    } else {
      var last := a[|a| - 1];
      SplitLast(a);
      assert last in multiset(a);
      var j :| 0 <= j < |b| && b[j] == last;
      RemovedAt(b, j);
      TotalWithout(b, c, id, j);
      TotalOfPermutation(a[..|a| - 1], b[..j] + b[j + 1..], c, id);
    }
  }

  /** The fused ranking does not depend on the order in which the lists are given. */
  lemma {:induction false} ListOrderDoesNotMatter(
    lists: seq<seq<Hit>>, others: seq<seq<Hit>>, c: nat, k: nat, fused: seq<Hit>, other: seq<Hit>)
    requires multiset(lists) == multiset(others)
    requires IsTop(fused, Fused(lists, c), k) && IsTop(other, Fused(others, c), k)
    ensures fused == other
  {
    forall id ensures Total(lists, c, id) == Total(others, c, id) { TotalOfPermutation(lists, others, c, id); }
    assert forall l :: l in lists <==> l in multiset(lists);
    assert forall l :: l in others <==> l in multiset(others);
    assert Mentioned(lists) == Mentioned(others);
    assert Fused(lists, c) == Fused(others, c);
    TopIsUnique(fused, other, Fused(lists, c), k);
  }

  // ---------------------------------------------------------------- dominance

  /** `a` stands before `b` in the list. */
  ghost predicate Before(hits: seq<Hit>, a: u64, b: u64) {
    exists i, j :: 0 <= i < j < |hits| && hits[i].id == a && hits[j].id == b
  }

  lemma {:induction false} ScoreOfAbsent(hits: seq<Hit>, c: nat, id: u64)
    requires id !in IdsOf(hits)
    ensures ListScore(hits, c, id) == 0.0
    decreases |hits|
  {
    if hits != [] {
      var n := |hits| - 1;
      assert hits[n] in hits && forall h :: h in hits[..n] ==> h in hits;
      ScoreOfAbsent(hits[..n], c, id);
    }
  }

  /** In a duplicate-free list an id scores one over the constant plus its one-based position. */
  lemma {:induction false} ScoreOfPlaced(hits: seq<Hit>, c: nat, i: nat)
    requires DistinctHitIds(hits) && i < |hits|
    ensures ListScore(hits, c, hits[i].id) == Share(c, i) == 1.0 / (c + i + 1) as real
    decreases |hits|
  {
    var n := |hits| - 1;
    if i == n {
      ScoreOfAbsent(hits[..n], c, hits[n].id);
    } else {
      ScoreOfPlaced(hits[..n], c, i);
    }
  }

  lemma {:induction false} ListDominance(hits: seq<Hit>, c: nat, a: u64, b: u64)
    requires DistinctHitIds(hits) && (b in IdsOf(hits) ==> Before(hits, a, b))
    ensures ListScore(hits, c, a) >= ListScore(hits, c, b)
    ensures b in IdsOf(hits) ==> ListScore(hits, c, a) > ListScore(hits, c, b)
  {
    if b in IdsOf(hits) {
      var i, j :| 0 <= i < j < |hits| && hits[i].id == a && hits[j].id == b;
      ScoreOfPlaced(hits, c, i);
      ScoreOfPlaced(hits, c, j);
      SharesDecrease(c, i, j);
    } else {
      ScoreOfAbsent(hits, c, b);
      if a in IdsOf(hits) {
        var i :| 0 <= i < |hits| && hits[i].id == a;
        ScoreOfPlaced(hits, c, i);
        SharesDecrease(c, i, i + 1);
      } else {
        ScoreOfAbsent(hits, c, a);
      }
    }
  }

  /** What a duplicate-free list adds to the rank sum of an id: one over the constant plus its position, and
      nothing where it is absent. */
  lemma {:induction false} OneListMore(lists: seq<seq<Hit>>, hits: seq<Hit>, c: nat, id: u64)
    requires DistinctHitIds(hits)
    ensures Total([], c, id) == 0.0
    ensures forall i :: 0 <= i < |hits| && hits[i].id == id ==>
              Total(lists + [hits], c, id) == Total(lists, c, id) + 1.0 / (c + i + 1) as real
    ensures (forall i :: 0 <= i < |hits| ==> hits[i].id != id) ==>
              Total(lists + [hits], c, id) == Total(lists, c, id)
  {
    assert (lists + [hits])[..|lists|] == lists;
    forall i | 0 <= i < |hits| && hits[i].id == id
      ensures Total(lists + [hits], c, id) == Total(lists, c, id) + 1.0 / (c + i + 1) as real
    {
      ScoreOfPlaced(hits, c, i);
    }
    if forall i :: 0 <= i < |hits| ==> hits[i].id != id { ScoreOfAbsent(hits, c, id); }
  }

  /** In any list: every place adds its own share, so an id that stands twice scores twice. */
  lemma {:induction false} OneHitMore(hits: seq<Hit>, h: Hit, c: nat, id: u64)
    ensures ListScore([], c, id) == 0.0
    ensures ListScore(hits + [h], c, id)
            == ListScore(hits, c, id) + if h.id == id then 1.0 / (c + |hits| + 1) as real else 0.0
  {
    assert (hits + [h])[..|hits|] == hits;
  }

  ghost predicate Dominates(lists: seq<seq<Hit>>, a: u64, b: u64) {
    forall l :: l in lists ==> DistinctHitIds(l) && (b in IdsOf(l) ==> Before(l, a, b))
  }

  lemma {:induction false} TotalDominance(lists: seq<seq<Hit>>, c: nat, a: u64, b: u64)
    requires Dominates(lists, a, b)
    ensures Total(lists, c, a) >= Total(lists, c, b)
    ensures b in Mentioned(lists) ==> Total(lists, c, a) > Total(lists, c, b)
    decreases |lists|
  {
    if lists != [] {
      var init, last := lists[..|lists| - 1], lists[|lists| - 1];
      assert lists == init + [last];
      TotalDominance(init, c, a, b);
      ListDominance(last, c, a, b);
    }
  }

  /** If `a` stands before `b` in every list that has `b`, the fusion puts `a` strictly ahead, and
      returns it whenever it returns `b`, for every k. */
  lemma {:induction false} Dominance(lists: seq<seq<Hit>>, c: nat, k: nat, a: u64, b: u64, fused: seq<Hit>, j: nat)
    requires Dominates(lists, a, b)
    requires IsTop(fused, Fused(lists, c), k)
    requires j < |fused| && fused[j].id == b
    ensures exists i :: 0 <= i < j && fused[i].id == a && fused[i].score > fused[j].score
  {
    assert fused[j] in fused && b in Mentioned(lists);
    TotalDominance(lists, c, a, b);
    var l, h :| l in lists && h in l && h.id == b;
    assert b in IdsOf(l);
    var m, n :| 0 <= m < n < |l| && l[m].id == a && l[n].id == b;
    assert l[m] in l && a in Mentioned(lists);
    var top := Hit(a, Total(lists, c, a));
    assert top in Fused(lists, c) && Better(top, fused[j]) && !Better(fused[j], top);
    assert top in fused;
    var i :| 0 <= i < |fused| && fused[i] == top;
  }

  // ---------------------------------------------------------------- the loops

  /** One list added to the score map; a new id starts from zero. */
  method Accumulate(before: map<u64, real>, hits: seq<Hit>, c: nat) returns (scores: map<u64, real>)
    ensures scores.Keys == before.Keys + IdsOf(hits)
    ensures forall id :: id in scores ==>
              scores[id] == (if id in before then before[id] else 0.0) + ListScore(hits, c, id)
  {
    scores := before;
    var index := 0;
    while index < |hits|
      invariant 0 <= index <= |hits|
      invariant scores.Keys == before.Keys + IdsOf(hits[..index])
      invariant forall id :: id in scores ==>
                  scores[id] == (if id in before then before[id] else 0.0) + ListScore(hits[..index], c, id)
    {
      var id := hits[index].id;
      NextHit(hits, index, c);
      if id !in scores { ScoreOfAbsent(hits[..index], c, id); }
      var sum := if id in scores then scores[id] else 0.0;
      scores := scores[id := sum + Share(c, index)];
      index := index + 1;
    }
    assert hits[..index] == hits;
  }

  lemma {:induction false} NextHit(hits: seq<Hit>, index: nat, c: nat)
    requires index < |hits|
    ensures forall id :: ListScore(hits[..index + 1], c, id) ==
              ListScore(hits[..index], c, id) + if hits[index].id == id then Share(c, index) else 0.0
    ensures IdsOf(hits[..index + 1]) == IdsOf(hits[..index]) + {hits[index].id}
  {
    assert hits[..index + 1] == hits[..index] + [hits[index]];
    assert hits[..index + 1][..index] == hits[..index];
  }

  lemma {:induction false} NextList(lists: seq<seq<Hit>>, n: nat, c: nat)
    requires n < |lists|
    ensures Mentioned(lists[..n + 1]) == Mentioned(lists[..n]) + IdsOf(lists[n])
    ensures forall id :: Total(lists[..n + 1], c, id) == Total(lists[..n], c, id) + ListScore(lists[n], c, id)
  {
    assert lists[..n + 1] == lists[..n] + [lists[n]];
    assert lists[..n + 1][..n] == lists[..n];
  }

  lemma {:induction false} TotalOfAbsent(lists: seq<seq<Hit>>, c: nat, id: u64)
    requires id !in Mentioned(lists)
    ensures Total(lists, c, id) == 0.0
    decreases |lists|
  {
    if lists != [] {
      var init, last := lists[..|lists| - 1], lists[|lists| - 1];
      assert lists == init + [last];
      TotalOfAbsent(init, c, id);
      ScoreOfAbsent(last, c, id);
    }
  }

  /** The score map read out in whatever order it iterates. */
  method Entries(scores: map<u64, real>) returns (hits: seq<Hit>)
    ensures DistinctHitIds(hits)
    ensures ToSet(hits) == set id | id in scores :: Hit(id, scores[id])
  {
    hits := [];
    var rest := scores.Keys;
    while rest != {}
      invariant rest <= scores.Keys && DistinctHitIds(hits)
      invariant forall h :: h in hits <==> h.id in scores && h.id !in rest && h == Hit(h.id, scores[h.id])
      decreases |rest|
    {
      var id :| id in rest;
      hits := hits + [Hit(id, scores[id])];
      rest := rest - {id};
    }
  }

  lemma {:induction false} FusedMeans(lists: seq<seq<Hit>>, c: nat, k: nat, fused: seq<Hit>)
    requires IsTop(fused, Fused(lists, c), k)
    ensures forall h :: h in fused ==>
              (exists l, x :: l in lists && x in l && x.id == h.id) && h.score == Total(lists, c, h.id)
    ensures forall i, j :: 0 <= i < j < |fused| ==>
              fused[i].score > fused[j].score || (fused[i].score == fused[j].score && fused[i].id < fused[j].id)
  {
    TopMeans(fused, Fused(lists, c), k);
  }

  /** The exact top k of the rank sums. */
  method Fuse(lists: seq<seq<Hit>>, topK: nat, rankConstant: nat) returns (r: Outcome<seq<Hit>>)
    ensures r.Threw? <==> topK > 0 && rankConstant == 0
    ensures r.Threw? ==> r.error == InvalidArgument
    ensures r.Returned? ==> IsTop(r.value, Fused(lists, rankConstant), topK)
    ensures r.Returned? ==> forall h :: h in r.value ==>
              (exists l, x :: l in lists && x in l && x.id == h.id) && h.score == Total(lists, rankConstant, h.id)
    ensures r.Returned? ==> forall i, j :: 0 <= i < j < |r.value| ==>
              r.value[i].score > r.value[j].score
              || (r.value[i].score == r.value[j].score && r.value[i].id < r.value[j].id)
  {
    if topK == 0 {
      return Returned([]);
    }
    if rankConstant == 0 {
      return Threw(InvalidArgument);
    }
    var scores: map<u64, real> := map[];
    var n := 0;
    while n < |lists|
      invariant 0 <= n <= |lists|
      invariant scores.Keys == Mentioned(lists[..n])
      invariant forall id :: id in scores ==> scores[id] == Total(lists[..n], rankConstant, id)
    {
      forall id | id !in scores ensures Total(lists[..n], rankConstant, id) == 0.0 {
        TotalOfAbsent(lists[..n], rankConstant, id);
      }
      NextList(lists, n, rankConstant);
      scores := Accumulate(scores, lists[n], rankConstant);
      n := n + 1;
    }
    assert lists[..n] == lists;
    var hits := Entries(scores);
    assert ToSet(hits) == Fused(lists, rankConstant);
    var fused := SortTop(hits, topK);
    FusedMeans(lists, rankConstant, topK, fused);
    r := Returned(fused);
  }
}
