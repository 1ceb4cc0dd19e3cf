/** Search hits ordered by score descending, then id ascending: the order brute_force_index.cpp and
    reciprocal_rank_fusion.cpp sort by, and the meaning of "the k best". */
module Ranking {
  import opened Base

  datatype Hit = Hit(id: u64, score: real)

  predicate Better(a: Hit, b: Hit) {
    a.score > b.score || (a.score == b.score && a.id < b.id)
  }

  predicate Ranked(hits: seq<Hit>) {
    forall i, j :: 0 <= i < j < |hits| ==> Better(hits[i], hits[j])
  }

  predicate DistinctHitIds(hits: seq<Hit>) {
    forall i, j :: 0 <= i < j < |hits| ==> hits[i].id != hits[j].id
  }

  function ToSet(hits: seq<Hit>): set<Hit> {
    set h | h in hits
  }

  /** An id occurs with one score only. */
  ghost predicate Functional(all: set<Hit>) {
    forall a, b :: a in all && b in all && a.id == b.id ==> a == b
  }

  /** `top` lists the min(k, n) best of `all`, best first. */
  ghost predicate IsTop(top: seq<Hit>, all: set<Hit>, k: nat) {
    && |top| == Min(k, |all|)
    && Ranked(top)
    && (forall h :: h in top ==> h in all)
    && (forall h, t :: h in all && h !in top && t in top ==> Better(t, h))
  }

  /** Higher scores first, equal scores by ascending id, and nothing left out belongs in front of a listed hit. */
  lemma {:induction false} TopMeans(top: seq<Hit>, all: set<Hit>, k: nat)
    requires IsTop(top, all, k)
    ensures |top| == if k <= |all| then k else |all|
    ensures forall i, j :: 0 <= i < j < |top| ==>
              top[i].score > top[j].score || (top[i].score == top[j].score && top[i].id < top[j].id)
    ensures forall h, t :: h in all && h !in top && t in top ==>
              t.score > h.score || (t.score == h.score && t.id < h.id)
  {
    assert forall i, j :: 0 <= i < j < |top| ==> Better(top[i], top[j]);
  }

  // ---------------------------------------------------------------- the k best are unique

  lemma {:induction false} SameAt(a: seq<Hit>, b: seq<Hit>, all: set<Hit>, k: nat, i: nat)
    requires Functional(all) && IsTop(a, all, k) && IsTop(b, all, k) && i < |a|
    requires a[..i] == b[..i]
    ensures !Better(a[i], b[i])
  {
    var x := a[i];
    assert forall j :: 0 <= j < i ==> a[j] == a[..i][j] && b[j] == b[..i][j];
    if x in b {
      var j :| 0 <= j < |b| && b[j] == x;
    } else {
      assert b[i] in b;
    }
  }

  /** The list of the k best is determined by the set of hits: there is only one. */
  lemma {:induction false} TopIsUnique(a: seq<Hit>, b: seq<Hit>, all: set<Hit>, k: nat)
    requires Functional(all) && IsTop(a, all, k) && IsTop(b, all, k)
    ensures a == b
  {
    PrefixesAgree(a, b, all, k, |a|);
    assert a[..|a|] == a && b[..|a|] == b;
  }

  lemma {:induction false} PrefixesAgree(a: seq<Hit>, b: seq<Hit>, all: set<Hit>, k: nat, n: nat)
    requires Functional(all) && IsTop(a, all, k) && IsTop(b, all, k) && n <= |a|
    ensures a[..n] == b[..n]
    decreases n
  {
    if n > 0 {
      PrefixesAgree(a, b, all, k, n - 1);
      SameAt(a, b, all, k, n - 1);
      SameAt(b, a, all, k, n - 1);
      assert a[n - 1] in a && b[n - 1] in b;
      assert a[..n] == a[..n - 1] + [a[n - 1]] && b[..n] == b[..n - 1] + [b[n - 1]];
    }
  }

  // ---------------------------------------------------------------- sorting

  function Insert(h: Hit, hits: seq<Hit>): (r: seq<Hit>)
    ensures |r| == |hits| + 1
    ensures forall x :: x in r <==> x == h || x in hits
  {
    if hits == [] || Better(h, hits[0]) then [h] + hits
    else
      var rest := Insert(h, hits[1..]);
      assert hits == [hits[0]] + hits[1..];
      [hits[0]] + rest
  }

  lemma {:induction false} InsertRanked(h: Hit, hits: seq<Hit>)
    requires Ranked(hits) && forall x :: x in hits ==> x.id != h.id
    ensures Ranked(Insert(h, hits))
    decreases |hits|
  {
    if hits != [] && !Better(h, hits[0]) {
      assert hits[0] in hits && hits == [hits[0]] + hits[1..];
      InsertRanked(h, hits[1..]);
      var r := Insert(h, hits[1..]);
      forall x | x in r ensures Better(hits[0], x) {
        if x != h {
          var j :| 0 <= j < |hits[1..]| && hits[1..][j] == x;
          assert x == hits[j + 1];
        }
      }
    }
  }

  /** std::sort with the order above: the hits themselves, ranked. */
  method Sort(hits: seq<Hit>) returns (sorted: seq<Hit>)
    requires DistinctHitIds(hits)
    ensures Ranked(sorted) && |sorted| == |hits| && ToSet(sorted) == ToSet(hits)
  {
    sorted := [];
    var i := 0;
    while i < |hits|
      invariant 0 <= i <= |hits| && |sorted| == i && Ranked(sorted)
      invariant forall x :: x in sorted <==> x in hits[..i]
    {
      assert forall x :: x in hits[..i] ==> x.id != hits[i].id;
      InsertRanked(hits[i], sorted);
      sorted := Insert(hits[i], sorted);
      assert hits[..i + 1] == hits[..i] + [hits[i]];
      i := i + 1;
    }
    assert hits[..i] == hits;
  }

  lemma {:induction false} RankedTop(sorted: seq<Hit>, k: nat)
    requires Ranked(sorted)
    ensures IsTop(sorted[..Min(k, |sorted|)], ToSet(sorted), k)
  {
    assert DistinctHits(sorted) by {
      forall i, j | 0 <= i < j < |sorted| ensures sorted[i] != sorted[j] {
        assert Better(sorted[i], sorted[j]);
      }
    }
    SizeOfDistinct(sorted);
    var n := Min(k, |sorted|);
    forall h, t | h in ToSet(sorted) && h !in sorted[..n] && t in sorted[..n] ensures Better(t, h) {
      assert forall m :: 0 <= m < n ==> sorted[..n][m] == sorted[m];
      var i :| 0 <= i < |sorted| && sorted[i] == h;
      var j :| 0 <= j < n && sorted[..n][j] == t;
    }
  }

  predicate DistinctHits(hits: seq<Hit>) {
    forall i, j :: 0 <= i < j < |hits| ==> hits[i] != hits[j]
  }

  lemma {:induction false} SizeOfDistinct(hits: seq<Hit>)
    requires DistinctHits(hits)
    ensures |ToSet(hits)| == |hits|
    decreases |hits|
  {
    if hits != [] {
      var init, last := hits[..|hits| - 1], hits[|hits| - 1];
      SizeOfDistinct(init);
      assert hits == init + [last] && last !in init;
      assert ToSet(hits) == ToSet(init) + {last};
    }
  }

  /** Sort, then resize to k: the k best. */
  method SortTop(hits: seq<Hit>, k: nat) returns (top: seq<Hit>)
    requires DistinctHitIds(hits)
    ensures IsTop(top, ToSet(hits), k)
  {
    var sorted := Sort(hits);
    RankedTop(sorted, k);
    top := if |sorted| > k then sorted[..k] else sorted;
    assert top == sorted[..Min(k, |sorted|)];
  }
}
