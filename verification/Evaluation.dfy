/** evaluation.cpp: recall, reciprocal rank and nDCG of a ranking against graded relevance.

    Gains are 2^grade - 1; `level(i)` stands for log2(i + 2), of which only "positive and strictly
    increasing" is used. Sums and quotients are exact reals. */
module Evaluation {
  import opened Base

  ghost predicate GoodLevels(level: nat -> real) {
    && (forall i: nat :: level(i) > 0.0)
    && (forall i: nat, j: nat :: i < j ==> level(i) < level(j))
  }

  function Pow2(n: nat): (p: nat)
    ensures p >= 1
  {
    if n == 0 then 1 else 2 * Pow2(n - 1)
  }

  function Gain(grade: nat): nat {
    Pow2(grade) - 1
  }

  lemma {:induction false} GainIncreases(a: nat, b: nat)
    requires a < b
    ensures Gain(a) < Gain(b)
    decreases b
  {
    if a < b - 1 { GainIncreases(a, b - 1); }
  }

  /** Gain plus one is the power of two: one grade more doubles it, and grades add up as exponents do. */
  lemma {:induction false} GainIsExponential(a: nat, b: nat)
    ensures Gain(0) == 0 && Gain(1) == 1 && Gain(3) == 7
    ensures Gain(a + b) + 1 == (Gain(a) + 1) * (Gain(b) + 1)
    decreases b
  {
    if b > 0 { GainIsExponential(a, b - 1); }
  }

  function Grade(relevance: map<u64, nat>, id: u64): nat {
    if id in relevance then relevance[id] else 0
  }

  function GradesOf(ids: seq<u64>, relevance: map<u64, nat>): (grades: seq<nat>)
    ensures |grades| == |ids|
    ensures forall i :: 0 <= i < |ids| ==> grades[i] == if ids[i] in relevance then relevance[ids[i]] else 0
  {
    seq(|ids|, i requires 0 <= i < |ids| => Grade(relevance, ids[i]))
  }

  function At(grades: seq<nat>, i: nat): nat {
    if i < |grades| then grades[i] else 0
  }

  function Term(gain: nat, scale: real): real
    requires scale > 0.0
  {
    gain as real / scale
  }

  /** Discounted gain of the first k places; places past the end add nothing. */
  function Dcg(grades: seq<nat>, k: nat, level: nat -> real): real
    requires GoodLevels(level)
  {
    if k == 0 then 0.0
    else Dcg(grades, k - 1, level) + Term(Gain(At(grades, k - 1)), level(k - 1))
  }

  /** A place among the first k adds its gain over its own discount, and nothing else; so with no grade
      anywhere the sum is zero. */
  lemma {:induction false} PlaceContributes(grades: seq<nat>, k: nat, level: nat -> real, i: nat)
    requires GoodLevels(level) && i < k && i < |grades|
    ensures Dcg(grades, k, level) == Dcg(grades[i := 0], k, level) + Gain(grades[i]) as real / level(i)
    ensures Dcg([], k, level) == 0.0
    decreases k
  {
    DcgOfNothing(k, level);
    var without := grades[i := 0];
    if i == k - 1 {
      DcgOfSame(grades, without, i, level);
      NothingGained(level(i));
    } else {
      PlaceContributes(grades, k - 1, level, i);
      assert At(grades, k - 1) == At(without, k - 1);
    }
  }

  lemma {:induction false} NothingGained(scale: real)
    requires scale > 0.0
    ensures Term(Gain(0), scale) == 0.0
  {
  }

  predicate Descending(grades: seq<nat>) {
    forall i, j :: 0 <= i < j < |grades| ==> grades[i] >= grades[j]
  }

  function WithGrade(relevance: map<u64, nat>, grade: nat): set<u64> {
    set id | id in relevance && relevance[id] == grade
  }

  function Relevant(relevance: map<u64, nat>): set<u64> {
    set id | id in relevance && relevance[id] > 0
  }

  /** The positive grades of the map, best first. */
  ghost predicate IsIdeal(ideal: seq<nat>, relevance: map<u64, nat>) {
    && Descending(ideal)
    && (forall g :: g in ideal ==> g > 0)
    && (forall g: nat :: g > 0 ==> multiset(ideal)[g] == |WithGrade(relevance, g)|)
    && |ideal| == |Relevant(relevance)|
  }

  predicate Distinct(ids: seq<u64>) {
    forall i, j :: 0 <= i < j < |ids| ==> ids[i] != ids[j]
  }

  function IdsIn(ids: seq<u64>): set<u64> {
    set id | id in ids
  }

  // ---------------------------------------------------------------- sums of gains

  /** Gain of the first m places, undiscounted. */
  function SumTop(grades: seq<nat>, m: nat): nat {
    if m == 0 || grades == [] then 0 else Gain(grades[0]) + SumTop(grades[1..], m - 1)
  }

  lemma {:induction false} SumTopStep(grades: seq<nat>, m: nat)
    ensures SumTop(grades, m + 1) == SumTop(grades, m) + Gain(At(grades, m))
    decreases |grades|
  {
    if grades != [] && m > 0 {
      SumTopStep(grades[1..], m - 1);
    }
  }

  lemma {:induction false} SumTopOfPrefix(grades: seq<nat>, m: nat)
    requires m <= |grades|
    ensures SumTop(grades, m) == SumTop(grades[..m], m)
    decreases m
  {
    if m > 0 {
      assert grades[..m][1..] == grades[1..][..m - 1];
      SumTopOfPrefix(grades[1..], m - 1);
    }
  }

  lemma {:induction false} SumTopPastEnd(grades: seq<nat>, m: nat)
    requires m >= |grades|
    ensures SumTop(grades, m) == SumTop(grades, |grades|)
    decreases |grades|
  {
    if grades != [] { SumTopPastEnd(grades[1..], m - 1); }
  }

  lemma {:induction false} SumTopWithout(grades: seq<nat>, j: nat)
    requires j < |grades|
    ensures var rest := grades[..j] + grades[j + 1..];
            SumTop(grades, |grades|) == Gain(grades[j]) + SumTop(rest, |rest|)
    decreases j
  {
    var rest := grades[..j] + grades[j + 1..];
    if j == 0 {
      assert rest == grades[1..];
    } else {
      SumTopWithout(grades[1..], j - 1);
      assert rest[1..] == grades[1..][..j - 1] + grades[1..][j..];
    }
  }

  lemma {:induction false} SumTopOfTail(ideal: seq<nat>, m: nat)
    requires Descending(ideal) && ideal != []
    ensures SumTop(ideal[1..], m) <= SumTop(ideal, m)
    decreases |ideal|
  {
    if m > 0 && |ideal| > 1 {
      SumTopOfTail(ideal[1..], m - 1);
      if ideal[0] > ideal[1] { GainIncreases(ideal[1], ideal[0]); }
    }
  }

  lemma {:induction false} NoGain(grades: seq<nat>)
    requires forall g :: g in grades ==> g == 0
    ensures SumTop(grades, |grades|) == 0
    decreases |grades|
  {
    if grades != [] {
      assert grades[0] in grades && forall g :: g in grades[1..] ==> g in grades;
      NoGain(grades[1..]);
    }
  }

  /** The positive members of `grades` are drawn from `ideal`. */
  ghost predicate DrawnFrom(grades: seq<nat>, ideal: seq<nat>) {
    forall g: nat :: g > 0 ==> multiset(grades)[g] <= multiset(ideal)[g]
  }

  lemma {:induction false} DrawnWithoutHead(grades: seq<nat>, ideal: seq<nat>, j: nat)
    requires ideal != [] && DrawnFrom(grades, ideal) && j < |grades| && grades[j] == ideal[0]
    ensures DrawnFrom(grades[..j] + grades[j + 1..], ideal[1..])
  {
    RemovedAt(grades, j);
    SplitFirst(ideal);
    var h := ideal[0];
    var rest, tail := multiset(grades[..j] + grades[j + 1..]), multiset(ideal[1..]);
    forall g: nat | g > 0 ensures rest[g] <= tail[g] {
      assert multiset(grades)[g] <= multiset(ideal)[g];
    }
  }

  lemma {:induction false} DrawnFromTail(grades: seq<nat>, ideal: seq<nat>)
    requires ideal != [] && DrawnFrom(grades, ideal) && ideal[0] !in grades
    ensures DrawnFrom(grades, ideal[1..])
  {
    SplitFirst(ideal);
    assert ideal[0] !in multiset(grades);
  }

  /** No choice of n members of the ideal list gains more than its first n. */
  lemma {:induction false} TopGainsMost(grades: seq<nat>, ideal: seq<nat>)
    requires Descending(ideal) && DrawnFrom(grades, ideal)
    ensures SumTop(grades, |grades|) <= SumTop(ideal, |grades|)
    decreases |ideal|
  {
    if ideal == [] {
      forall g | g in grades ensures g == 0 { assert multiset(grades)[g] > 0; }
      NoGain(grades);
    } else if ideal[0] in grades {
      var j :| 0 <= j < |grades| && grades[j] == ideal[0];
      var rest := grades[..j] + grades[j + 1..];
      DrawnWithoutHead(grades, ideal, j);
      TopGainsMost(rest, ideal[1..]);
      SumTopWithout(grades, j);
    } else {
      DrawnFromTail(grades, ideal);
      TopGainsMost(grades, ideal[1..]);
      SumTopOfTail(ideal, |grades|);
    }
  }

  // ---------------------------------------------------------------- distinct ids draw from the ideal

  /** The ranked ids of one grade. */
  function RankedWith(ids: seq<u64>, relevance: map<u64, nat>, grade: nat): set<u64> {
    set id | id in ids && Grade(relevance, id) == grade
  }

  lemma {:induction false} CountOfGrade(ids: seq<u64>, relevance: map<u64, nat>, grade: nat)
    requires Distinct(ids)
    ensures multiset(GradesOf(ids, relevance))[grade] == |RankedWith(ids, relevance, grade)|
    decreases |ids|
  {
    if ids != [] {
      var init, last := ids[..|ids| - 1], ids[|ids| - 1];
      CountOfGrade(init, relevance, grade);
      SplitLast(ids);
      assert last !in init;
      assert GradesOf(ids, relevance) == GradesOf(init, relevance) + [Grade(relevance, last)];
      RankedWithLast(init, last, relevance, grade);
    }
  }

  lemma {:induction false} RankedWithLast(init: seq<u64>, last: u64, relevance: map<u64, nat>, grade: nat)
    requires last !in init
    ensures |RankedWith(init + [last], relevance, grade)| ==
            |RankedWith(init, relevance, grade)| + if Grade(relevance, last) == grade then 1 else 0
  {
    assert RankedWith(init + [last], relevance, grade) ==
           RankedWith(init, relevance, grade) + if Grade(relevance, last) == grade then {last} else {};
  }

  lemma {:induction false} DistinctDrawn(ids: seq<u64>, relevance: map<u64, nat>, ideal: seq<nat>)
    requires Distinct(ids) && IsIdeal(ideal, relevance)
    ensures DrawnFrom(GradesOf(ids, relevance), ideal)
  {
    forall g: nat | g > 0 ensures multiset(GradesOf(ids, relevance))[g] <= multiset(ideal)[g] {
      CountOfGrade(ids, relevance, g);
      SubsetSize(RankedWith(ids, relevance, g), WithGrade(relevance, g));
    }
  }

  /** Undiscounted, place by place: the ideal is never behind. */
  lemma {:induction false} PrefixDominance(ids: seq<u64>, relevance: map<u64, nat>, ideal: seq<nat>, k: nat, m: nat)
    requires Distinct(ids[..Min(k, |ids|)]) && IsIdeal(ideal, relevance) && m <= k
    ensures SumTop(GradesOf(ids, relevance), m) <= SumTop(ideal, m)
  {
    var n := Min(m, |ids|);
    var first, grades := ids[..n], GradesOf(ids, relevance);
    assert first == ids[..Min(k, |ids|)][..n];
    assert GradesOf(first, relevance) == grades[..n];
    DistinctDrawn(first, relevance, ideal);
    TopGainsMost(grades[..n], ideal);
    SumTopOfPrefix(grades, n);
    if m > |ids| {
      SumTopPastEnd(grades, m);
      SumTopMonotone(ideal, n, m);
    }
  }

  lemma {:induction false} SumTopMonotone(grades: seq<nat>, n: nat, m: nat)
    requires n <= m
    ensures SumTop(grades, n) <= SumTop(grades, m)
    decreases m - n
  {
    if n < m {
      SumTopMonotone(grades, n + 1, m);
      SumTopStep(grades, n);
    }
  }

  // ---------------------------------------------------------------- summation by parts

  ghost predicate Dominated(grades: seq<nat>, ideal: seq<nat>, k: nat) {
    forall m: nat :: m <= k ==> SumTop(grades, m) <= SumTop(ideal, m)
  }

  /** A lead in discounted gain covers a lead in plain gain at a scale: lead >= sums / scale. */
  ghost function Covers(): (real, int, real) -> bool {
    (lead: real, sums: int, scale: real) => lead * scale >= sums as real
  }

  lemma {:induction false} NextTerm(lead: real, sums: int, a: nat, b: nat, low: real, high: real, next: real)
    requires 0.0 < low <= high && lead >= 0.0 && Covers()(lead, sums, low) && sums + b - a >= 0
    requires next == lead + Term(b, high) - Term(a, high)
    ensures Covers()(next, sums + b - a, high) && next >= 0.0
    ensures next == 0.0 && low < high ==> lead == 0.0
  {
    var x := next * high;
    var p, q := Scale(lead, low, high);
    TermTimes(a, high);
    TermTimes(b, high);
    Distribute(lead, Term(b, high), Term(a, high), high);
    assert x == q + b as real - a as real;
    Sign(next, high);
    Squeeze(lead, p, q, x, sums, b - a, low < high);
  }

  lemma {:induction false} Squeeze(lead: real, p: real, q: real, x: real, sums: int, gap: int, strict: bool)
    requires p >= sums as real && q >= p && (strict && lead > 0.0 ==> q > p)
    requires x == q + gap as real && sums + gap >= 0
    ensures x >= (sums + gap) as real >= 0.0
    ensures x == 0.0 && strict ==> lead <= 0.0
  {
  }

  lemma {:induction false} TermTimes(gain: nat, scale: real)
    requires scale > 0.0
    ensures Term(gain, scale) * scale == gain as real
  {
  }

  lemma {:induction false} Distribute(x: real, y: real, z: real, scale: real)
    ensures (x + y - z) * scale == x * scale + y * scale - z * scale
  {
  }

  lemma {:induction false} Scale(x: real, low: real, high: real) returns (p: real, q: real)
    requires x >= 0.0 && low <= high
    ensures p == x * low && q == x * high && p <= q && (x > 0.0 && low < high ==> p < q)
  {
    var gap := x * (high - low);
    p, q := x * low, x * low + gap;
    if x > 0.0 && low < high { PositiveProduct(x, high - low, gap); }
  }

  lemma {:induction false} Sign(x: real, scale: real)
    requires scale > 0.0
    ensures x < 0.0 ==> x * scale < 0.0
    ensures x == 0.0 ==> x * scale == 0.0
  {
  }

  function Lead(grades: seq<nat>, ideal: seq<nat>, k: nat, level: nat -> real): real
    requires GoodLevels(level)
  {
    Dcg(ideal, k, level) - Dcg(grades, k, level)
  }

  function LeadOfSums(grades: seq<nat>, ideal: seq<nat>, k: nat): int {
    SumTop(ideal, k) - SumTop(grades, k)
  }

  /** The lead of the ideal in plain gain bounds its lead in discounted gain, and a lead once won is
      never lost again. */
  lemma {:induction false} LeadSurvivesDiscount(grades: seq<nat>, ideal: seq<nat>, k: nat, level: nat -> real)
    requires GoodLevels(level) && Dominated(grades, ideal, k)
    ensures Lead(grades, ideal, k, level) >= 0.0
    ensures k > 0 ==> Covers()(Lead(grades, ideal, k, level), LeadOfSums(grades, ideal, k), level(k - 1))
    ensures k > 0 && Lead(grades, ideal, k, level) == 0.0 ==> Lead(grades, ideal, k - 1, level) == 0.0
    decreases k
  {
    if k > 0 {
      LeadSurvivesDiscount(grades, ideal, k - 1, level);
      SumTopStep(grades, k - 1);
      SumTopStep(ideal, k - 1);
      var low := if k > 1 then level(k - 2) else level(0) / 2.0;
      var a, b := Gain(At(grades, k - 1)), Gain(At(ideal, k - 1));
      assert SumTop(grades, k) <= SumTop(ideal, k);
      NextTerm(Lead(grades, ideal, k - 1, level), LeadOfSums(grades, ideal, k - 1), a, b,
               low, level(k - 1), Lead(grades, ideal, k, level));
    }
  }

  /** Equal discounted gain forces equal grades at every place. */
  lemma {:induction false} EqualLeadsAgree(grades: seq<nat>, ideal: seq<nat>, k: nat, level: nat -> real)
    requires GoodLevels(level) && Dominated(grades, ideal, k) && Lead(grades, ideal, k, level) == 0.0
    ensures forall i: nat :: i < k ==> At(grades, i) == At(ideal, i)
    decreases k
  {
    if k > 0 {
      LeadSurvivesDiscount(grades, ideal, k, level);
      SameTerm(Gain(At(grades, k - 1)), Gain(At(ideal, k - 1)), level(k - 1));
      SameGain(At(grades, k - 1), At(ideal, k - 1));
      EqualLeadsAgree(grades, ideal, k - 1, level);
    }
  }

  lemma {:induction false} SameTerm(a: nat, b: nat, scale: real)
    requires scale > 0.0 && Term(a, scale) == Term(b, scale)
    ensures a == b
  {
    assert Term(a, scale) * scale == a as real;
    assert Term(b, scale) * scale == b as real;
  }

  lemma {:induction false} SameGain(a: nat, b: nat)
    requires Gain(a) == Gain(b)
    ensures a == b
  {
    if a < b { GainIncreases(a, b); }
    if b < a { GainIncreases(b, a); }
  }

  // ---------------------------------------------------------------- the metrics

  datatype Metrics = Metrics(recall: real, reciprocalRank: real, ndcg: real)

  /** Relevant entries among the first n ids. */
  function Found(ids: seq<u64>, relevance: map<u64, nat>, n: nat): nat
    requires n <= |ids|
  {
    if n == 0 then 0 else Found(ids, relevance, n - 1) + if Grade(relevance, ids[n - 1]) > 0 then 1 else 0
  }

  function Ratio(a: real, b: real): real {
    if b == 0.0 then 0.0 else a / b
  }

  function Recall(ids: seq<u64>, relevance: map<u64, nat>, k: nat): real {
    Ratio(Found(ids, relevance, Min(k, |ids|)) as real, |Relevant(relevance)| as real)
  }

  function Ndcg(ids: seq<u64>, relevance: map<u64, nat>, ideal: seq<nat>, k: nat, level: nat -> real): real
    requires GoodLevels(level)
  {
    Ratio(Dcg(GradesOf(ids, relevance), k, level), Dcg(ideal, k, level))
  }

  /** 1 / (1 + the first relevant place), or 0 when the first n places have none. */
  function ReciprocalRank(ids: seq<u64>, relevance: map<u64, nat>, n: nat): real
    requires n <= |ids|
  {
    if n == 0 then 0.0
    else if Found(ids, relevance, n - 1) > 0 then ReciprocalRank(ids, relevance, n - 1)
    else if Grade(relevance, ids[n - 1]) > 0 then 1.0 / n as real
    else 0.0
  }

  /** The first relevant place decides. */
  lemma {:induction false} FirstRelevantDecides(ids: seq<u64>, relevance: map<u64, nat>, n: nat, i: nat)
    requires i < n <= |ids| && Grade(relevance, ids[i]) > 0
    requires forall j :: 0 <= j < i ==> Grade(relevance, ids[j]) == 0
    ensures ReciprocalRank(ids, relevance, n) == 1.0 / (i + 1) as real
    decreases n
  {
    if n == i + 1 {
      NoneFound(ids, relevance, i);
    } else {
      FirstRelevantDecides(ids, relevance, n - 1, i);
      SomeFound(ids, relevance, n - 1, i);
    }
  }

  /** Without a relevant place it is zero. */
  lemma {:induction false} NoRelevantNoRank(ids: seq<u64>, relevance: map<u64, nat>, n: nat)
    requires n <= |ids| && forall j :: 0 <= j < n ==> ids[j] !in relevance || relevance[ids[j]] == 0
    ensures ReciprocalRank(ids, relevance, n) == 0.0
  {
    if n > 0 { NoneFound(ids, relevance, n - 1); }
  }

  lemma {:induction false} NoneFound(ids: seq<u64>, relevance: map<u64, nat>, n: nat)
    requires n <= |ids| && forall j :: 0 <= j < n ==> Grade(relevance, ids[j]) == 0
    ensures Found(ids, relevance, n) == 0
    decreases n
  {
    if n > 0 { NoneFound(ids, relevance, n - 1); }
  }

  lemma {:induction false} SomeFound(ids: seq<u64>, relevance: map<u64, nat>, n: nat, i: nat)
    requires i < n <= |ids| && Grade(relevance, ids[i]) > 0
    ensures Found(ids, relevance, n) > 0
    decreases n
  {
    if i < n - 1 { SomeFound(ids, relevance, n - 1, i); }
  }

  function FoundIds(ids: seq<u64>, relevance: map<u64, nat>): set<u64> {
    set id | id in ids && Grade(relevance, id) > 0
  }

  lemma {:induction false} FoundIdsLast(init: seq<u64>, last: u64, relevance: map<u64, nat>)
    requires last !in init
    ensures |FoundIds(init + [last], relevance)| ==
            |FoundIds(init, relevance)| + if Grade(relevance, last) > 0 then 1 else 0
  {
    assert FoundIds(init + [last], relevance) ==
           FoundIds(init, relevance) + if Grade(relevance, last) > 0 then {last} else {};
  }

  lemma {:induction false} DistinctPrefix(ids: seq<u64>, n: nat)
    requires 0 < n <= |ids| && Distinct(ids[..n])
    ensures Distinct(ids[..n - 1]) && ids[n - 1] !in ids[..n - 1] && ids[..n] == ids[..n - 1] + [ids[n - 1]]
  {
    assert forall i :: 0 <= i < n ==> ids[..n][i] == ids[i];
    assert forall i :: 0 <= i < n - 1 ==> ids[..n - 1][i] == ids[i];
  }

  lemma {:induction false} FoundIsCount(ids: seq<u64>, relevance: map<u64, nat>, n: nat)
    requires n <= |ids| && Distinct(ids[..n])
    ensures Found(ids, relevance, n) == |FoundIds(ids[..n], relevance)|
    decreases n
  {
    if n > 0 {
      DistinctPrefix(ids, n);
      FoundIsCount(ids, relevance, n - 1);
      FoundIdsLast(ids[..n - 1], ids[n - 1], relevance);
    }
  }

  lemma {:induction false} RatioTimes(a: real, b: real)
    requires b != 0.0
    ensures Ratio(a, b) * b == a
  {
  }

  /** For distinct ids, recall times the relevant ids of the map are the relevant ids among the first k. */
  lemma {:induction false} RecallMeans(ids: seq<u64>, relevance: map<u64, nat>, k: nat)
    requires Distinct(ids[..Min(k, |ids|)])
    ensures var all := set id | id in relevance && relevance[id] > 0;
            var found := set id | id in ids[..Min(k, |ids|)] && id in relevance && relevance[id] > 0;
            && (all == {} ==> Recall(ids, relevance, k) == 0.0)
            && Recall(ids, relevance, k) * |all| as real == |found| as real
  {
    var first := ids[..Min(k, |ids|)];
    var all := set id | id in relevance && relevance[id] > 0;
    var found := set id | id in first && id in relevance && relevance[id] > 0;
    assert all == Relevant(relevance) && found == FoundIds(first, relevance) && found <= all;
    FoundIsCount(ids, relevance, Min(k, |ids|));
    if all == {} {
      assert found == {} && Recall(ids, relevance, k) == 0.0;
    } else {
      RatioTimes(|found| as real, |all| as real);
    }
  }

  /** nDCG times the ideal sum is the sum of the ranking; it is zero when nothing is relevant. */
  lemma {:induction false} NdcgMeans(ids: seq<u64>, relevance: map<u64, nat>, ideal: seq<nat>, k: nat,
                                     level: nat -> real)
    requires GoodLevels(level) && IsIdeal(ideal, relevance) && k > 0
    ensures ideal == [] ==> Ndcg(ids, relevance, ideal, k, level) == 0.0
    ensures ideal != [] ==>
              && Dcg(ideal, k, level) > 0.0
              && Ndcg(ids, relevance, ideal, k, level) * Dcg(ideal, k, level) == Dcg(GradesOf(ids, relevance), k, level)
  {
    if ideal == [] {
      DcgOfNothing(k, level);
    } else {
      assert ideal[0] in ideal;
      DcgPositive(ideal, k, level, 0);
      RatioTimes(Dcg(GradesOf(ids, relevance), k, level), Dcg(ideal, k, level));
    }
  }

  lemma {:induction false} RatioInUnit(a: real, b: real)
    requires 0.0 <= a <= b
    ensures 0.0 <= Ratio(a, b) <= 1.0
    ensures Ratio(a, b) == 1.0 <==> b > 0.0 && a == b
  {
    if b > 0.0 {
      var q := a / b;
      assert q * b == a;
      assert q < 0.0 ==> q * b < 0.0;
      assert q > 1.0 ==> q * b > b;
    }
  }

  lemma {:induction false} DcgNonNegative(grades: seq<nat>, k: nat, level: nat -> real)
    requires GoodLevels(level)
    ensures Dcg(grades, k, level) >= 0.0
    decreases k
  {
    if k > 0 {
      DcgNonNegative(grades, k - 1, level);
      TermNonNegative(Gain(At(grades, k - 1)), level(k - 1));
    }
  }

  lemma {:induction false} TermNonNegative(a: nat, scale: real)
    requires scale > 0.0
    ensures Term(a, scale) >= 0.0
    ensures a > 0 ==> Term(a, scale) > 0.0
  {
    var q := Term(a, scale);
    assert q * scale == a as real;
    assert q < 0.0 ==> q * scale < 0.0;
  }

  lemma {:induction false} DcgPositive(grades: seq<nat>, k: nat, level: nat -> real, i: nat)
    requires GoodLevels(level) && i < k && At(grades, i) > 0
    ensures Dcg(grades, k, level) > 0.0
    decreases k
  {
    GainIncreases(0, At(grades, i));
    DcgNonNegative(grades, k - 1, level);
    TermNonNegative(Gain(At(grades, k - 1)), level(k - 1));
    if i < k - 1 { DcgPositive(grades, k - 1, level, i); }
  }

  /** For distinct ids, every grade map and every k: recall and nDCG lie in [0, 1], and nDCG is 1
      exactly when positive grades exist and the grades of the first k places are the ideal ones. */
  lemma {:induction false} MetricsInUnit(ids: seq<u64>, relevance: map<u64, nat>, ideal: seq<nat>, k: nat,
                                         level: nat -> real)
    requires GoodLevels(level) && IsIdeal(ideal, relevance) && k > 0
    requires Distinct(ids[..Min(k, |ids|)])
    ensures Dcg(GradesOf(ids, relevance), k, level) <= Dcg(ideal, k, level)
    ensures 0.0 <= Recall(ids, relevance, k) <= 1.0
    ensures 0.0 <= Ndcg(ids, relevance, ideal, k, level) <= 1.0
    ensures Ndcg(ids, relevance, ideal, k, level) == 1.0 <==>
            ideal != [] && forall i: nat :: i < k ==> At(GradesOf(ids, relevance), i) == At(ideal, i)
  {
    var grades, n := GradesOf(ids, relevance), Min(k, |ids|);
    forall m: nat | m <= k ensures SumTop(grades, m) <= SumTop(ideal, m) {
      PrefixDominance(ids, relevance, ideal, k, m);
    }
    LeadSurvivesDiscount(grades, ideal, k, level);
    DcgNonNegative(grades, k, level);
    RatioInUnit(Dcg(grades, k, level), Dcg(ideal, k, level));
    FoundIsCount(ids, relevance, n);
    SubsetSize(FoundIds(ids[..n], relevance), Relevant(relevance));
    RatioInUnit(Found(ids, relevance, n) as real, |Relevant(relevance)| as real);
    if ideal == [] {
      DcgOfSame(ideal, [], k, level);
      DcgOfNothing(k, level);
    } else {
      assert ideal[0] in ideal;
      DcgPositive(ideal, k, level, 0);
      if Dcg(grades, k, level) == Dcg(ideal, k, level) { EqualLeadsAgree(grades, ideal, k, level); }
      if forall i: nat :: i < k ==> At(grades, i) == At(ideal, i) { DcgOfSame(grades, ideal, k, level); }
    }
  }

  lemma {:induction false} DcgOfNothing(k: nat, level: nat -> real)
    requires GoodLevels(level)
    ensures Dcg([], k, level) == 0.0
    decreases k
  {
    if k > 0 { DcgOfNothing(k - 1, level); }
  }

  lemma {:induction false} DcgOfSame(a: seq<nat>, b: seq<nat>, k: nat, level: nat -> real)
    requires GoodLevels(level) && forall i: nat :: i < k ==> At(a, i) == At(b, i)
    ensures Dcg(a, k, level) == Dcg(b, k, level)
    decreases k
  {
    if k > 0 { DcgOfSame(a, b, k - 1, level); }
  }

  // ---------------------------------------------------------------- repeated ids

  /** Each of the ids with grade 1. */
  function AllOnes(ids: seq<u64>): map<u64, nat> {
    map id | id in ids :: 1
  }

  function Ones(n: nat): seq<nat> {
    seq(n, _ => 1)
  }

  lemma {:induction false} OnesMultiset(n: nat)
    ensures multiset(Ones(n)) == multiset{}[1 := n]
    decreases n
  {
    if n > 0 {
      OnesMultiset(n - 1);
      assert Ones(n) == Ones(n - 1) + [1];
    }
  }

  lemma {:induction false} DistinctCount(ids: seq<u64>)
    requires Distinct(ids)
    ensures |IdsIn(ids)| == |ids|
    decreases |ids|
  {
    if ids != [] {
      var init, last := ids[..|ids| - 1], ids[|ids| - 1];
      DistinctCount(init);
      assert ids == init + [last] && last !in init;
      assert IdsIn(ids) == IdsIn(init) + {last};
    }
  }

  lemma {:induction false} OnesAreIdeal(ids: seq<u64>)
    requires Distinct(ids)
    ensures IsIdeal(Ones(|ids|), AllOnes(ids))
  {
    var relevance := AllOnes(ids);
    OnesMultiset(|ids|);
    DistinctCount(ids);
    assert Relevant(relevance) == IdsIn(ids);
    assert WithGrade(relevance, 1) == IdsIn(ids);
    forall g: nat | g > 0 ensures multiset(Ones(|ids|))[g] == |WithGrade(relevance, g)| {
      if g != 1 { assert WithGrade(relevance, g) == {}; }
    }
  }

  lemma {:induction false} AllFound(ids: seq<u64>, relevance: map<u64, nat>, n: nat)
    requires n <= |ids| && forall i :: 0 <= i < n ==> Grade(relevance, ids[i]) > 0
    ensures Found(ids, relevance, n) == n
    decreases n
  {
    if n > 0 { AllFound(ids, relevance, n - 1); }
  }

  lemma {:induction false} FoundGrows(ids: seq<u64>, relevance: map<u64, nat>, n: nat, m: nat)
    requires n <= m <= |ids|
    ensures Found(ids, relevance, n) <= Found(ids, relevance, m)
    decreases m
  {
    if n < m { FoundGrows(ids, relevance, n, m - 1); }
  }

  lemma {:induction false} DcgGrows(grades: seq<nat>, n: nat, m: nat, level: nat -> real)
    requires GoodLevels(level) && n <= m
    ensures Dcg(grades, n, level) <= Dcg(grades, m, level)
    decreases m
  {
    if n < m {
      DcgGrows(grades, n, m - 1, level);
      TermNonNegative(Gain(At(grades, m - 1)), level(m - 1));
    }
  }

  lemma {:induction false} DcgPastEnd(grades: seq<nat>, k: nat, level: nat -> real)
    requires GoodLevels(level) && k >= |grades|
    ensures Dcg(grades, k, level) == Dcg(grades, |grades|, level)
    decreases k
  {
    if k > |grades| { DcgPastEnd(grades, k - 1, level); }
  }

  /** The first place whose id was seen before. */
  lemma {:induction false} FirstRepetition(ids: seq<u64>) returns (j: nat)
    requires !Distinct(ids)
    ensures j < |ids| && Distinct(ids[..j]) && ids[j] in ids[..j]
    decreases |ids|
  {
    var n := |ids| - 1;
    if Distinct(ids[..n]) {
      var a, b :| 0 <= a < b < |ids| && ids[a] == ids[b];
      assert b == n by {
        assert forall x, y :: 0 <= x < y < n ==> ids[..n][x] != ids[..n][y];
        assert forall x :: 0 <= x < n ==> ids[..n][x] == ids[x];
      }
      j := n;
      assert ids[..n][a] == ids[n];
    } else {
      j := FirstRepetition(ids[..n]);
      assert ids[..n][..j] == ids[..j];
    }
  }

  lemma {:induction false} RepetitionGainsMore(ids: seq<u64>, k: nat, j: nat, level: nat -> real)
    requires GoodLevels(level) && j < Min(k, |ids|) && ids[j] in ids[..j]
    ensures var relevance := AllOnes(ids[..j]);
            Dcg(GradesOf(ids, relevance), k, level) > Dcg(Ones(j), k, level) > 0.0
  {
    var relevance, ideal := AllOnes(ids[..j]), Ones(j);
    var grades := GradesOf(ids, relevance);
    assert forall i: nat :: i < j ==> ids[i] in ids[..j] && At(grades, i) == 1;
    assert At(grades, j) == 1;
    assert Dcg(ideal, k, level) == Dcg(ideal, j, level) by { DcgPastEnd(ideal, k, level); }
    assert Dcg(ideal, j, level) == Dcg(grades, j, level) by { DcgOfSame(grades, ideal, j, level); }
    assert Dcg(grades, j + 1, level) == Dcg(grades, j, level) + Term(Gain(1), level(j));
    assert Term(Gain(1), level(j)) > 0.0 by { TermNonNegative(Gain(1), level(j)); }
    DcgGrows(grades, j + 1, k, level);
    DcgPositive(ideal, k, level, 0);
  }

  lemma {:induction false} RepetitionFindsMore(ids: seq<u64>, k: nat, j: nat)
    requires j < Min(k, |ids|) && ids[j] in ids[..j]
    ensures Found(ids, AllOnes(ids[..j]), Min(k, |ids|)) > j > 0
  {
    var relevance := AllOnes(ids[..j]);
    assert forall i :: 0 <= i < j ==> ids[i] in ids[..j];
    AllFound(ids, relevance, j + 1);
    FoundGrows(ids, relevance, j + 1, Min(k, |ids|));
  }

  /** A repetition within the first k places makes some grade map score above 1. */
  lemma {:induction false} RepetitionScoresAboveOne(ids: seq<u64>, k: nat, level: nat -> real)
    returns (relevance: map<u64, nat>, ideal: seq<nat>)
    requires GoodLevels(level) && k > 0 && !Distinct(ids[..Min(k, |ids|)])
    ensures IsIdeal(ideal, relevance)
    ensures Recall(ids, relevance, k) > 1.0 && Ndcg(ids, relevance, ideal, k, level) > 1.0
  {
    var n := Min(k, |ids|);
    var j := FirstRepetition(ids[..n]);
    assert ids[..n][..j] == ids[..j] && ids[..n][j] == ids[j];
    relevance, ideal := AllOnes(ids[..j]), Ones(j);
    OnesAreIdeal(ids[..j]);
    RepetitionFindsMore(ids, k, j);
    RepetitionGainsMore(ids, k, j, level);
    AboveOne(Dcg(GradesOf(ids, relevance), k, level), Dcg(ideal, k, level));
    AboveOne(Found(ids, relevance, n) as real, |Relevant(relevance)| as real);
  }

  lemma {:induction false} AboveOne(a: real, b: real)
    requires a > b > 0.0
    ensures Ratio(a, b) > 1.0
  {
    var q := a / b;
    assert q * b == a;
    assert q <= 1.0 ==> q * b <= b;
  }

  /** The metrics of a ranking stay in [0, 1] for every grade map exactly when its first k places
      name no id twice. */
  lemma {:induction false} UnitExactlyWhenDistinct(ids: seq<u64>, k: nat, level: nat -> real)
    requires GoodLevels(level) && k > 0
    ensures Distinct(ids[..Min(k, |ids|)]) <==>
            forall relevance, ideal :: IsIdeal(ideal, relevance) ==>
              Recall(ids, relevance, k) <= 1.0 && Ndcg(ids, relevance, ideal, k, level) <= 1.0
  {
    if Distinct(ids[..Min(k, |ids|)]) {
      forall relevance, ideal | IsIdeal(ideal, relevance)
        ensures Recall(ids, relevance, k) <= 1.0 && Ndcg(ids, relevance, ideal, k, level) <= 1.0
      {
        MetricsInUnit(ids, relevance, ideal, k, level);
      }
    } else {
      var relevance, ideal := RepetitionScoresAboveOne(ids, k, level);
    }
  }

  // ---------------------------------------------------------------- the loops

  /** The positive grades, in whatever order the map iterates. */
  method CollectGrades(relevance: map<u64, nat>) returns (grades: seq<nat>)
    ensures forall g :: g in grades ==> g > 0
    ensures |grades| == |Relevant(relevance)|
    ensures forall g: nat :: g > 0 ==> multiset(grades)[g] == |WithGrade(relevance, g)|
  {
    grades := [];
    var rest := relevance.Keys;
    ghost var done: map<u64, nat> := map[];
    while rest != {}
      invariant done.Keys == relevance.Keys - rest && rest <= relevance.Keys
      invariant forall id :: id in done ==> done[id] == relevance[id]
      invariant forall g :: g in grades ==> g > 0
      invariant |grades| == |Relevant(done)|
      invariant forall g: nat :: g > 0 ==> multiset(grades)[g] == |WithGrade(done, g)|
      decreases |rest|
    {
      var id :| id in rest;
      rest := rest - {id};
      GradeAdded(done, id, relevance[id]);
      done := done[id := relevance[id]];
      if relevance[id] > 0 {
        grades := grades + [relevance[id]];
      }
    }
    assert done == relevance;
  }

  lemma {:induction false} GradeAdded(done: map<u64, nat>, id: u64, grade: nat)
    requires id !in done
    ensures |Relevant(done[id := grade])| == |Relevant(done)| + if grade > 0 then 1 else 0
    ensures forall g: nat ::
              |WithGrade(done[id := grade], g)| == |WithGrade(done, g)| + if g == grade then 1 else 0
  {
    var next := done[id := grade];
    assert grade > 0 ==> Relevant(next) == Relevant(done) + {id};
    assert grade == 0 ==> Relevant(next) == Relevant(done);
    forall g: nat ensures |WithGrade(next, g)| == |WithGrade(done, g)| + if g == grade then 1 else 0 {
      WithGradeAdded(done, id, grade, g);
    }
  }

  lemma {:induction false} WithGradeAdded(done: map<u64, nat>, id: u64, grade: nat, g: nat)
    requires id !in done
    ensures |WithGrade(done[id := grade], g)| == |WithGrade(done, g)| + if g == grade then 1 else 0
  {
    var next := done[id := grade];
    if g == grade {
      assert WithGrade(next, g) == WithGrade(done, g) + {id};
    } else {
      assert WithGrade(next, g) == WithGrade(done, g);
    }
  }

  /** Insertion keeps the order and adds the one grade. */
  function Place(grade: nat, grades: seq<nat>): (r: seq<nat>)
    ensures multiset(r) == multiset(grades) + multiset{grade}
  {
    if grades == [] || grade >= grades[0] then [grade] + grades
    else
      SplitFirst(grades);
      [grades[0]] + Place(grade, grades[1..])
  }

  lemma {:induction false} ConsDescends(head: nat, rest: seq<nat>)
    requires Descending(rest) && forall g :: g in rest ==> g <= head
    ensures Descending([head] + rest)
  {
    assert forall i :: 0 <= i < |rest| ==> rest[i] in rest;
  }

  lemma {:induction false} PlaceDescends(grade: nat, grades: seq<nat>)
    requires Descending(grades)
    ensures Descending(Place(grade, grades))
    decreases |grades|
  {
    if grades != [] && grade < grades[0] {
      PlaceDescends(grade, grades[1..]);
      var rest := Place(grade, grades[1..]);
      forall g | g in rest ensures g <= grades[0] {
        assert g in multiset(rest);
        assert g == grade || g in multiset(grades[1..]);
      }
      ConsDescends(grades[0], rest);
    }
  }

  method SortDescending(grades: seq<nat>) returns (sorted: seq<nat>)
    ensures Descending(sorted) && multiset(sorted) == multiset(grades)
  {
    sorted := [];
    var i := 0;
    while i < |grades|
      invariant 0 <= i <= |grades| && Descending(sorted) && multiset(sorted) == multiset(grades[..i])
    {
      PlaceDescends(grades[i], sorted);
      sorted := Place(grades[i], sorted);
      assert grades[..i + 1] == grades[..i] + [grades[i]];
      i := i + 1;
    }
    assert grades[..i] == grades;
  }

  method IdealDcg(ideal: seq<nat>, k: nat, level: nat -> real) returns (dcg: real)
    requires GoodLevels(level)
    ensures dcg == Dcg(ideal, k, level)
  {
    dcg := 0.0;
    var n := Min(k, |ideal|);
    var index: nat := 0;
    while index < n
      invariant index <= n && dcg == Dcg(ideal, index, level)
    {
      dcg := dcg + Term(Gain(ideal[index]), level(index));
      index := index + 1;
    }
    if k > |ideal| { DcgPastEnd(ideal, k, level); }
  }

  /** The loop over the ranking. */
  method ScanRanking(ids: seq<u64>, relevance: map<u64, nat>, k: nat, level: nat -> real)
    returns (found: nat, dcg: real, reciprocalRank: real)
    requires GoodLevels(level)
    ensures found == Found(ids, relevance, Min(k, |ids|))
    ensures dcg == Dcg(GradesOf(ids, relevance), k, level)
    ensures reciprocalRank == ReciprocalRank(ids, relevance, Min(k, |ids|))
  {
    found, dcg, reciprocalRank := 0, 0.0, 0.0;
    var n := Min(k, |ids|);
    var index: nat := 0;
    ghost var ranked := GradesOf(ids, relevance);
    while index < n
      invariant index <= n && found == Found(ids, relevance, index)
      invariant dcg == Dcg(ranked, index, level)
      invariant reciprocalRank == ReciprocalRank(ids, relevance, index) && (reciprocalRank == 0.0 <==> found == 0)
    {
      var grade := if ids[index] in relevance then relevance[ids[index]] else 0;
      assert grade == At(ranked, index) == Grade(relevance, ids[index]);
      NothingGained(level(index));
      if grade > 0 {
        found := found + 1;
        if reciprocalRank == 0.0 {
          ReciprocalPositive(index + 1);
          reciprocalRank := 1.0 / (index + 1) as real;
        }
        dcg := dcg + Term(Gain(grade), level(index));
      }
      index := index + 1;
    }
    if k > |ids| { DcgPastEnd(ranked, k, level); }
  }

  method Evaluate(ids: seq<u64>, relevance: map<u64, nat>, k: nat, level: nat -> real)
    returns (r: Outcome<Metrics>, ghost ideal: seq<nat>)
    requires GoodLevels(level)
    ensures r.Threw? <==> k == 0
    ensures r.Threw? ==> r.error == InvalidArgument
    ensures r.Returned? ==>
              && IsIdeal(ideal, relevance)
              && r.value.recall == Recall(ids, relevance, k)
              && r.value.ndcg == Ndcg(ids, relevance, ideal, k, level)
              && r.value.reciprocalRank == ReciprocalRank(ids, relevance, Min(k, |ids|))
  {
    if k == 0 {
      return Threw(InvalidArgument), [];
    }
    var grades := CollectGrades(relevance);
    var relevantTotal := |grades|;
    var sorted := SortDescending(grades);
    SortedIsIdeal(grades, sorted, relevance);
    var idealDcg := IdealDcg(sorted, k, level);
    var found, dcg, reciprocalRank := ScanRanking(ids, relevance, k, level);
    var recall := if relevantTotal == 0 then 0.0 else found as real / relevantTotal as real;
    var ndcg := if idealDcg == 0.0 then 0.0 else dcg / idealDcg;
    r, ideal := Returned(Metrics(recall, reciprocalRank, ndcg)), sorted;
  }

  lemma {:induction false} SortedIsIdeal(grades: seq<nat>, sorted: seq<nat>, relevance: map<u64, nat>)
    requires Descending(sorted) && multiset(sorted) == multiset(grades)
    requires |grades| == |Relevant(relevance)| && forall g :: g in grades ==> g > 0
    requires forall g: nat :: g > 0 ==> multiset(grades)[g] == |WithGrade(relevance, g)|
    ensures IsIdeal(sorted, relevance) && |sorted| == |grades|
  {
    assert |multiset(sorted)| == |multiset(grades)|;
    forall g | g in sorted ensures g > 0 {
      assert g in multiset(grades);
      assert g in grades;
    }
    forall g: nat | g > 0 ensures multiset(sorted)[g] == |WithGrade(relevance, g)| {
      assert multiset(grades)[g] == |WithGrade(relevance, g)|;
    }
  }

  lemma {:induction false} ReciprocalPositive(n: nat)
    requires n > 0
    ensures 1.0 / n as real > 0.0
  {
    TermNonNegative(1, n as real);
    assert Term(1, n as real) == 1.0 / n as real;
  }
}
