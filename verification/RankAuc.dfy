/** `rank_auc` of scripts/auth_timing_report.py: one pass over the pooled, sorted samples that
    adds up tie-corrected ranks, against the pair-by-pair definition of the area under the curve. */
module RankAuc {
  import opened Text
  import opened Sorting

  datatype Sample = Sample(value: real, mark: nat)

  /** What one pair contributes: a win for the second sample, or half of a tie. */
  function Win(x: real, y: real): real {
    if x < y then 1.0 else if x == y then 0.5 else 0.0
  }

  function Wins(xs: seq<real>, y: real): real {
    if xs == [] then 0.0 else Win(xs[0], y) + Wins(xs[1..], y)
  }

  /** The number of pairs (x, y) with x < y, plus half the number of ties. */
  function PairScore(first: seq<real>, second: seq<real>): real {
    if second == [] then 0.0 else Wins(first, second[0]) + PairScore(first, second[1..])
  }

  /** The probability, over all pairs, that the second sample is the larger one. */
  function PairAuc(first: seq<real>, second: seq<real>): real
    requires first != [] && second != []
  {
    PairScore(first, second) / (|first| * |second|) as real
  }

  /** The direction does not matter. */
  function Fold(auc: real): real {
    if auc >= 1.0 - auc then auc else 1.0 - auc
  }

  // ----- the pair count -----

  lemma {:induction false} WinsAppend(a: seq<real>, b: seq<real>, y: real)
    ensures Wins(a + b, y) == Wins(a, y) + Wins(b, y)
  {
    if a == [] {
      assert a + b == b;
    } else {
      assert (a + b)[1..] == a[1..] + b;
      WinsAppend(a[1..], b, y);
    }
  }

  lemma {:induction false} PairScoreAppend(a: seq<real>, b: seq<real>, ys: seq<real>)
    ensures PairScore(a + b, ys) == PairScore(a, ys) + PairScore(b, ys)
  {
    if ys != [] {
      WinsAppend(a, b, ys[0]);
      PairScoreAppend(a, b, ys[1..]);
    }
  }

  lemma {:induction false} PairScoreFirst(xs: seq<real>, ys: seq<real>)
    requires xs != []
    ensures PairScore(xs, ys) == PairScore([xs[0]], ys) + PairScore(xs[1..], ys)
  {
    assert xs == [xs[0]] + xs[1..];
    PairScoreAppend([xs[0]], xs[1..], ys);
  }

  /** One sample against many, in both directions. */
  lemma {:induction false} OneAgainstMany(x: real, ys: seq<real>)
    ensures PairScore([x], ys) + Wins(ys, x) == |ys| as real
  {
    if ys != [] {
      OneAgainstMany(x, ys[1..]);
      assert Wins([x], ys[0]) == Win(x, ys[0]) by { assert [x][1..] == []; }
    }
  }

  /** Every pair is won by one side or shared. */
  lemma {:induction false} ScoresComplement(xs: seq<real>, ys: seq<real>)
    ensures PairScore(xs, ys) + PairScore(ys, xs) == (|xs| * |ys|) as real
  {
    if xs == [] {
      NoOneScores(ys);
    } else {
      ScoresComplement(xs[1..], ys);
      PairScoreFirst(xs, ys);
      OneAgainstMany(xs[0], ys);
      assert |xs| * |ys| == |xs[1..]| * |ys| + |ys|;
    }
  }

  lemma {:induction false} NoOneScores(ys: seq<real>)
    ensures PairScore([], ys) == 0.0
  {
    if ys != [] { NoOneScores(ys[1..]); }
  }

  // ----- order does not matter -----

  lemma {:induction false} WinsRemove(xs: seq<real>, k: nat, y: real)
    requires k < |xs|
    ensures Wins(xs, y) == Win(xs[k], y) + Wins(RemoveAt(xs, k), y)
  {
    assert xs == xs[..k] + ([xs[k]] + xs[k+1..]);
    WinsAppend(xs[..k], [xs[k]] + xs[k+1..], y);
    WinsAppend([xs[k]], xs[k+1..], y);
    WinsAppend(xs[..k], xs[k+1..], y);
    assert Wins([xs[k]], y) == Win(xs[k], y) by { assert [xs[k]][1..] == []; }
  }

  function Values(p: seq<Sample>): (vs: seq<real>)
    ensures |vs| == |p| && forall i :: 0 <= i < |p| ==> vs[i] == p[i].value
  {
    seq(|p|, i requires 0 <= i < |p| => p[i].value)
  }

  /** The tie-corrected rank of a value among others: how many lie below, half of the ties with
      it, and a half. */
  function MidRank(vs: seq<real>, y: real): real {
    Wins(vs, y) + 0.5
  }

  /** The ranks, among `vs`, of the samples marked 1. */
  function RankSum(p: seq<Sample>, vs: seq<real>): real {
    if p == [] then 0.0 else p[0].mark as real * MidRank(vs, p[0].value) + RankSum(p[1..], vs)
  }

  lemma {:induction false} RankSumAppend(a: seq<Sample>, b: seq<Sample>, vs: seq<real>)
    ensures RankSum(a + b, vs) == RankSum(a, vs) + RankSum(b, vs)
  {
    if a == [] {
      assert a + b == b;
    } else {
      assert (a + b)[1..] == a[1..] + b;
      RankSumAppend(a[1..], b, vs);
    }
  }

  lemma {:induction false} RankSumRemove(p: seq<Sample>, k: nat, vs: seq<real>)
    requires k < |p|
    ensures RankSum(p, vs) == p[k].mark as real * MidRank(vs, p[k].value) + RankSum(RemoveAt(p, k), vs)
  {
    assert p == p[..k] + ([p[k]] + p[k+1..]);
    RankSumAppend(p[..k], [p[k]] + p[k+1..], vs);
    RankSumAppend([p[k]], p[k+1..], vs);
    RankSumAppend(p[..k], p[k+1..], vs);
    assert RankSum([p[k]], vs) == p[k].mark as real * MidRank(vs, p[k].value) by { assert [p[k]][1..] == []; }
  }

  lemma {:induction false} WinsPermuted(p: seq<Sample>, q: seq<Sample>, y: real)
    requires multiset(p) == multiset(q)
    ensures Wins(Values(p), y) == Wins(Values(q), y)
  {
    assert |multiset(p)| == |multiset(q)|;
    if p != [] {
      var k := Locate(p, q);
      WinsPermuted(p[1..], RemoveAt(q, k), y);
      WinsRemove(Values(q), k, y);
      assert RemoveAt(Values(q), k) == Values(RemoveAt(q, k));
      assert Values(p)[1..] == Values(p[1..]);
    }
  }

  /** Where the first sample of one arrangement sits in the other. */
  lemma Locate(p: seq<Sample>, q: seq<Sample>) returns (k: nat)
    requires p != [] && multiset(p) == multiset(q)
    ensures k < |q| && q[k] == p[0] && multiset(p[1..]) == multiset(RemoveAt(q, k))
  {
    assert p == [p[0]] + p[1..];
    assert p[0] in multiset(q);
    assert p[0] in q;
    k :| 0 <= k < |q| && q[k] == p[0];
    RemoveAtContents(q, k);
    assert multiset(p[1..]) == multiset(p) - multiset{p[0]};
    assert multiset(RemoveAt(q, k)) == multiset(q) - multiset{p[0]};
  }

  lemma {:induction false} RankSumPermuted(p: seq<Sample>, q: seq<Sample>, vs: seq<real>)
    requires multiset(p) == multiset(q)
    ensures RankSum(p, vs) == RankSum(q, vs)
  {
    assert |multiset(p)| == |multiset(q)|;
    if p != [] {
      var k := Locate(p, q);
      RankSumPermuted(p[1..], RemoveAt(q, k), vs);
      RankSumRemove(q, k, vs);
    }
  }

  lemma {:induction false} RankSumAmong(p: seq<Sample>, vs: seq<real>, ws: seq<real>)
    requires forall y :: Wins(vs, y) == Wins(ws, y)
    ensures RankSum(p, vs) == RankSum(p, ws)
  {
    if p != [] { RankSumAmong(p[1..], vs, ws); }
  }

  /** The rank sum of a pool does not depend on its arrangement. */
  lemma RankSumOfPool(p: seq<Sample>, q: seq<Sample>)
    requires multiset(p) == multiset(q)
    ensures RankSum(p, Values(p)) == RankSum(q, Values(q))
  {
    forall y ensures Wins(Values(p), y) == Wins(Values(q), y) { WinsPermuted(p, q, y); }
    RankSumAmong(p, Values(p), Values(q));
    RankSumPermuted(p, q, Values(q));
  }

  // ----- the rank sum of the two samples -----

  function Marked(xs: seq<real>, mark: nat): (p: seq<Sample>)
    ensures |p| == |xs| && forall i :: 0 <= i < |xs| ==> p[i] == Sample(xs[i], mark)
  {
    seq(|xs|, i requires 0 <= i < |xs| => Sample(xs[i], mark))
  }

  function Pool(first: seq<real>, second: seq<real>): seq<Sample> {
    Marked(first, 0) + Marked(second, 1)
  }

  lemma {:induction false} UnmarkedRankSum(xs: seq<real>, vs: seq<real>)
    ensures RankSum(Marked(xs, 0), vs) == 0.0
  {
    if xs != [] {
      UnmarkedRankSum(xs[1..], vs);
      assert Marked(xs, 0)[1..] == Marked(xs[1..], 0);
    }
  }

  lemma {:induction false} MarkedRankSum(ys: seq<real>, vs: seq<real>)
    ensures RankSum(Marked(ys, 1), vs) == PairScore(vs, ys) + |ys| as real / 2.0
  {
    if ys != [] {
      MarkedRankSum(ys[1..], vs);
      assert Marked(ys, 1)[1..] == Marked(ys[1..], 1);
    }
  }

  /** The rank sum counts the pairs between the samples, plus a constant. */
  lemma PoolRankSum(first: seq<real>, second: seq<real>)
    ensures RankSum(Pool(first, second), Values(Pool(first, second))) ==
            PairScore(first, second) + (|second| * (|second| + 1)) as real / 2.0
  {
    var vs := Values(Pool(first, second));
    assert vs == first + second;
    RankSumAppend(Marked(first, 0), Marked(second, 1), vs);
    UnmarkedRankSum(first, vs);
    MarkedRankSum(second, vs);
    PairScoreAppend(first, second, second);
    ScoresComplement(second, second);
    assert |second| * (|second| + 1) == |second| * |second| + |second|;
  }

  // ----- groups of ties in the sorted pool -----

  predicate SampleLeq(a: Sample, b: Sample) {
    a.value < b.value || (a.value == b.value && a.mark <= b.mark)
  }

  lemma SampleLeqOrders()
    ensures Total(SampleLeq) && Transitive(SampleLeq)
  {
  }

  lemma {:induction false} WinsUniform(vs: seq<real>, y: real, w: real)
    requires forall i :: 0 <= i < |vs| ==> Win(vs[i], y) == w
    ensures Wins(vs, y) == |vs| as real * w
  {
    if vs != [] {
      WinsUniform(vs[1..], y, w);
    }
  }

  /** All members of a group of ties have the same rank, the mean of their positions. */
  lemma GroupRank(vs: seq<real>, index: nat, end: nat, y: real)
    requires index <= end <= |vs|
    requires forall i :: 0 <= i < index ==> vs[i] < y
    requires forall i :: index <= i < end ==> vs[i] == y
    requires forall i :: end <= i < |vs| ==> vs[i] > y
    ensures MidRank(vs, y) == (index + 1 + end) as real / 2.0
  {
    hide Wins;
    assert vs == vs[..index] + (vs[index..end] + vs[end..]);
    WinsAppend(vs[..index], vs[index..end] + vs[end..], y);
    WinsAppend(vs[index..end], vs[end..], y);
    WinsUniform(vs[..index], y, 1.0);
    WinsUniform(vs[index..end], y, 0.5);
    WinsUniform(vs[end..], y, 0.0);
    assert Wins(vs, y) == index as real + (end - index) as real * 0.5;
  }

  /** `sum(label for _, label in group)` */
  function MarkSum(p: seq<Sample>): nat {
    if p == [] then 0 else p[0].mark + MarkSum(p[1..])
  }

  lemma {:induction false} GroupRankSum(group: seq<Sample>, vs: seq<real>, y: real)
    requires forall i :: 0 <= i < |group| ==> group[i].value == y
    ensures RankSum(group, vs) == MarkSum(group) as real * MidRank(vs, y)
  {
    if group != [] {
      GroupRankSum(group[1..], vs, y);
    }
  }

  lemma GroupStep(p: seq<Sample>, index: nat, end: nat)
    requires index < end <= |p|
    requires forall i :: 0 <= i < index ==> p[i].value < p[index].value
    requires forall i :: index <= i < end ==> p[i].value == p[index].value
    requires forall i :: end <= i < |p| ==> p[i].value > p[index].value
    ensures RankSum(p[..end], Values(p)) ==
            RankSum(p[..index], Values(p)) + MarkSum(p[index..end]) as real * (index + 1 + end) as real / 2.0
  {
    hide RankSum, MarkSum, MidRank;
    var y := p[index].value;
    assert p[..end] == p[..index] + p[index..end];
    RankSumAppend(p[..index], p[index..end], Values(p));
    GroupRankSum(p[index..end], Values(p), y);
    GroupRank(Values(p), index, end, y);
  }

  /** One pass over the sorted pool, a group of ties at a time. */
  method SumRanks(pooled: seq<Sample>) returns (rankSum: real)
    requires IsSorted(pooled, SampleLeq)
    ensures rankSum == RankSum(pooled, Values(pooled))
  {
    hide RankSum, MarkSum, IsSorted, Values;
    rankSum := 0.0;
    var index := 0;
    EmptyRankSum(Values(pooled));
    assert pooled[..0] == [];
    while index < |pooled|
      invariant index <= |pooled|
      invariant rankSum == RankSum(pooled[..index], Values(pooled))
      invariant Separated(pooled, index)
    {
      var end := index + 1;
      while end < |pooled| && pooled[end].value == pooled[index].value
        invariant index < end <= |pooled|
        invariant forall i :: index <= i < end ==> pooled[i].value == pooled[index].value
      {
        end := end + 1;
      }
      GroupEnds(pooled, index, end);
      GroupStep(pooled, index, end);
      rankSum := rankSum + MarkSum(pooled[index..end]) as real * (index + 1 + end) as real / 2.0;
      index := end;
    }
    assert pooled[..index] == pooled;
  }

  lemma EmptyRankSum(vs: seq<real>)
    ensures RankSum([], vs) == 0.0
  {
  }

  /** The grouped rank loop computes the pair-count area under the curve; an empty sample is a
      division by zero. */
  method RankAuc(first: seq<real>, second: seq<real>) returns (r: Option<real>)
    ensures r == if first == [] || second == [] then None else Some(Fold(PairAuc(first, second)))
  {
    hide RankSum, Sort, Pool, PairScore, IsSorted;
    SampleLeqOrders();
    SortSorted(Pool(first, second), SampleLeq);
    SortContents(Pool(first, second), SampleLeq);
    var pooled := Sort(Pool(first, second), SampleLeq);
    var rankSum := SumRanks(pooled);
    RankSumOfPool(pooled, Pool(first, second));
    PoolRankSum(first, second);
    if first == [] || second == [] {
      return None;
    }
    var n := |second|;
    var auc := (rankSum - (n * (n + 1)) as real / 2.0) / (|first| * n) as real;
    return Some(if auc >= 1.0 - auc then auc else 1.0 - auc);
  }

  /** Everything before `index` is smaller than everything from there on. */
  ghost predicate Separated(p: seq<Sample>, index: nat) {
    forall i, j :: 0 <= i < index <= j < |p| ==> p[i].value < p[j].value
  }

  lemma GroupEnds(p: seq<Sample>, index: nat, end: nat)
    requires index < end <= |p| && IsSorted(p, SampleLeq)
    requires Separated(p, index)
    requires forall i :: index <= i < end ==> p[i].value == p[index].value
    requires end < |p| ==> p[end].value != p[index].value
    ensures Separated(p, end)
  {
    forall i, j | 0 <= i < end <= j < |p| ensures p[i].value < p[j].value {
      if i >= index {
        assert SampleLeq(p[index], p[end]);
        assert end == j || SampleLeq(p[end], p[j]);
      }
    }
  }

  // ----- what the result means -----

  lemma PairAucComplement(first: seq<real>, second: seq<real>)
    requires first != [] && second != []
    ensures PairAuc(first, second) + PairAuc(second, first) == 1.0
  {
    ScoresComplement(first, second);
    var n := (|first| * |second|) as real;
    assert |first| * |second| == |second| * |first| > 0;
    assert PairScore(first, second) / n + PairScore(second, first) / n == (PairScore(first, second) + PairScore(second, first)) / n;
  }

  lemma {:induction false} ScoreNonNegative(xs: seq<real>, ys: seq<real>)
    ensures PairScore(xs, ys) >= 0.0
  {
    if ys != [] {
      ScoreNonNegative(xs, ys[1..]);
      WinsNonNegative(xs, ys[0]);
    }
  }

  lemma {:induction false} WinsNonNegative(xs: seq<real>, y: real)
    ensures Wins(xs, y) >= 0.0
  {
    if xs != [] { WinsNonNegative(xs[1..], y); }
  }

  /** Swapping the two samples does not change the result, and it lies between 1/2 and 1. */
  lemma FoldedAucSymmetric(first: seq<real>, second: seq<real>)
    requires first != [] && second != []
    ensures Fold(PairAuc(first, second)) == Fold(PairAuc(second, first))
    ensures 0.5 <= Fold(PairAuc(first, second)) <= 1.0
  {
    PairAucComplement(first, second);
    AucNonNegative(first, second);
    AucNonNegative(second, first);
  }

  lemma AucNonNegative(first: seq<real>, second: seq<real>)
    requires first != [] && second != []
    ensures PairAuc(first, second) >= 0.0
  {
    ScoreNonNegative(first, second);
    assert |first| * |second| > 0;
  }
}
