/**
 * What the link-prediction evaluators count for one query: every entity
 * the filter keeps is a candidate with its score, the rank of the true
 * entity is one plus the number of candidates scoring strictly above it,
 * and a hit is the true entity among the kept top entries. Also the
 * split of the test triples into per-thread ranges.
 */
module Ranking {
  import opened TopK

  /** A (head, relation, tail) triple of ids. */
  datatype Triple = Triple(h: int, r: int, t: int)

  /** Which entity a query predicts: the tail from head and relation, or the head from tail and relation. */
  datatype Side = Head | Tail

  /** The entity a query must find. */
  function Truth(x: Triple, side: Side): int {
    if side == Tail then x.t else x.h
  }

  /**
   * The candidates the ranking loop adds, in entity order: each entity
   * below `n` that `keep` admits, paired with its score.
   */
  function Candidates(n: nat, keep: nat -> bool, f: nat -> real): (c: seq<Pair>)
    ensures |c| <= n
    ensures forall j :: 0 <= j < |c| ==> 0 <= c[j].id < n && keep(c[j].id) && c[j].vl == f(c[j].id)
  {
    if n == 0 then []
    else Candidates(n - 1, keep, f) + (if keep(n - 1) then [Pair(n - 1, f(n - 1))] else [])
  }

  /** An entity is a candidate exactly once if the filter keeps it, and never otherwise. */
  lemma {:induction false} CandidateCount(n: nat, keep: nat -> bool, f: nat -> real, t: int)
    ensures CountId(Candidates(n, keep, f), t) == if 0 <= t < n && keep(t) then 1 else 0
  {
    if n > 0 {
      CandidateCount(n - 1, keep, f, t);
      if keep(n - 1) {
        CountIdSnoc(Candidates(n - 1, keep, f), Pair(n - 1, f(n - 1)), t);
      } else {
        var c0 := Candidates(n - 1, keep, f);
        assert Candidates(n, keep, f) == c0 + [] == c0;
      }
    }
  }

  lemma CountIdSnoc(xs: seq<Pair>, x: Pair, t: int)
    ensures CountId(xs + [x], t) == CountId(xs, t) + if x.id == t then 1 else 0
  {
    assert (xs + [x])[..|xs|] == xs;
  }

  /** The rank of a score among candidates: one plus the number scoring strictly higher. */
  function Rank(c: seq<Pair>, sc: real): (rank: nat)
    ensures 1 <= rank <= |c| + 1
  {
    CountAboveBound(c, sc);
    1 + CountAbove(c, sc)
  }

  /** The entries a top-k list keeps of candidates `c`: the first min(|c|, k) in sorted order. */
  function Kept(c: seq<Pair>, k: nat): (kept: seq<Pair>)
    ensures |kept| == Min(|c|, k)
  {
    SortDesc(c)[..Min(|c|, k)]
  }

  /**
   * Among the kept entries the true entity occurs at most once, and it
   * occurs exactly when the filter kept it and it is among the top k.
   */
  lemma HitsAtMostOne(n: nat, keep: nat -> bool, f: nat -> real, k: nat, t: int)
    ensures CountId(Kept(Candidates(n, keep, f), k), t) <= 1
  {
    var c := Candidates(n, keep, f);
    CountIdPrefix(SortDesc(c), Min(|c|, k), t);
    SortDescCounts(c, 0.0, t);
    CandidateCount(n, keep, f, t);
  }

  /**
   * A hit within the kept top k entries means a rank of at most k: the
   * true entity's score is its own candidate score `sc`, so every
   * candidate above it in the sorted order sits before it.
   */
  lemma HitMeansRankWithin(n: nat, keep: nat -> bool, f: nat -> real, k: nat, t: nat, sc: real)
    requires f(t) == sc
    requires CountId(Kept(Candidates(n, keep, f), k), t) > 0
    ensures Rank(Candidates(n, keep, f), sc) <= k
  {
    var c := Candidates(n, keep, f);
    var s := SortDesc(c);
    var m := Min(|c|, k);
    CountIdPositive(s[..m], t);
    var i :| 0 <= i < m && s[..m][i].id == t;
    SortDescPerm(c);
    assert s[i] in multiset(c);
    var j :| 0 <= j < |c| && c[j] == s[i];
    SortDescSorted(c);
    CountAboveSorted(s, i, sc);
    SortDescCounts(c, sc, t);
  }

  /** The rank of entity `truth` among the entities below `n` that `keep` admits, scored by `f`. */
  function RankOf(n: nat, keep: nat -> bool, f: nat -> real, truth: nat): nat {
    Rank(Candidates(n, keep, f), f(truth))
  }

  /** The slots among the top `k` that carry entity `truth`. */
  function HitsOf(n: nat, keep: nat -> bool, f: nat -> real, k: nat, truth: nat): nat {
    CountId(Kept(Candidates(n, keep, f), k), truth)
  }

  /**
   * A query scores at most one hit, and a hit means the true entity ranks
   * within the top `k`. When the filter admits the true entity and it is
   * one of the entities, it is a candidate, so its rank is at most the
   * number of candidates.
   */
  lemma QueryFacts(n: nat, keep: nat -> bool, f: nat -> real, k: nat, truth: nat)
    ensures HitsOf(n, keep, f, k, truth) <= 1
    ensures HitsOf(n, keep, f, k, truth) == 1 ==> RankOf(n, keep, f, truth) <= k
    ensures truth < n && keep(truth) ==> RankOf(n, keep, f, truth) <= |Candidates(n, keep, f)|
  {
    HitsAtMostOne(n, keep, f, k, truth);
    if HitsOf(n, keep, f, k, truth) == 1 {
      HitMeansRankWithin(n, keep, f, k, truth, f(truth));
    }
    if truth < n && keep(truth) {
      CandidateCount(n, keep, f, truth);
      TruthNotAbove(Candidates(n, keep, f), truth, f(truth));
    }
  }

  /** The filled slots of a top-k list are the entries it keeps. */
  lemma HoldsKept(slots: seq<Pair>, adds: seq<Pair>, kMax: nat, size: nat, fill: Pair)
    requires Holds(slots, adds, kMax, size, fill)
    ensures slots[..size] == Kept(adds, kMax)
  {
  }

  /** A candidate with exactly the score `sc` is not counted above `sc`. */
  lemma {:induction false} TruthNotAbove(c: seq<Pair>, t: int, sc: real)
    requires CountId(c, t) == 1
    requires forall j :: 0 <= j < |c| && c[j].id == t ==> c[j].vl == sc
    ensures CountAbove(c, sc) <= |c| - 1
  {
    var init := c[..|c| - 1];
    if c[|c| - 1].id == t {
      CountAboveBound(init, sc);
    } else {
      TruthNotAbove(init, t, sc);
    }
  }

  /**
   * The first test triple of thread `tid` out of `numThreads`: the
   * integer share `dataSize / numThreads` times `tid`.
   */
  function Begin(dataSize: nat, numThreads: nat, tid: nat): nat
    requires numThreads >= 1
  {
    dataSize / numThreads * tid
  }

  /** One past the last test triple of thread `tid`; the last thread also takes the remainder. */
  function End(dataSize: nat, numThreads: nat, tid: nat): nat
    requires numThreads >= 1
  {
    if tid == numThreads - 1 then dataSize else dataSize / numThreads * (tid + 1)
  }

  /** Each thread's range lies within the test triples and is not reversed. */
  lemma RangeBounds(dataSize: nat, numThreads: nat, tid: nat)
    requires numThreads >= 1 && tid < numThreads
    ensures Begin(dataSize, numThreads, tid) <= End(dataSize, numThreads, tid) <= dataSize
  {
    var q := dataSize / numThreads;
    assert q * numThreads <= dataSize;
    MulMonotone(q, tid + 1, numThreads);
    MulMonotone(q, tid, tid + 1);
  }

  lemma MulMonotone(q: nat, a: nat, b: nat)
    requires a <= b
    ensures q * a <= q * b
  {
  }

  /** The number of test triples threads `0 .. j-1` evaluate together. */
  function Covered(dataSize: nat, numThreads: nat, j: nat): int
    requires numThreads >= 1 && j <= numThreads
  {
    if j == 0 then 0
    else Covered(dataSize, numThreads, j - 1) + End(dataSize, numThreads, j - 1) - Begin(dataSize, numThreads, j - 1)
  }

  /**
   * Consecutive threads' ranges meet, so the first `j` threads cover
   * exactly the triples before the end of thread `j - 1`; all threads
   * together evaluate every test triple exactly once.
   */
  lemma {:induction false} RangesPartition(dataSize: nat, numThreads: nat, j: nat)
    requires numThreads >= 1 && 1 <= j <= numThreads
    ensures Covered(dataSize, numThreads, j) == End(dataSize, numThreads, j - 1)
    ensures j == numThreads ==> Covered(dataSize, numThreads, j) == dataSize
  {
    if j > 1 {
      RangesPartition(dataSize, numThreads, j - 1);
    }
    assert Begin(dataSize, numThreads, 0) == 0;
  }

  /** The sum of `f(lo) .. f(hi-1)`. */
  function Total(f: nat -> nat, lo: nat, hi: nat): nat
    requires lo <= hi
    decreases hi
  {
    if hi == lo then 0 else Total(f, lo, hi - 1) + f(hi - 1)
  }

  /** Totals over adjacent ranges add up to the total over their union. */
  lemma {:induction false} TotalSplit(f: nat -> nat, lo: nat, mid: nat, hi: nat)
    requires lo <= mid <= hi
    ensures Total(f, lo, hi) == Total(f, lo, mid) + Total(f, mid, hi)
    decreases hi
  {
    if hi > mid {
      TotalSplit(f, lo, mid, hi - 1);
    }
  }

  /** The sum of `xs[lo .. hi-1]`. */
  function Sum(xs: seq<nat>, lo: nat, hi: nat): nat
    requires lo <= hi <= |xs|
    decreases hi
  {
    if hi == lo then 0 else Sum(xs, lo, hi - 1) + xs[hi - 1]
  }

  /** Sums over adjacent ranges add up to the sum over their union. */
  lemma {:induction false} SumSplit(xs: seq<nat>, lo: nat, mid: nat, hi: nat)
    requires lo <= mid <= hi <= |xs|
    ensures Sum(xs, lo, hi) == Sum(xs, lo, mid) + Sum(xs, mid, hi)
    decreases hi
  {
    if hi > mid {
      SumSplit(xs, lo, mid, hi - 1);
    }
  }
}
