/**
 * The soft-direction link-prediction evaluator: two word tables (entities
 * and relations), training and test triples read against them, training
 * triples grouped by relation, and per test triple a ranking of every
 * entity as the missing tail and as the missing head. The relation
 * direction for a query is the average over the query entity's nearest
 * training neighbours; that vector arithmetic and the scores themselves
 * are abstract functions here.
 */
module EvalSoft {
  import opened Wrappers
  import opened Vocab
  import opened TopK
  import opened Ranking

  /** `triple::operator<`: heads first, then relations, then tails. */
  predicate Less(a: Triple, b: Triple) {
    if a.h == b.h then (if a.r == b.r then a.t < b.t else a.r < b.r) else a.h < b.h
  }

  /** The order is the lexicographic order on (h, r, t). */
  lemma LessIsLexicographic(a: Triple, b: Triple)
    ensures Less(a, b) <==>
      a.h < b.h || (a.h == b.h && (a.r < b.r || (a.r == b.r && a.t < b.t)))
  {
  }

  lemma LessIrreflexive(a: Triple)
    ensures !Less(a, a)
  {
  }

  lemma LessTransitive(a: Triple, b: Triple, c: Triple)
    requires Less(a, b) && Less(b, c)
    ensures Less(a, c)
  {
  }

  /** Any two distinct triples are ordered one way and not the other. */
  lemma LessTotal(a: Triple, b: Triple)
    ensures a != b <==> (Less(a, b) || Less(b, a))
    ensures !(Less(a, b) && Less(b, a))
  {
  }

  /**
   * `SearchRelation` then, if the word is missing, `AddWordToRelation`:
   * afterwards the word is in the relation table; a new word gets the
   * next id and nothing else changes.
   */
  method InternRelation(rels: Table, w: Word) returns (r: int)
    requires rels.Valid() && rels.Dense() && rels.size + 2 < rels.names.Length
    requires |rels.Contents()| + 1 < HashSize
    modifies rels, rels.slots, rels.names
    ensures rels.Valid() && rels.Dense() && rels.size + 2 < rels.names.Length
    ensures rels.slots == old(rels.slots) && (rels.names == old(rels.names) || fresh(rels.names))
    ensures rels.Contents() == old(rels.Contents())[w := r]
    ensures w in old(rels.Contents()) ==> r == old(rels.Contents())[w] && rels.size == old(rels.size)
    ensures w !in old(rels.Contents()) ==> r == old(rels.size) && rels.size == old(rels.size) + 1
  {
    r := rels.Search(w);
    if r == -1 {
      rels.ContentsIds();
      r := rels.AddWordGrowing(w);
    } else {
      SameUpdate(rels.Contents(), w);
    }
  }

  lemma SameUpdate(m: map<Word, int>, w: Word)
    requires w in m
    ensures m[w := m[w]] == m
  {
  }

  /** The training triples of relation `rr`, in training order. */
  function OfRelation(data: seq<Triple>, rr: int): (g: seq<Triple>)
    ensures |g| <= |data|
  {
    if data == [] then []
    else
      var x := data[|data| - 1];
      OfRelation(data[..|data| - 1], rr) + (if x.r == rr then [x] else [])
  }

  /** A group holds exactly the training triples of its relation. */
  lemma {:induction false} OfRelationMembers(data: seq<Triple>, rr: int)
    ensures forall x :: x in OfRelation(data, rr) <==> x in data && x.r == rr
  {
    if data != [] {
      var init := data[..|data| - 1];
      OfRelationMembers(init, rr);
      assert data == init + [data[|data| - 1]];
    }
  }

  /** The total size of the groups of relations `0 .. n-1`. */
  function GroupTotal(data: seq<Triple>, n: nat): nat {
    if n == 0 then 0 else GroupTotal(data, n - 1) + |OfRelation(data, n - 1)|
  }

  lemma {:induction false} GroupTotalSnoc(data: seq<Triple>, x: Triple, n: nat)
    ensures GroupTotal(data + [x], n) == GroupTotal(data, n) + (if 0 <= x.r < n then 1 else 0)
  {
    if n > 0 {
      GroupTotalSnoc(data, x, n - 1);
      OfRelationSnoc(data, x, n - 1);
    }
  }

  lemma OfRelationSnoc(data: seq<Triple>, x: Triple, rr: int)
    ensures |OfRelation(data + [x], rr)| == |OfRelation(data, rr)| + (if x.r == rr then 1 else 0)
  {
    assert (data + [x])[..|data|] == data;
  }

  /**
   * When every training relation id is below `n`, the groups of the `n`
   * relations partition the training triples: their sizes add up to the
   * number of training triples.
   */
  lemma {:induction false} GroupsCoverTraining(data: seq<Triple>, n: nat)
    requires forall j :: 0 <= j < |data| ==> 0 <= data[j].r < n
    ensures GroupTotal(data, n) == |data|
  {
    if data == [] {
      GroupTotalEmpty(n);
    } else {
      var init := data[..|data| - 1];
      GroupsCoverTraining(init, n);
      GroupTotalSnoc(init, data[|data| - 1], n);
      assert data == init + [data[|data| - 1]];
    }
  }

  lemma {:induction false} GroupTotalEmpty(n: nat)
    ensures GroupTotal([], n) == 0
  {
    if n > 0 {
      GroupTotalEmpty(n - 1);
    }
  }

  /**
   * `Process`: one group per relation id below `relationSize`, collected
   * by a pass over the training triples for each relation.
   */
  method Process(train: seq<Triple>, relationSize: nat) returns (groups: seq<seq<Triple>>)
    ensures |groups| == relationSize
    ensures forall rr :: 0 <= rr < relationSize ==> groups[rr] == OfRelation(train, rr)
  {
    groups := [];
    for rr := 0 to relationSize
      invariant |groups| == rr
      invariant forall q :: 0 <= q < rr ==> groups[q] == OfRelation(train, q)
    {
      var triples: seq<Triple> := [];
      for k := 0 to |train|
        invariant triples == OfRelation(train[..k], rr)
      {
        assert train[..k + 1][..k] == train[..k];
        if train[k].r == rr {
          triples := triples + [train[k]];
        }
      }
      assert train[..|train|] == train;
      groups := groups + [triples];
    }
  }

  /** The entity a query is given: the head when predicting the tail, the tail otherwise. */
  function Given(x: Triple, side: Side): int {
    if side == Tail then x.h else x.t
  }

  /**
   * The neighbour candidates of a query: each training triple `k` of the
   * query's relation, scored by the similarity of the query's given
   * entity to that triple's entity on the same side.
   */
  function NbCands(group: seq<Triple>, e: int, side: Side, sim: (int, int) -> real): (c: seq<Pair>)
    ensures |c| == |group|
    ensures forall k :: 0 <= k < |c| ==> c[k] == Pair(k, sim(e, Given(group[k], side)))
  {
    if group == [] then []
    else
      var k := |group| - 1;
      NbCands(group[..k], e, side, sim) + [Pair(k, sim(e, Given(group[k], side)))]
  }

  /**
   * The neighbour pass of `Evaluate`: clear the neighbour list, add every
   * training triple of the relation with its similarity, then collect the
   * ids of the non-empty slots among the first k_nns. The rows are the
   * indices of the min(|group|, k_nns) most similar training triples,
   * most similar first, earlier triples first among equals.
   */
  method Neighbours(nb: KmaxList, group: seq<Triple>, e: int, side: Side, sim: (int, int) -> real)
    returns (rows: seq<int>)
    requires nb.Valid()
    modifies nb, nb.list
    ensures nb.Valid() && nb.list == old(nb.list) && nb.kMax == old(nb.kMax)
    ensures rows == Ids(Kept(NbCands(group, e, side, sim), nb.kMax))
  {
    nb.Clear();
    FillNeighbours(nb, group, e, side, sim);
    rows := CollectRows(nb);
  }

  /** The adding loop of the neighbour pass, on a cleared list. */
  method FillNeighbours(nb: KmaxList, group: seq<Triple>, e: int, side: Side, sim: (int, int) -> real)
    requires nb.Valid() && nb.added == []
    modifies nb, nb.list
    ensures nb.Valid() && nb.list == old(nb.list) && nb.kMax == old(nb.kMax)
    ensures nb.added == NbCands(group, e, side, sim)
  {
    var k := 0;
    while k < |group|
      invariant k <= |group| && nb.list == old(nb.list) && nb.kMax == old(nb.kMax)
      invariant NbLoop(nb, group, k, e, side, sim)
    {
      NbNext(nb, group, k, e, side, sim);
      k := k + 1;
    }
    assert NbCands(group, e, side, sim)[..|group|] == NbCands(group, e, side, sim);
  }

  /**
   * The collecting loop of the neighbour pass: the ids of the non-empty
   * slots among the first k_nns, which are the kept entries when every
   * added id is a real index.
   */
  method CollectRows(nb: KmaxList) returns (rows: seq<int>)
    requires nb.Valid() && forall j :: 0 <= j < |nb.added| ==> nb.added[j].id >= 0
    ensures rows == Ids(Kept(nb.added, nb.kMax))
  {
    rows := ScanRows(nb.list, nb.kMax);
    nb.Rows();
  }

  /** The neighbour loop after its first `k` training triples. */
  ghost predicate NbLoop(nb: KmaxList, group: seq<Triple>, k: nat, e: int, side: Side, sim: (int, int) -> real)
    reads nb, nb.list
  {
    k <= |group| && nb.Valid() && nb.added == NbCands(group, e, side, sim)[..k]
  }

  /** One training triple of the neighbour loop: add it with its similarity. */
  method NbNext(nb: KmaxList, group: seq<Triple>, k: nat, e: int, side: Side, sim: (int, int) -> real)
    requires NbLoop(nb, group, k, e, side, sim) && k < |group|
    modifies nb, nb.list
    ensures NbLoop(nb, group, k + 1, e, side, sim)
    ensures nb.list == old(nb.list) && nb.kMax == old(nb.kMax)
  {
    ghost var cands := NbCands(group, e, side, sim);
    assert cands[..k + 1] == cands[..k] + [cands[k]];
    nb.Add(Pair(k, sim(e, Given(group[k], side))));
  }

  /**
   * The ranking pass of `Evaluate` for one side of one query: clear the
   * ranking list; for every entity the filter keeps, count it if it
   * scores strictly above `sc` and add it to the list; then count the
   * slots among the first k_max that carry the true entity.
   */
  method RankSide(rk: KmaxList, n: nat, keep: nat -> bool, f: nat -> real, sc: real, target: nat)
    returns (crank: nat, hits: nat)
    requires rk.Valid()
    modifies rk, rk.list
    ensures rk.Valid() && rk.list == old(rk.list) && rk.kMax == old(rk.kMax)
    ensures crank == Rank(Candidates(n, keep, f), sc)
    ensures hits == CountId(Kept(Candidates(n, keep, f), rk.kMax), target)
  {
    rk.Clear();
    crank := 1;
    var i := 0;
    while i < n
      invariant i <= n && rk.list == old(rk.list) && rk.kMax == old(rk.kMax)
      invariant RankLoop(rk, i, keep, f, sc, crank)
    {
      crank := RankNext(rk, i, keep, f, sc, crank);
      i := i + 1;
    }
    hits := ScanHits(rk.list, rk.kMax, target);
    rk.Scan(target);
  }

  /** The ranking loop after its first `i` entities. */
  ghost predicate RankLoop(rk: KmaxList, i: nat, keep: nat -> bool, f: nat -> real, sc: real, crank: nat)
    reads rk, rk.list
  {
    rk.Valid() && rk.added == Candidates(i, keep, f) && crank == 1 + CountAbove(rk.added, sc)
  }

  /** One entity of the ranking loop: skipped by the filter, or counted and added. */
  method RankNext(rk: KmaxList, i: nat, keep: nat -> bool, f: nat -> real, sc: real, crank: nat)
    returns (crank': nat)
    requires RankLoop(rk, i, keep, f, sc, crank)
    modifies rk, rk.list
    ensures RankLoop(rk, i + 1, keep, f, sc, crank')
    ensures rk.list == old(rk.list) && rk.kMax == old(rk.kMax)
  {
    crank' := crank;
    if keep(i) {
      var v := f(i);
      CountsAppend(rk.added, [Pair(i, v)], sc, 0);
      if v > sc {
        crank' := crank' + 1;
      }
      rk.Add(Pair(i, v));
    } else {
      assert Candidates(i + 1, keep, f) == Candidates(i, keep, f) + [];
    }
  }

  /**
   * The relation direction a query uses: the relation and the rows of its
   * training directions that are averaged (the averaging itself is vector
   * arithmetic and stays inside `score`).
   */
  datatype Direction = Direction(r: int, rows: seq<int>)

  /**
   * What `Evaluate` reads besides the test triples: the entity count, the
   * list sizes k_max and k_nns, the filter switch, the known triples, the
   * per-relation groups of training triples, the embedding similarity of
   * two entities and the score of a candidate triple.
   */
  datatype Setup = Setup(entitySize: nat, kMax: nat, kNns: nat, filter: bool, appear: set<Triple>,
                         groups: seq<seq<Triple>>, sim: (int, int) -> real,
                         score: (int, int, Direction, Side) -> real)

  /** A test triple `Evaluate` can rank: its relation has a group and its entities are ids. */
  predicate Fits(s: Setup, x: Triple) {
    0 <= x.r < |s.groups| && x.h >= 0 && x.t >= 0
  }

  /** The direction of a query: its k_nns nearest training triples of the same relation. */
  function Dir(s: Setup, x: Triple, side: Side): (d: Direction)
    requires Fits(s, x)
    ensures d.r == x.r && |d.rows| == Min(|s.groups[x.r]|, s.kNns)
    ensures forall j :: 0 <= j < |d.rows| ==> 0 <= d.rows[j] < |s.groups[x.r]|
  {
    var c := NbCands(s.groups[x.r], Given(x, side), side, s.sim);
    SortDescPerm(c);
    forall j | 0 <= j < Min(|c|, s.kNns)
      ensures 0 <= Kept(c, s.kNns)[j].id < |c|
    {
      assert Kept(c, s.kNns)[j] == SortDesc(c)[j];
      assert SortDesc(c)[j] in multiset(c);
    }
    Direction(x.r, Ids(Kept(c, s.kNns)))
  }

  /**
   * The filter of a query: with `filter` on, a candidate that completes a
   * known triple is skipped unless it is the true entity.
   */
  function Keep(s: Setup, x: Triple, side: Side): nat -> bool {
    if side == Tail then i => !(s.filter && Triple(x.h, x.r, i) in s.appear && i != x.t)
    else i => !(s.filter && Triple(i, x.r, x.t) in s.appear && i != x.h)
  }

  /** The score of each candidate entity in the predicted position. */
  function Scorer(s: Setup, x: Triple, side: Side, d: Direction): nat -> real {
    if side == Tail then i => s.score(x.h, i, d, Tail) else i => s.score(i, x.t, d, Head)
  }

  /** `crank` of a query: one plus the kept candidates scoring above the true triple. */
  function QueryRank(s: Setup, x: Triple, side: Side): nat
    requires Fits(s, x)
  {
    RankOf(s.entitySize, Keep(s, x, side), Scorer(s, x, side, Dir(s, x, side)), Truth(x, side))
  }

  /** The hits of a query: slots among the top k_max that carry the true entity. */
  function QueryHits(s: Setup, x: Triple, side: Side): nat
    requires Fits(s, x)
  {
    HitsOf(s.entitySize, Keep(s, x, side), Scorer(s, x, side, Dir(s, x, side)), s.kMax, Truth(x, side))
  }

  /**
   * One side of one query as `Evaluate` runs it: choose the neighbours,
   * score the true triple with their direction, then rank every entity.
   */
  method QuerySide(s: Setup, x: Triple, side: Side, nb: KmaxList, rk: KmaxList) returns (crank: nat, hits: nat)
    requires Fits(s, x) && nb.Valid() && rk.Valid() && nb.kMax == s.kNns && rk.kMax == s.kMax
    requires nb != rk && nb.list != rk.list
    modifies nb, nb.list, rk, rk.list
    ensures nb.Valid() && nb.list == old(nb.list) && nb.kMax == old(nb.kMax)
    ensures rk.Valid() && rk.list == old(rk.list) && rk.kMax == old(rk.kMax)
    ensures crank == QueryRank(s, x, side) && hits == QueryHits(s, x, side)
  {
    var rows := Neighbours(nb, s.groups[x.r], Given(x, side), side, s.sim);
    var dir := Direction(x.r, rows);
    assert dir == Dir(s, x, side);
    var f := Scorer(s, x, side, dir);
    var sc := f(Truth(x, side));
    crank, hits := RankSide(rk, s.entitySize, Keep(s, x, side), f, sc, Truth(x, side));
  }

  /** The ranks of the two queries of a test triple. */
  function TripleRank(s: Setup, x: Triple): nat
    requires Fits(s, x)
  {
    QueryRank(s, x, Tail) + QueryRank(s, x, Head)
  }

  /** The hits of the two queries of a test triple: at most one each. */
  function TripleHits(s: Setup, x: Triple): (hits: nat)
    requires Fits(s, x)
    ensures hits <= 2
  {
    QueryFacts(s.entitySize, Keep(s, x, Tail), Scorer(s, x, Tail, Dir(s, x, Tail)), s.kMax, x.t);
    QueryFacts(s.entitySize, Keep(s, x, Head), Scorer(s, x, Head, Dir(s, x, Head)), s.kMax, x.h);
    QueryHits(s, x, Tail) + QueryHits(s, x, Head)
  }

  /** Every test triple fits. */
  predicate AllFit(s: Setup, test: seq<Triple>) {
    forall j :: 0 <= j < |test| ==> Fits(s, test[j])
  }

  /** The ranks a thread adds up over test triples `lo .. hi-1`: tail then head for each. */
  function RankTotal(s: Setup, test: seq<Triple>, lo: nat, hi: nat): nat
    requires AllFit(s, test) && lo <= hi <= |test|
    decreases hi
  {
    if hi == lo then 0
    else RankTotal(s, test, lo, hi - 1) + TripleRank(s, test[hi - 1])
  }

  /** The hits a thread adds up over test triples `lo .. hi-1`. */
  function HitTotal(s: Setup, test: seq<Triple>, lo: nat, hi: nat): nat
    requires AllFit(s, test) && lo <= hi <= |test|
    decreases hi
  {
    if hi == lo then 0
    else HitTotal(s, test, lo, hi - 1) + TripleHits(s, test[hi - 1])
  }

  /** The rank of test triple `j`, both queries added. */
  function RankAt(s: Setup, test: seq<Triple>): nat -> nat {
    (j: nat) => if j < |test| && Fits(s, test[j]) then TripleRank(s, test[j]) else 0
  }

  /** The hits of test triple `j`, both queries added. */
  function HitAt(s: Setup, test: seq<Triple>): nat -> nat {
    (j: nat) => if j < |test| && Fits(s, test[j]) then TripleHits(s, test[j]) else 0
  }

  /** Extending a range by one triple adds that triple's rank and hits. */
  lemma StepValues(s: Setup, test: seq<Triple>, lo: nat, h: nat)
    requires AllFit(s, test) && lo < h <= |test|
    ensures RankTotal(s, test, lo, h) == RankTotal(s, test, lo, h - 1) + RankAt(s, test)(h - 1)
    ensures HitTotal(s, test, lo, h) == HitTotal(s, test, lo, h - 1) + HitAt(s, test)(h - 1)
  {
  }

  /** Where a running total agrees with the sum, it still agrees one triple further. */
  lemma TotalsStep(s: Setup, test: seq<Triple>, lo: nat, h: nat)
    requires AllFit(s, test) && lo < h <= |test|
    requires RankTotal(s, test, lo, h - 1) == Total(RankAt(s, test), lo, h - 1)
    requires HitTotal(s, test, lo, h - 1) == Total(HitAt(s, test), lo, h - 1)
    ensures RankTotal(s, test, lo, h) == Total(RankAt(s, test), lo, h)
    ensures HitTotal(s, test, lo, h) == Total(HitAt(s, test), lo, h)
  {
    StepValues(s, test, lo, h);
  }

  /**
   * The per-thread totals are the sums of the per-triple ranks and hits,
   * by induction on the end of the range.
   */
  lemma TotalsAreSums(s: Setup, test: seq<Triple>, lo: nat, hi: nat)
    requires AllFit(s, test) && lo <= hi <= |test|
    ensures RankTotal(s, test, lo, hi) == Total(RankAt(s, test), lo, hi)
    ensures HitTotal(s, test, lo, hi) == Total(HitAt(s, test), lo, hi)
  {
    if lo < hi {
      TotalsStep(s, test, lo, hi);
    }
  }

  /** The running totals of a thread once it has evaluated test triples `bg .. d-1`. */
  ghost predicate Accumulated(s: Setup, test: seq<Triple>, bg: nat, d: nat, prank: nat, phit: nat) {
    && AllFit(s, test) && bg <= d <= |test|
    && prank == RankTotal(s, test, bg, d) && phit == HitTotal(s, test, bg, d)
  }

  lemma AccumulateStep(s: Setup, test: seq<Triple>, bg: nat, d: nat, prank: nat, phit: nat, c: nat, h: nat)
    requires Accumulated(s, test, bg, d, prank, phit) && d < |test|
    requires c == TripleRank(s, test[d]) && h == TripleHits(s, test[d])
    ensures Accumulated(s, test, bg, d + 1, prank + c, phit + h)
  {
  }

  /** The two lists `Evaluate` works with: neighbours (k_nns) and ranking (k_max), distinct. */
  ghost predicate Lists(s: Setup, nb: KmaxList, rk: KmaxList)
    reads nb, nb.list, rk, rk.list
  {
    nb.Valid() && rk.Valid() && nb.kMax == s.kNns && rk.kMax == s.kMax && nb != rk && nb.list != rk.list
  }

  /** Both queries of one test triple: predict the tail, then the head. */
  method EvaluateTriple(s: Setup, x: Triple, nb: KmaxList, rk: KmaxList) returns (crank: nat, hits: nat)
    requires Fits(s, x) && Lists(s, nb, rk)
    modifies nb, nb.list, rk, rk.list
    ensures Lists(s, nb, rk) && nb.list == old(nb.list) && rk.list == old(rk.list)
    ensures crank == TripleRank(s, x) && hits == TripleHits(s, x)
  {
    var c1, h1 := QuerySide(s, x, Tail, nb, rk);
    var c2, h2 := QuerySide(s, x, Head, nb, rk);
    crank, hits := c1 + c2, h1 + h2;
  }

  /**
   * `Evaluate` for thread `tid`: over its range of test triples, run the
   * tail and the head query of each and accumulate ranks, hits and the
   * number of queries.
   */
  method EvaluateThread(s: Setup, test: seq<Triple>, numThreads: nat, tid: nat)
    returns (prank: nat, qrank: nat, phit: nat, qhit: nat)
    requires numThreads >= 1 && tid < numThreads && AllFit(s, test)
    ensures var bg, ed := Begin(|test|, numThreads, tid), End(|test|, numThreads, tid);
      && bg <= ed <= |test|
      && prank == RankTotal(s, test, bg, ed) && phit == HitTotal(s, test, bg, ed)
      && qrank == qhit == 2 * (ed - bg)
    ensures phit <= qhit
  {
    var bg := Begin(|test|, numThreads, tid);
    var ed := End(|test|, numThreads, tid);
    RangeBounds(|test|, numThreads, tid);
    var nb := new KmaxList.Init(s.kNns);
    var rk := new KmaxList.Init(s.kMax);
    prank, qrank, phit, qhit := 0, 0, 0, 0;
    var d := bg;
    while d < ed
      invariant d <= ed && Lists(s, nb, rk) && fresh(nb.list) && fresh(rk.list)
      invariant Accumulated(s, test, bg, d, prank, phit)
      invariant qrank == qhit == 2 * (d - bg) && phit <= qhit
    {
      var c, h := EvaluateTriple(s, test[d], nb, rk);
      AccumulateStep(s, test, bg, d, prank, phit, c, h);
      prank, qrank, phit, qhit := prank + c, qrank + 2, phit + h, qhit + 2;
      d := d + 1;
    }
  }

  /** The setup the threads run with: a k_nns of 0 stands for every training triple. */
  function Effective(s: Setup, trainSize: nat): (e: Setup)
    ensures e.kNns == (if s.kNns == 0 then trainSize else s.kNns)
    ensures e.(kNns := s.kNns) == s
  {
    if s.kNns == 0 then s.(kNns := trainSize) else s
  }

  /**
   * `TrainModel` after the data is read: a k_nns of 0 means every
   * training triple of the relation; the threads' totals are summed.
   * The threads' ranges partition the test triples, so the sums are the
   * totals over all of them, with two queries per test triple.
   */
  method TrainModel(s: Setup, test: seq<Triple>, trainSize: nat, numThreads: nat)
    returns (sPrank: nat, sQrank: nat, sPhit: nat, sQhit: nat)
    requires numThreads >= 1 && AllFit(s, test)
    ensures AllFit(Effective(s, trainSize), test)
    ensures sPrank == RankTotal(Effective(s, trainSize), test, 0, |test|)
    ensures sPhit == HitTotal(Effective(s, trainSize), test, 0, |test|)
    ensures sQrank == sQhit == 2 * |test| && sPhit <= sQhit
  {
    var setup := if s.kNns == 0 then s.(kNns := trainSize) else s;
    assert setup == Effective(s, trainSize);
    assert AllFit(setup, test);
    sPrank, sQrank, sPhit, sQhit := 0, 0, 0, 0;
    ghost var done: nat := 0;
    for a := 0 to numThreads
      invariant done <= |test|
      invariant a < numThreads ==> done == Begin(|test|, numThreads, a)
      invariant a == numThreads ==> done == |test|
      invariant sPrank == Total(RankAt(setup, test), 0, done) && sPhit == Total(HitAt(setup, test), 0, done)
      invariant sQrank == sQhit == 2 * done && sPhit <= sQhit
    {
      var prank, qrank, phit, qhit := EvaluateThread(setup, test, numThreads, a);
      ghost var ed := End(|test|, numThreads, a);
      TotalsAreSums(setup, test, done, ed);
      TotalSplit(RankAt(setup, test), 0, done, ed);
      TotalSplit(HitAt(setup, test), 0, done, ed);
      sPrank, sQrank, sPhit, sQhit := sPrank + prank, sQrank + qrank, sPhit + phit, sQhit + qhit;
      done := ed;
    }
    TotalsAreSums(setup, test, 0, |test|);
  }
}
