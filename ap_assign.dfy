/**
 * The assignment passes that follow the message iterations: pass 1 assigns
 * every point to its best-fitting exemplar, pass 2 re-selects in every
 * tentative cluster the member with the largest in-cluster similarity sum,
 * pass 3 repeats pass 1 with the re-selected exemplars; then the fitness
 * statistics of the final assignment.
 */
module ApAssign {
  import opened ApLoad
  import opened ApMessages
  import opened ApDecisions

  /**
   * The availabilities the assignment passes install: 0 on an edge whose
   * target is an exemplar of slot `d`, the sentinel otherwise.
   */
  ghost function Mask(g: Graph, dec: array2<nat>, d: nat): (a: seq<real>)
    reads dec
    requires WellFormed(g) && d < dec.Length0 && dec.Length1 == g.n
    ensures |a| == g.m
  {
    seq(g.m, j requires 0 <= j < g.m reads dec => if dec[d, g.dst[j]] == 1 then 0.0 else NegMax)
  }

  /**
   * `w` is the edge point `p` is assigned to among the edges below `len`:
   * the first edge of source `p` attaining the largest value, provided that
   * value beats the sentinel; `w == -1` when no edge of `p` beats it.
   */
  ghost predicate Chosen(v: seq<real>, src: seq<nat>, len: nat, p: nat, w: int)
    requires len <= |v| && len <= |src|
  {
    && -1 <= w < len
    && (w == -1 ==> forall e :: 0 <= e < len && src[e] == p ==> v[e] <= NegMax)
    && (w >= 0 ==>
          && src[w] == p && v[w] > NegMax
          && (forall e :: 0 <= e < len && src[e] == p ==> v[e] <= v[w])
          && (forall e :: 0 <= e < w && src[e] == p ==> v[e] < v[w]))
  }

  /** The assigned edge is unique: the tie-break is the first edge. */
  lemma ChosenUnique(v: seq<real>, src: seq<nat>, len: nat, p: nat, w1: int, w2: int)
    requires len <= |v| && len <= |src|
    requires Chosen(v, src, len, p, w1) && Chosen(v, src, len, p, w2)
    ensures w1 == w2
  {
  }

  /**
   * The state of the argmax pass for all points after the edges below
   * `len`: `win` holds the chosen edges, `mx` their values, `idx` their
   * targets, and a point without a chosen edge keeps its value `idx0`.
   */
  ghost predicate AllChosen(v: seq<real>, g: Graph, len: nat, win: seq<int>, mx: seq<real>,
                            idx: seq<nat>, idx0: seq<nat>)
    requires WellFormed(g) && |v| == g.m && len <= g.m
  {
    && |win| == g.n && |mx| == g.n && |idx| == g.n && |idx0| == g.n
    && (forall p :: 0 <= p < g.n ==>
          && Chosen(v, g.src, len, p, win[p])
          && mx[p] == (if win[p] < 0 then NegMax else v[win[p]])
          && idx[p] == (if win[p] < 0 then idx0[p] else g.dst[win[p]]))
  }

  /** One more edge: a strictly larger value replaces the point's choice. */
  lemma ChosenExtend(v: seq<real>, src: seq<nat>, len: nat, p: nat, w: int, m: real)
    requires len < |v| && len < |src|
    requires Chosen(v, src, len, p, w)
    requires m == (if w < 0 then NegMax else v[w])
    ensures src[len] == p && v[len] > m ==> Chosen(v, src, len + 1, p, len)
    ensures !(src[len] == p && v[len] > m) ==> Chosen(v, src, len + 1, p, w)
  {
  }

  lemma AllChosenExtend(v: seq<real>, g: Graph, len: nat, win: seq<int>, mx: seq<real>,
                        idx: seq<nat>, idx0: seq<nat>)
    requires WellFormed(g) && |v| == g.m && len < g.m
    requires AllChosen(v, g, len, win, mx, idx, idx0)
    ensures var p := g.src[len];
      v[len] > mx[p] ==>
        AllChosen(v, g, len + 1, win[p := len], mx[p := v[len]], idx[p := g.dst[len]], idx0)
    ensures v[len] <= mx[g.src[len]] ==> AllChosen(v, g, len + 1, win, mx, idx, idx0)
  {
    var p := g.src[len];
    forall q | 0 <= q < g.n
      ensures Chosen(v, g.src, len + 1, q, if q == p && v[len] > mx[p] then len else win[q])
    {
      ChosenExtend(v, g.src, len, q, win[q], mx[q]);
    }
  }

  /**
   * The argmax loop of passes 1 and 3: every point takes the target of the
   * first edge with the largest availability plus similarity, when that
   * beats the sentinel, and otherwise keeps its previous assignment.
   */
  method ArgMaxPass(g: Graph, a: array<real>, mx1: array<real>, idx: array<nat>)
    returns (ghost win: seq<int>)
    requires WellFormed(g) && a.Length == g.m && mx1.Length == g.n && idx.Length == g.n
    requires a != mx1
    requires forall p :: 0 <= p < g.n ==> mx1[p] == NegMax
    modifies mx1, idx
    ensures AllChosen(Fit(a[..], g.s), g, g.m, win, mx1[..], idx[..], old(idx[..]))
  {
    ghost var v := Fit(a[..], g.s);
    ghost var idx0 := idx[..];
    win := seq(g.n, p => -1);
    for j := 0 to g.m
      invariant AllChosen(v, g, j, win, mx1[..], idx[..], idx0)
    {
      AllChosenExtend(v, g, j, win, mx1[..], idx[..], idx0);
      var tmp := a[j] + g.s[j];
      assert tmp == v[j];
      if tmp > mx1[g.src[j]] {
        win := win[g.src[j] := j];
        mx1[g.src[j]] := tmp;
        idx[g.src[j]] := g.dst[j];
      }
    }
  }

  /** Installs the mask: 0 on edges into exemplars of slot `d`, the sentinel elsewhere. */
  method MaskAvailabilities(g: Graph, dec: array2<nat>, d: nat, a: array<real>)
    requires WellFormed(g) && d < dec.Length0 && dec.Length1 == g.n && a.Length == g.m
    modifies a
    ensures a[..] == Mask(g, dec, d)
  {
    for j := 0 to g.m
      invariant forall e :: 0 <= e < j ==> a[e] == Mask(g, dec, d)[e]
    {
      a[j] := if dec[d, g.dst[j]] == 1 then 0.0 else NegMax;
    }
  }

  /** Every exemplar of slot `d` is assigned to itself. */
  method SelfAssign(dec: array2<nat>, d: nat, idx: array<nat>)
    requires d < dec.Length0 && dec.Length1 == idx.Length
    modifies idx
    ensures forall p :: 0 <= p < idx.Length ==>
      idx[p] == if dec[d, p] != 0 then p else old(idx[p])
  {
    for p := 0 to idx.Length
      invariant forall q :: 0 <= q < idx.Length ==>
        idx[q] == if q < p && dec[d, q] != 0 then q else old(idx[q])
    {
      if dec[d, p] != 0 {
        idx[p] := p;
      }
    }
  }

  /**
   * Pass 1 (and pass 3): with availabilities masked to the exemplars of
   * slot `d`, every non-exemplar point is assigned to the target of its
   * chosen edge, or keeps its previous assignment when no edge beats the
   * sentinel; every exemplar is assigned to itself.
   */
  method Assign(g: Graph, dec: array2<nat>, d: nat, a: array<real>, mx1: array<real>, idx: array<nat>)
    returns (ghost win: seq<int>)
    requires WellFormed(g) && d < dec.Length0 && dec.Length1 == g.n
    requires a.Length == g.m && mx1.Length == g.n && idx.Length == g.n && a != mx1
    modifies a, mx1, idx
    ensures a[..] == Mask(g, dec, d)
    ensures |win| == g.n
    ensures forall p :: 0 <= p < g.n ==> -1 <= win[p] < g.m
    ensures forall p :: 0 <= p < g.n ==> Chosen(Fit(a[..], g.s), g.src, g.m, p, win[p])
    ensures forall p :: 0 <= p < g.n ==>
      idx[p] == if dec[d, p] != 0 then p else if win[p] < 0 then old(idx[p]) else g.dst[win[p]]
  {
    MaskAvailabilities(g, dec, d, a);
    Fill(mx1, NegMax);
    ghost var idx0 := idx[..];
    win := ArgMaxPass(g, a, mx1, idx);
    ghost var idx1 := idx[..];
    SelfAssign(dec, d, idx);
    forall p | 0 <= p < g.n
      ensures idx[p] == if dec[d, p] != 0 then p else if win[p] < 0 then idx0[p] else g.dst[win[p]]
    {
      assert idx1[p] == if win[p] < 0 then idx0[p] else g.dst[win[p]];
    }
  }

  /** Every similarity is smaller in magnitude than half the sentinel's. */
  predicate Bounded(s: seq<real>) {
    forall j :: 0 <= j < |s| ==> -NegMax / 2.0 > s[j] > NegMax / 2.0
  }

  /**
   * With bounded similarities, a point with at least one edge into an
   * exemplar is assigned along an edge into an exemplar, and along one of
   * largest similarity among those: the most similar exemplar.
   */
  lemma AssignedToMostSimilarExemplar(g: Graph, dec: array2<nat>, d: nat, p: nat, e: nat, w: int)
    requires WellFormed(g) && d < dec.Length0 && dec.Length1 == g.n && Bounded(g.s)
    requires p < g.n && e < g.m && g.src[e] == p && dec[d, g.dst[e]] == 1
    requires Chosen(Fit(Mask(g, dec, d), g.s), g.src, g.m, p, w)
    ensures 0 <= w && dec[d, g.dst[w]] == 1
    ensures forall e' :: 0 <= e' < g.m && g.src[e'] == p && dec[d, g.dst[e']] == 1 ==> g.s[e'] <= g.s[w]
  {
    var v := Fit(Mask(g, dec, d), g.s);
    assert v[e] == g.s[e];
  }

  /**
   * The similarity points send to `q` from inside its cluster: the sum of
   * s over edges `j < len` into `q` whose source has the same assignment as
   * `q`, `q`'s own preference edge included.
   */
  function InClusterSum(g: Graph, idx: seq<nat>, q: nat, len: nat): real
    requires WellFormed(g) && |idx| == g.n && q < g.n && len <= g.m
  {
    if len == 0 then 0.0
    else
      var j := len - 1;
      InClusterSum(g, idx, q, j) + (if g.dst[j] == q && idx[g.src[j]] == idx[q] then g.s[j] else 0.0)
  }

  /** `x` is the largest in-cluster sum over the members of cluster `c`, or the sentinel. */
  ghost predicate IsClusterMax(srp: seq<real>, idx: seq<nat>, c: nat, x: real)
    requires |srp| == |idx|
  {
    && NegMax <= x
    && (forall p :: 0 <= p < |idx| && idx[p] == c ==> srp[p] <= x)
    && (x == NegMax || exists p :: 0 <= p < |idx| && idx[p] == c && srp[p] == x)
  }

  /** The in-cluster similarity sums of all points. */
  method ClusterSums(g: Graph, idx: array<nat>, srp: array<real>)
    requires WellFormed(g) && idx.Length == g.n && srp.Length == g.n
    requires forall p :: 0 <= p < g.n ==> idx[p] < g.n
    modifies srp
    ensures forall q :: 0 <= q < g.n ==> srp[q] == InClusterSum(g, idx[..], q, g.m)
  {
    Fill(srp, 0.0);
    for j := 0 to g.m
      invariant forall q :: 0 <= q < g.n ==> srp[q] == InClusterSum(g, idx[..], q, j)
    {
      if idx[g.src[j]] == idx[g.dst[j]] {
        srp[g.dst[j]] := srp[g.dst[j]] + g.s[j];
      }
    }
  }

  /** The largest in-cluster sum of every cluster. */
  method ClusterMaxes(idx: array<nat>, srp: array<real>, mx1: array<real>)
    requires idx.Length == srp.Length == mx1.Length && srp != mx1
    requires forall p :: 0 <= p < idx.Length ==> idx[p] < idx.Length
    modifies mx1
    ensures forall c :: 0 <= c < mx1.Length ==> IsClusterMax(srp[..], idx[..], c, mx1[c])
  {
    Fill(mx1, NegMax);
    for p := 0 to idx.Length
      invariant forall c :: 0 <= c < mx1.Length ==> IsClusterMax(srp[..p], idx[..p], c, mx1[c])
    {
      assert srp[..p + 1] == srp[..p] + [srp[p]];
      assert idx[..p + 1] == idx[..p] + [idx[p]];
      if srp[p] > mx1[idx[p]] {
        mx1[idx[p]] := srp[p];
      }
    }
    assert srp[..idx.Length] == srp[..] && idx[..idx.Length] == idx[..];
  }

  /**
   * Pass 2: in every tentative cluster the members whose in-cluster sum
   * equals the cluster's largest become the exemplars of slot `d`.
   */
  method Reselect(g: Graph, idx: array<nat>, srp: array<real>, mx1: array<real>, dec: array2<nat>, d: nat)
    requires WellFormed(g) && idx.Length == g.n && srp.Length == g.n && mx1.Length == g.n
    requires d < dec.Length0 && dec.Length1 == g.n && srp != mx1
    requires forall p :: 0 <= p < g.n ==> idx[p] < g.n
    modifies srp, mx1, dec
    ensures forall q :: 0 <= q < g.n ==> srp[q] == InClusterSum(g, idx[..], q, g.m)
    ensures forall c :: 0 <= c < g.n ==> IsClusterMax(srp[..], idx[..], c, mx1[c])
    ensures forall p :: 0 <= p < g.n ==> dec[d, p] == if srp[p] == mx1[idx[p]] then 1 else 0
    ensures forall c, p :: 0 <= c < dec.Length0 && c != d && 0 <= p < g.n ==> dec[c, p] == old(dec[c, p])
  {
    ClusterSums(g, idx, srp);
    ClusterMaxes(idx, srp, mx1);
    for p := 0 to g.n
      modifies dec
      invariant forall q :: 0 <= q < p ==> dec[d, q] == if srp[q] == mx1[idx[q]] then 1 else 0
      invariant forall c, q :: 0 <= c < dec.Length0 && c != d && 0 <= q < g.n ==> dec[c, q] == old(dec[c, q])
    {
      dec[d, p] := if srp[p] == mx1[idx[p]] then 1 else 0;
    }
  }

  /**
   * After pass 2, every cluster with a member whose in-cluster sum beats
   * the sentinel has an exemplar, and every exemplar has the largest
   * in-cluster sum of its cluster.
   */
  lemma ReselectMarksBest(srp: seq<real>, idx: seq<nat>, mx: seq<real>, ex: seq<nat>, c: nat)
    requires |srp| == |idx| == |mx| == |ex| && c < |mx|
    requires forall p :: 0 <= p < |idx| ==> idx[p] < |mx|
    requires forall c' :: 0 <= c' < |mx| ==> IsClusterMax(srp, idx, c', mx[c'])
    requires forall p :: 0 <= p < |ex| ==> ex[p] == if srp[p] == mx[idx[p]] then 1 else 0
    ensures (exists p :: 0 <= p < |idx| && idx[p] == c && srp[p] > NegMax) ==>
      exists p :: 0 <= p < |idx| && idx[p] == c && ex[p] == 1
    ensures forall p, q :: 0 <= p < |idx| && 0 <= q < |idx| && idx[p] == c && idx[q] == c && ex[p] == 1 ==>
      srp[q] <= srp[p]
  {
    assert IsClusterMax(srp, idx, c, mx[c]);
    if exists p :: 0 <= p < |idx| && idx[p] == c && srp[p] > NegMax {
      var p0 :| 0 <= p0 < |idx| && idx[p0] == c && srp[p0] > NegMax;
      assert mx[c] != NegMax;
      var p :| 0 <= p < |idx| && idx[p] == c && srp[p] == mx[c];
      assert ex[p] == 1;
    }
  }

  /** Similarity of the assigned edges `j < len` that are self edges (`i == k`). */
  function ExpRef(g: Graph, idx: seq<nat>, len: nat): real
    requires WellFormed(g) && |idx| == g.n && len <= g.m
  {
    if len == 0 then 0.0
    else
      var j := len - 1;
      ExpRef(g, idx, j) + (if idx[g.src[j]] == g.dst[j] && g.src[j] == g.dst[j] then g.s[j] else 0.0)
  }

  /** Similarity of the assigned edges `j < len` between distinct points. */
  function DpSim(g: Graph, idx: seq<nat>, len: nat): real
    requires WellFormed(g) && |idx| == g.n && len <= g.m
  {
    if len == 0 then 0.0
    else
      var j := len - 1;
      DpSim(g, idx, j) + (if idx[g.src[j]] == g.dst[j] && g.src[j] != g.dst[j] then g.s[j] else 0.0)
  }

  /** Similarity of all edges `j < len` along which a point is assigned. */
  function AssignedSim(g: Graph, idx: seq<nat>, len: nat): real
    requires WellFormed(g) && |idx| == g.n && len <= g.m
  {
    if len == 0 then 0.0
    else
      var j := len - 1;
      AssignedSim(g, idx, j) + (if idx[g.src[j]] == g.dst[j] then g.s[j] else 0.0)
  }

  /** The preferences of the points `p < q` that are their own exemplar. */
  function ExemplarPreferences(g: Graph, idx: seq<nat>, q: nat): real
    requires WellFormed(g) && |idx| == g.n && q <= g.n
  {
    if q == 0 then 0.0
    else ExemplarPreferences(g, idx, q - 1) + (if idx[q - 1] == q - 1 then g.s[g.m - g.n + q - 1] else 0.0)
  }

  /**
   * The statistics of an assignment: the preferences of the exemplars
   * (`expref`), the similarities of points to their exemplars (`dpsim`)
   * and their total, the net similarity.
   */
  method Stats(g: Graph, idx: array<nat>) returns (netsim: real, dpsim: real, expref: real)
    requires WellFormed(g) && idx.Length == g.n
    ensures dpsim == DpSim(g, idx[..], g.m) && expref == ExpRef(g, idx[..], g.m)
    ensures netsim == dpsim + expref
    ensures netsim == AssignedSim(g, idx[..], g.m)
  {
    dpsim, expref := 0.0, 0.0;
    for j := 0 to g.m
      invariant dpsim == DpSim(g, idx[..], j) && expref == ExpRef(g, idx[..], j)
      invariant dpsim + expref == AssignedSim(g, idx[..], j)
    {
      if idx[g.src[j]] == g.dst[j] {
        if g.src[j] == g.dst[j] {
          expref := expref + g.s[j];
        } else {
          dpsim := dpsim + g.s[j];
        }
      }
    }
    netsim := dpsim + expref;
  }

  /** No similarity record joins a point to itself. */
  predicate NoSelfRecords(g: Graph)
    requires WellFormed(g)
  {
    forall j :: 0 <= j < g.m - g.n ==> g.src[j] != g.dst[j]
  }

  lemma {:induction false} ExpRefOfRecords(g: Graph, idx: seq<nat>, len: nat)
    requires WellFormed(g) && |idx| == g.n && len <= g.m - g.n && NoSelfRecords(g)
    ensures ExpRef(g, idx, len) == 0.0
  {
    if len > 0 {
      ExpRefOfRecords(g, idx, len - 1);
    }
  }

  lemma {:induction false} ExpRefOfPreferences(g: Graph, idx: seq<nat>, q: nat)
    requires WellFormed(g) && |idx| == g.n && q <= g.n && NoSelfRecords(g)
    ensures ExpRef(g, idx, g.m - g.n + q) == ExemplarPreferences(g, idx, q)
  {
    if q == 0 {
      ExpRefOfRecords(g, idx, g.m - g.n);
    } else {
      ExpRefOfPreferences(g, idx, q - 1);
    }
  }

  /**
   * Without self-similarity records, `expref` is exactly the sum of the
   * preferences of the points assigned to themselves.
   */
  lemma ExpRefIsExemplarPreferences(g: Graph, idx: seq<nat>)
    requires WellFormed(g) && |idx| == g.n && NoSelfRecords(g)
    ensures ExpRef(g, idx, g.m) == ExemplarPreferences(g, idx, g.n)
  {
    ExpRefOfPreferences(g, idx, g.n);
  }
}
