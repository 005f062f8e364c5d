/**
 * The two message updates of one affinity-propagation iteration over the
 * sparse edge list: the max/second-max pass, the damped responsibility
 * update and the damped availability update.
 */
module ApMessages {
  import opened ApLoad

  /** The stand-in for minus infinity, -MAXDOUBLE. */
  const NegMax: real := -1.7976e308

  /** Availability plus similarity of every edge: the quantity the max pass ranks. */
  function Fit(a: seq<real>, s: seq<real>): (v: seq<real>)
    requires |a| == |s|
    ensures |v| == |a|
    ensures forall j :: 0 <= j < |v| ==> v[j] == a[j] + s[j]
  {
    seq(|a|, j requires 0 <= j < |a| => a[j] + s[j])
  }

  /**
   * `hi` and `lo` are the largest and the second largest (a value that
   * occurs twice counts twice) of the values `v[j]`, `j < len`, of the edges
   * whose source is `p`, where two copies of the sentinel NegMax take part:
   * everything is at most `hi`, of any two distinct edges one is at most
   * `lo`, and each of `hi` and `lo` is the sentinel or is attained, `lo` by
   * an edge other than one attaining `hi`.
   */
  ghost predicate IsTop2(v: seq<real>, src: seq<nat>, len: nat, p: nat, hi: real, lo: real)
    requires len <= |v| && len <= |src|
  {
    && NegMax <= lo <= hi
    && (forall j :: 0 <= j < len && src[j] == p ==> v[j] <= hi)
    && (forall j1, j2 :: 0 <= j1 < len && 0 <= j2 < len && j1 != j2 && src[j1] == p && src[j2] == p ==>
          v[j1] <= lo || v[j2] <= lo)
    && (hi == NegMax || exists j :: 0 <= j < len && src[j] == p && v[j] == hi)
    && (lo == NegMax ||
        exists j1, j2 :: 0 <= j1 < len && 0 <= j2 < len && j1 != j2 && src[j1] == p && src[j2] == p &&
          v[j1] == hi && v[j2] == lo)
  }

  /**
   * `c` is the largest value, or the sentinel, over the edges that share
   * the source of edge `j` other than `j` itself.
   */
  ghost predicate IsBestOther(v: seq<real>, src: seq<nat>, len: nat, j: nat, c: real)
    requires j < len <= |v| && len <= |src|
  {
    && NegMax <= c
    && (forall j' :: 0 <= j' < len && j' != j && src[j'] == src[j] ==> v[j'] <= c)
    && (c == NegMax || exists j' :: 0 <= j' < len && j' != j && src[j'] == src[j] && v[j'] == c)
  }

  /** The top two after one more value `x` of the point's own edges. */
  function Top2Push(hi: real, lo: real, x: real): (real, real) {
    if x > hi then (x, hi) else if x > lo then (hi, x) else (hi, lo)
  }

  /** Before the first edge, arrays of sentinels hold the top two of every point. */
  lemma AllTop2Empty(v: seq<real>, src: seq<nat>, n: nat, hi: seq<real>, lo: seq<real>)
    requires |hi| == n && |lo| == n
    requires forall p :: 0 <= p < n ==> hi[p] == NegMax && lo[p] == NegMax
    ensures AllTop2(v, src, 0, n, hi, lo)
  {
  }

  /** One step of the max pass keeps the top two of the edges seen so far. */
  lemma Top2Extend(v: seq<real>, src: seq<nat>, len: nat, p: nat, hi: real, lo: real)
    requires len < |v| && len < |src|
    requires IsTop2(v, src, len, p, hi, lo)
    ensures src[len] != p ==> IsTop2(v, src, len + 1, p, hi, lo)
    ensures src[len] == p ==>
      IsTop2(v, src, len + 1, p, Top2Push(hi, lo, v[len]).0, Top2Push(hi, lo, v[len]).1)
  {
    if src[len] != p {
      Top2Other(v, src, len, p, hi, lo);
    } else if v[len] > hi {
      Top2NewFirst(v, src, len, p, hi, lo);
    } else if v[len] > lo {
      Top2NewSecond(v, src, len, p, hi, lo);
    } else {
      Top2Below(v, src, len, p, hi, lo);
    }
  }

  /** An edge of another source leaves the pair as it is. */
  lemma Top2Other(v: seq<real>, src: seq<nat>, len: nat, p: nat, hi: real, lo: real)
    requires len < |v| && len < |src| && src[len] != p
    requires IsTop2(v, src, len, p, hi, lo)
    ensures IsTop2(v, src, len + 1, p, hi, lo)
  {
  }

  /** A value above the maximum becomes the maximum, and the old maximum the second. */
  lemma Top2NewFirst(v: seq<real>, src: seq<nat>, len: nat, p: nat, hi: real, lo: real)
    requires len < |v| && len < |src| && src[len] == p && v[len] > hi
    requires IsTop2(v, src, len, p, hi, lo)
    ensures IsTop2(v, src, len + 1, p, v[len], hi)
  {
    if hi != NegMax {
      var j :| 0 <= j < len && src[j] == p && v[j] == hi;
      assert j != len;
    }
  }

  /** A value between the two becomes the second. */
  lemma Top2NewSecond(v: seq<real>, src: seq<nat>, len: nat, p: nat, hi: real, lo: real)
    requires len < |v| && len < |src| && src[len] == p && lo < v[len] <= hi
    requires IsTop2(v, src, len, p, hi, lo)
    ensures IsTop2(v, src, len + 1, p, hi, v[len])
  {
    assert hi != NegMax;
    var j :| 0 <= j < len && src[j] == p && v[j] == hi;
    assert j != len;
  }

  /** A value at most the second leaves the pair as it is. */
  lemma Top2Below(v: seq<real>, src: seq<nat>, len: nat, p: nat, hi: real, lo: real)
    requires len < |v| && len < |src| && src[len] == p && v[len] <= lo
    requires IsTop2(v, src, len, p, hi, lo)
    ensures IsTop2(v, src, len + 1, p, hi, lo)
  {
  }

  /** IsTop2 for every point below `n`, with the pairs held in `hi` and `lo`. */
  ghost predicate AllTop2(v: seq<real>, src: seq<nat>, len: nat, n: nat, hi: seq<real>, lo: seq<real>)
    requires len <= |v| && len <= |src| && |hi| == n && |lo| == n
  {
    forall p :: 0 <= p < n ==> IsTop2(v, src, len, p, hi[p], lo[p])
  }

  /** The whole-array form of Top2Extend: only the pair of the edge's source `p` moves. */
  lemma AllTop2Extend(v: seq<real>, src: seq<nat>, len: nat, n: nat, hi: seq<real>, lo: seq<real>, p: nat, x: real)
    requires len < |v| && len < |src| && |hi| == n && |lo| == n && p == src[len] < n && x == v[len]
    requires AllTop2(v, src, len, n, hi, lo)
    ensures AllTop2(v, src, len + 1, n, hi[p := Top2Push(hi[p], lo[p], x).0], lo[p := Top2Push(hi[p], lo[p], x).1])
  {
    var pushed := Top2Push(hi[p], lo[p], x);
    var hi', lo' := hi[p := pushed.0], lo[p := pushed.1];
    forall q | 0 <= q < n
      ensures IsTop2(v, src, len + 1, q, hi'[q], lo'[q])
    {
      Top2Extend(v, src, len, q, hi[q], lo[q]);
    }
  }

  /**
   * The value the responsibility update subtracts, mx2 for an edge whose
   * own availability plus similarity equals mx1 and mx1 otherwise, is the
   * best competing candidate of the same source.
   */
  lemma CompetitorIsBestOther(v: seq<real>, src: seq<nat>, len: nat, j: nat, hi: real, lo: real)
    requires j < len <= |v| && len <= |src|
    requires IsTop2(v, src, len, src[j], hi, lo)
    ensures IsBestOther(v, src, len, j, Competitor(v[j], hi, lo))
  {
    var p := src[j];
    if v[j] == hi {
      if lo != NegMax {
        var j1, j2 :| 0 <= j1 < len && 0 <= j2 < len && j1 != j2 && src[j1] == p && src[j2] == p &&
          v[j1] == hi && v[j2] == lo;
        if j2 == j {
          assert v[j1] == lo;
        }
      }
    } else if hi != NegMax {
      var j1 :| 0 <= j1 < len && src[j1] == p && v[j1] == hi;
      assert j1 != j;
    }
  }

  /** The competing value of an edge whose availability plus similarity is `x`. */
  function Competitor(x: real, hi: real, lo: real): real {
    if x == hi then lo else hi
  }

  /** Sets every element of `x` to `c`. */
  method Fill(x: array<real>, c: real)
    modifies x
    ensures forall p :: 0 <= p < x.Length ==> x[p] == c
  {
    for p := 0 to x.Length
      invariant forall q :: 0 <= q < p ==> x[q] == c
    {
      x[p] := c;
    }
  }

  /**
   * One step of the max pass for an edge of source `p` with value `tmp`;
   * `hi` and `lo` are the arrays' values before it.
   */
  method Push2(mx1: array<real>, mx2: array<real>, p: nat, tmp: real, ghost hi: seq<real>, ghost lo: seq<real>)
    requires p < mx1.Length == mx2.Length && mx1 != mx2
    requires hi == mx1[..] && lo == mx2[..]
    modifies mx1, mx2
    ensures mx1[..] == hi[p := Top2Push(hi[p], lo[p], tmp).0]
    ensures mx2[..] == lo[p := Top2Push(hi[p], lo[p], tmp).1]
  {
    if tmp > mx1[p] {
      mx2[p] := mx1[p];
      mx1[p] := tmp;
    } else if tmp > mx2[p] {
      mx2[p] := tmp;
    }
  }

  /**
   * The max pass: for every point p, mx1[p] and mx2[p] become the top two
   * of availability plus similarity over the edges with source p.
   */
  method ComputeMaxes(g: Graph, a: array<real>, mx1: array<real>, mx2: array<real>)
    requires WellFormed(g)
    requires a.Length == g.m && mx1.Length == g.n && mx2.Length == g.n
    requires mx1 != mx2 && a != mx1 && a != mx2
    modifies mx1, mx2
    ensures AllTop2(Fit(a[..], g.s), g.src, g.m, g.n, mx1[..], mx2[..])
  {
    ghost var v := Fit(a[..], g.s);
    Fill(mx1, NegMax);
    Fill(mx2, NegMax);
    AllTop2Empty(v, g.src, g.n, mx1[..], mx2[..]);
    for j := 0 to g.m
      invariant AllTop2(v, g.src, j, g.n, mx1[..], mx2[..])
    {
      MaxStep(g, a, mx1, mx2, j, v);
    }
  }

  /** One turn of the max pass: edge `j` enters the top two of its source. */
  method MaxStep(g: Graph, a: array<real>, mx1: array<real>, mx2: array<real>, j: nat, ghost v: seq<real>)
    requires WellFormed(g) && j < g.m
    requires a.Length == g.m && mx1.Length == g.n && mx2.Length == g.n
    requires mx1 != mx2 && a != mx1 && a != mx2
    requires v == Fit(a[..], g.s) && AllTop2(v, g.src, j, g.n, mx1[..], mx2[..])
    modifies mx1, mx2
    ensures AllTop2(v, g.src, j + 1, g.n, mx1[..], mx2[..])
  {
    ghost var hi, lo := mx1[..], mx2[..];
    var p, tmp := g.src[j], a[j] + g.s[j];
    AllTop2Extend(v, g.src, j, g.n, hi, lo, p, tmp);
    Push2(mx1, mx2, p, tmp, hi, lo);
  }

  /**
   * The damped responsibility update: r[j] moves towards s[j] minus the
   * best competing availability plus similarity of the same source.
   */
  method UpdateResponsibilities(g: Graph, a: array<real>, r: array<real>,
                                mx1: array<real>, mx2: array<real>, lam: real)
    requires WellFormed(g)
    requires a.Length == g.m && r.Length == g.m && mx1.Length == g.n && mx2.Length == g.n
    requires r != a && r != mx1 && r != mx2
    modifies r
    ensures forall j :: 0 <= j < g.m ==>
      r[j] == Damp(lam, old(r[j]), g.s[j] - Competitor(a[j] + g.s[j], mx1[g.src[j]], mx2[g.src[j]]))
  {
    for j := 0 to g.m
      invariant forall q :: 0 <= q < j ==>
        r[q] == Damp(lam, old(r[q]), g.s[q] - Competitor(a[q] + g.s[q], mx1[g.src[q]], mx2[g.src[q]]))
      invariant forall q :: j <= q < g.m ==> r[q] == old(r[q])
    {
      var tmp := a[j] + g.s[j];
      if tmp == mx1[g.src[j]] {
        r[j] := lam * r[j] + (1.0 - lam) * (g.s[j] - mx2[g.src[j]]);
      } else {
        r[j] := lam * r[j] + (1.0 - lam) * (g.s[j] - mx1[g.src[j]]);
      }
    }
  }

  /** The positive part max(x, 0). */
  function Pos(x: real): real {
    if x > 0.0 then x else 0.0
  }

  /** The negative part min(x, 0). */
  function Min0(x: real): real {
    if x < 0.0 then x else 0.0
  }

  /**
   * The support of candidate exemplar q accumulated over the edges j < hi:
   * edges below `split` (similarity edges) contribute their responsibility's
   * positive part, the preference edges from `split` on contribute it as is.
   */
  function Support(r: seq<real>, dst: seq<nat>, q: nat, split: nat, hi: nat): real
    requires hi <= |r| && hi <= |dst|
  {
    if hi == 0 then 0.0
    else
      Support(r, dst, q, split, hi - 1) +
      (if dst[hi - 1] != q then 0.0 else if hi - 1 < split then Pos(r[hi - 1]) else r[hi - 1])
  }

  /**
   * The positive responsibilities sent to q over the edges j < hi other
   * than edge `skip`: the sum in the availability message.
   */
  function PosInto(r: seq<real>, dst: seq<nat>, q: nat, hi: nat, skip: int): real
    requires hi <= |r| && hi <= |dst|
  {
    if hi == 0 then 0.0
    else PosInto(r, dst, q, hi - 1, skip) + (if dst[hi - 1] == q && hi - 1 != skip then Pos(r[hi - 1]) else 0.0)
  }

  /** Below the split, the support is the sum of positive parts. */
  lemma {:induction false} SupportBelowSplit(r: seq<real>, dst: seq<nat>, q: nat, split: nat, hi: nat)
    requires hi <= split && hi <= |r| && hi <= |dst|
    ensures Support(r, dst, q, split, hi) == PosInto(r, dst, q, hi, -1)
  {
    if hi > 0 {
      SupportBelowSplit(r, dst, q, split, hi - 1);
    }
  }

  /** Leaving out edge j from the positive sum removes exactly its positive part. */
  lemma {:induction false} PosIntoSkip(r: seq<real>, dst: seq<nat>, q: nat, hi: nat, j: nat)
    requires j < hi <= |r| && hi <= |dst| && dst[j] == q
    ensures PosInto(r, dst, q, hi, -1) - Pos(r[j]) == PosInto(r, dst, q, hi, j)
  {
    if hi - 1 != j {
      PosIntoSkip(r, dst, q, hi - 1, j);
    } else {
      PosIntoNoSkip(r, dst, q, hi - 1, j);
    }
  }

  /** A skipped index at or above the bound makes no difference. */
  lemma {:induction false} PosIntoNoSkip(r: seq<real>, dst: seq<nat>, q: nat, hi: nat, skip: int)
    requires hi <= |r| && hi <= |dst| && hi <= skip
    ensures PosInto(r, dst, q, hi, skip) == PosInto(r, dst, q, hi, -1)
  {
    if hi > 0 {
      PosIntoNoSkip(r, dst, q, hi - 1, skip);
    }
  }

  /** The preference edges add exactly the responsibility of q's own self edge. */
  lemma {:induction false} SupportAboveSplit(g: Graph, r: seq<real>, q: nat, hi: nat)
    requires WellFormed(g) && |r| == g.m && q < g.n
    requires g.m - g.n <= hi <= g.m
    ensures Support(r, g.dst, q, g.m - g.n, hi) ==
            Support(r, g.dst, q, g.m - g.n, g.m - g.n) + (if g.m - g.n + q < hi then r[g.m - g.n + q] else 0.0)
  {
    if hi > g.m - g.n {
      SupportAboveSplit(g, r, q, hi - 1);
    }
  }

  /**
   * What srp[q] minus the edge's own part means (section "availability" of
   * Frey and Dueck): for a similarity edge j into q it is r(q,q) plus the
   * positive responsibilities of all other edges into q, and for the self
   * edge of q it is the positive responsibilities of all similarity edges
   * into q.
   */
  lemma AvailabilityTarget(g: Graph, r: seq<real>, j: nat)
    requires WellFormed(g) && |r| == g.m && j < g.m
    ensures var q, split := g.dst[j], g.m - g.n;
      j < split ==>
        Support(r, g.dst, q, split, g.m) - Pos(r[j]) == r[split + q] + PosInto(r, g.dst, q, split, j)
    ensures var q, split := g.dst[j], g.m - g.n;
      split <= j ==>
        Support(r, g.dst, q, split, g.m) - r[j] == PosInto(r, g.dst, q, split, -1)
  {
    var q, split := g.dst[j], g.m - g.n;
    SupportAboveSplit(g, r, q, g.m);
    SupportBelowSplit(r, g.dst, q, split, split);
    if j < split {
      PosIntoSkip(r, g.dst, q, split, j);
    } else {
      assert g.src[j] == j - split == g.dst[j];
    }
  }

  /** The summing half of the availability update: srp[q] is the support of q. */
  method SumSupport(g: Graph, r: array<real>, srp: array<real>)
    requires WellFormed(g) && r.Length == g.m && srp.Length == g.n && r != srp
    modifies srp
    ensures forall q :: 0 <= q < g.n ==> srp[q] == Support(r[..], g.dst, q, g.m - g.n, g.m)
  {
    var split := g.m - g.n;
    Fill(srp, 0.0);
    for j := 0 to split
      invariant forall q :: 0 <= q < g.n ==> srp[q] == Support(r[..], g.dst, q, split, j)
    {
      if r[j] > 0.0 {
        srp[g.dst[j]] := srp[g.dst[j]] + r[j];
      }
    }
    for j := split to g.m
      invariant forall q :: 0 <= q < g.n ==> srp[q] == Support(r[..], g.dst, q, split, j)
    {
      srp[g.dst[j]] := srp[g.dst[j]] + r[j];
    }
  }

  /**
   * The damped availability update. A similarity edge moves towards
   * min(0, srp[target] - max(r, 0)), so with a damping factor in [0, 1] an
   * availability that was at most 0 stays at most 0; the self edge moves
   * towards srp[target] - r with no cap.
   */
  method UpdateAvailabilities(g: Graph, r: array<real>, a: array<real>, srp: array<real>, lam: real)
    requires WellFormed(g) && r.Length == g.m && a.Length == g.m && srp.Length == g.n
    requires r != a && r != srp && a != srp
    requires 0.0 <= lam <= 1.0
    modifies srp, a
    ensures forall q :: 0 <= q < g.n ==> srp[q] == Support(r[..], g.dst, q, g.m - g.n, g.m)
    ensures forall j :: 0 <= j < g.m - g.n ==>
      a[j] == Damp(lam, old(a[j]), Min0(srp[g.dst[j]] - Pos(r[j])))
    ensures forall j :: g.m - g.n <= j < g.m ==>
      a[j] == Damp(lam, old(a[j]), srp[g.dst[j]] - r[j])
    ensures forall j :: 0 <= j < g.m - g.n && old(a[j]) <= 0.0 ==> a[j] <= 0.0
  {
    SumSupport(g, r, srp);
    DampSimilarityEdges(g, r, a, srp, lam);
    DampSelfEdges(g, r, a, srp, lam);
  }

  /** The availability update of the similarity edges j < m - n. */
  method DampSimilarityEdges(g: Graph, r: array<real>, a: array<real>, srp: array<real>, lam: real)
    requires WellFormed(g) && r.Length == g.m && a.Length == g.m && srp.Length == g.n
    requires r != a && a != srp
    requires 0.0 <= lam <= 1.0
    modifies a
    ensures forall j :: 0 <= j < g.m - g.n ==>
      a[j] == Damp(lam, old(a[j]), Min0(srp[g.dst[j]] - Pos(r[j])))
    ensures forall j :: 0 <= j < g.m - g.n && old(a[j]) <= 0.0 ==> a[j] <= 0.0
    ensures forall j :: g.m - g.n <= j < g.m ==> a[j] == old(a[j])
  {
    for j := 0 to g.m - g.n
      invariant forall q :: 0 <= q < j ==>
        a[q] == Damp(lam, old(a[q]), Min0(srp[g.dst[q]] - Pos(r[q])))
      invariant forall q :: j <= q < g.m ==> a[q] == old(a[q])
    {
      var tmp;
      if r[j] > 0.0 { tmp := srp[g.dst[j]] - r[j]; } else { tmp := srp[g.dst[j]]; }
      if tmp < 0.0 {
        a[j] := lam * a[j] + (1.0 - lam) * tmp;
      } else {
        a[j] := lam * a[j];
      }
    }
    forall j | 0 <= j < g.m - g.n && old(a[j]) <= 0.0 ensures a[j] <= 0.0 {
      DampedNonPositive(lam, old(a[j]), Min0(srp[g.dst[j]] - Pos(r[j])));
    }
  }

  /** The availability update of the self edges m - n <= j < m. */
  method DampSelfEdges(g: Graph, r: array<real>, a: array<real>, srp: array<real>, lam: real)
    requires WellFormed(g) && r.Length == g.m && a.Length == g.m && srp.Length == g.n
    requires r != a && a != srp
    modifies a
    ensures forall j :: 0 <= j < g.m - g.n ==> a[j] == old(a[j])
    ensures forall j :: g.m - g.n <= j < g.m ==>
      a[j] == Damp(lam, old(a[j]), srp[g.dst[j]] - r[j])
  {
    for j := g.m - g.n to g.m
      invariant forall q :: 0 <= q < g.m - g.n ==> a[q] == old(a[q])
      invariant forall q :: g.m - g.n <= q < j ==> a[q] == Damp(lam, old(a[q]), srp[g.dst[q]] - r[q])
      invariant forall q :: j <= q < g.m ==> a[q] == old(a[q])
    {
      a[j] := lam * a[j] + (1.0 - lam) * (srp[g.dst[j]] - r[j]);
    }
  }

  /** Damping: the new message is `lam` times the old one plus `1 - lam` times the target. */
  function Damp(lam: real, prev: real, target: real): real {
    lam * prev + (1.0 - lam) * target
  }

  /** A convex combination of two non-positive values is non-positive. */
  lemma DampedNonPositive(lam: real, x: real, y: real)
    requires 0.0 <= lam <= 1.0
    ensures x <= 0.0 && y <= 0.0 ==> Damp(lam, x, y) <= 0.0
  {
    if x <= 0.0 && y <= 0.0 {
      assert lam * x <= 0.0;
      assert (1.0 - lam) * y <= 0.0;
    }
  }
}
