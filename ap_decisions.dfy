/**
 * The exemplar-decision history of affinity propagation: a circular buffer
 * dec[convits][n] of 0/1 decisions ("point p is its own exemplar"), the
 * rolling per-point sums decsum[p] over all convits slots, and the slot
 * cursor decit.
 */
module ApDecisions {
  import opened ApLoad

  /**
   * The cursor step `decit++; if (decit >= convits) decit = 0`. From the
   * initial value convits it wraps to slot 0; from a slot it moves to the
   * next slot modulo convits.
   */
  function NextSlot(decit: nat, convits: nat): (d: nat)
    requires convits >= 1 && decit <= convits
    ensures d < convits
    ensures decit < convits ==> d == (decit + 1) % convits
    ensures decit == convits ==> d == 0
  {
    if decit + 1 >= convits then 0 else decit + 1
  }

  /** The sum of a sequence of counts. */
  function Sum(xs: seq<nat>): nat {
    if xs == [] then 0 else Sum(xs[..|xs| - 1]) + xs[|xs| - 1]
  }

  /** Every element is a 0/1 decision. */
  predicate Bits(xs: seq<nat>) {
    forall i :: 0 <= i < |xs| ==> xs[i] <= 1
  }

  /** A sum of decisions is at most the number of decisions. */
  lemma {:induction false} SumBitsBound(xs: seq<nat>)
    requires Bits(xs)
    ensures Sum(xs) <= |xs|
  {
    if xs != [] {
      SumBitsBound(xs[..|xs| - 1]);
    }
  }

  /** Replacing one element changes the sum by the difference. */
  lemma {:induction false} SumUpdate(xs: seq<nat>, d: nat, x: nat)
    requires d < |xs|
    ensures Sum(xs[d := x]) == Sum(xs) - xs[d] + x
  {
    var last := |xs| - 1;
    if d < last {
      assert xs[d := x][..last] == xs[..last][d := x];
      SumUpdate(xs[..last], d, x);
    } else {
      assert xs[d := x][..last] == xs[..last];
    }
  }

  /** A sum of decisions is 0 exactly when all are 0, and full exactly when all are 1. */
  lemma {:induction false} SumBitsExtremes(xs: seq<nat>)
    requires Bits(xs)
    ensures Sum(xs) == 0 <==> forall i :: 0 <= i < |xs| ==> xs[i] == 0
    ensures Sum(xs) == |xs| <==> forall i :: 0 <= i < |xs| ==> xs[i] == 1
  {
    if xs != [] {
      var init := xs[..|xs| - 1];
      SumBitsExtremes(init);
      SumBitsBound(init);
      assert forall i :: 0 <= i < |init| ==> init[i] == xs[i];
    }
  }

  /** The slots of one point, oldest slot index first. */
  ghost function Column(dec: array2<nat>, p: nat): (col: seq<nat>)
    reads dec
    requires p < dec.Length1
    ensures |col| == dec.Length0
  {
    seq(dec.Length0, c requires 0 <= c < dec.Length0 reads dec => dec[c, p])
  }

  /** The decisions of one slot. */
  ghost function Row(dec: array2<nat>, c: nat): (row: seq<nat>)
    reads dec
    requires c < dec.Length0
    ensures |row| == dec.Length1
  {
    seq(dec.Length1, p requires 0 <= p < dec.Length1 reads dec => dec[c, p])
  }

  /**
   * The window invariant: every stored decision is 0 or 1 and decsum[p] is
   * the sum of point p's decisions over all slots.
   */
  ghost predicate Window(dec: array2<nat>, decsum: array<nat>)
    reads dec, decsum
  {
    && dec.Length1 == decsum.Length
    && (forall c, p :: 0 <= c < dec.Length0 && 0 <= p < dec.Length1 ==> dec[c, p] <= 1)
    && (forall p :: 0 <= p < decsum.Length ==> decsum[p] == Sum(Column(dec, p)))
  }

  /** A buffer of zero decisions with zero rolling sums satisfies the window invariant. */
  lemma WindowZero(dec: array2<nat>, decsum: array<nat>)
    requires dec.Length1 == decsum.Length
    requires forall c, p :: 0 <= c < dec.Length0 && 0 <= p < dec.Length1 ==> dec[c, p] == 0
    requires forall p :: 0 <= p < decsum.Length ==> decsum[p] == 0
    ensures Window(dec, decsum)
  {
    forall p | 0 <= p < decsum.Length
      ensures Sum(Column(dec, p)) == 0
    {
      SumBitsExtremes(Column(dec, p));
    }
  }

  /**
   * The convergence test's meaning: when every rolling sum is 0 or
   * convits, every point made the same decision in all convits slots.
   */
  lemma ConvergedMeansStable(dec: array2<nat>, decsum: array<nat>, p: nat, c1: nat, c2: nat)
    requires Window(dec, decsum) && p < decsum.Length
    requires decsum[p] == 0 || decsum[p] == dec.Length0
    requires c1 < dec.Length0 && c2 < dec.Length0
    ensures dec[c1, p] == dec[c2, p]
  {
    var col := Column(dec, p);
    SumBitsExtremes(col);
    assert col[c1] == dec[c1, p] && col[c2] == dec[c2, p];
  }

  /** Under the window invariant every rolling sum lies in [0, convits]. */
  lemma WindowBound(dec: array2<nat>, decsum: array<nat>, p: nat)
    requires Window(dec, decsum) && p < decsum.Length
    ensures decsum[p] <= dec.Length0
  {
    SumBitsBound(Column(dec, p));
  }

  /** The decision of point p in the current iteration: a(p,p) + r(p,p) > 0. */
  function Decision(g: Graph, a: seq<real>, r: seq<real>, p: nat): nat
    requires WellFormed(g) && |a| == g.m && |r| == g.m && p < g.n
  {
    if a[g.m - g.n + p] + r[g.m - g.n + p] > 0.0 then 1 else 0
  }

  /** Takes the decisions of slot d out of the rolling sums. */
  method Evict(dec: array2<nat>, decsum: array<nat>, d: nat)
    requires Window(dec, decsum) && d < dec.Length0
    modifies decsum
    ensures forall p :: 0 <= p < decsum.Length ==> decsum[p] + dec[d, p] == Sum(Column(dec, p))
  {
    for p := 0 to decsum.Length
      invariant forall q :: 0 <= q < p ==> decsum[q] + dec[d, q] == Sum(Column(dec, q))
      invariant forall q :: p <= q < decsum.Length ==> decsum[q] == Sum(Column(dec, q))
    {
      SumUpdate(Column(dec, p), d, 0);
      decsum[p] := decsum[p] - dec[d, p];
    }
  }

  /** Writes the new decisions into slot d. */
  method Record(g: Graph, a: array<real>, r: array<real>, dec: array2<nat>, decsum: array<nat>, d: nat)
    requires WellFormed(g) && a.Length == g.m && r.Length == g.m
    requires dec.Length1 == g.n && decsum.Length == g.n && d < dec.Length0
    requires forall c, p :: 0 <= c < dec.Length0 && 0 <= p < dec.Length1 ==> dec[c, p] <= 1
    requires forall p :: 0 <= p < g.n ==> decsum[p] + dec[d, p] == Sum(Column(dec, p))
    modifies dec
    ensures forall c, p :: 0 <= c < dec.Length0 && 0 <= p < dec.Length1 ==> dec[c, p] <= 1
    ensures forall p :: 0 <= p < g.n ==> decsum[p] + dec[d, p] == Sum(Column(dec, p))
    ensures forall p :: 0 <= p < g.n ==> dec[d, p] == Decision(g, a[..], r[..], p)
    ensures forall c, p :: 0 <= c < dec.Length0 && c != d && 0 <= p < g.n ==> dec[c, p] == old(dec[c, p])
  {
    for p := 0 to g.n
      invariant forall q :: 0 <= q < p ==> dec[d, q] == Decision(g, a[..], r[..], q)
      invariant forall c, q :: 0 <= c < dec.Length0 && 0 <= q < g.n && (c != d || p <= q) ==>
        dec[c, q] == old(dec[c, q])
    {
      dec[d, p] := if a[g.m - g.n + p] + r[g.m - g.n + p] > 0.0 then 1 else 0;
    }
    forall q | 0 <= q < g.n
      ensures decsum[q] + dec[d, q] == Sum(Column(dec, q))
    {
      assert Column(dec, q) == old(Column(dec, q))[d := dec[d, q]];
      SumUpdate(old(Column(dec, q)), d, dec[d, q]);
    }
  }

  /** The exemplar count K of slot d. */
  method CountRow(dec: array2<nat>, d: nat) returns (k: nat)
    requires d < dec.Length0
    ensures k == Sum(Row(dec, d))
  {
    k := 0;
    for p := 0 to dec.Length1
      invariant k == Sum(Row(dec, d)[..p])
    {
      assert Row(dec, d)[..p + 1][..p] == Row(dec, d)[..p];
      k := k + dec[d, p];
    }
    assert Row(dec, d)[..dec.Length1] == Row(dec, d);
  }

  /** Adds the decisions of slot d back into the rolling sums. */
  method Admit(dec: array2<nat>, decsum: array<nat>, d: nat)
    requires dec.Length1 == decsum.Length && d < dec.Length0
    requires forall c, p :: 0 <= c < dec.Length0 && 0 <= p < dec.Length1 ==> dec[c, p] <= 1
    requires forall p :: 0 <= p < decsum.Length ==> decsum[p] + dec[d, p] == Sum(Column(dec, p))
    modifies decsum
    ensures Window(dec, decsum)
  {
    for p := 0 to decsum.Length
      invariant forall q :: 0 <= q < p ==> decsum[q] == Sum(Column(dec, q))
      invariant forall q :: p <= q < decsum.Length ==> decsum[q] + dec[d, q] == Sum(Column(dec, q))
    {
      decsum[p] := decsum[p] + dec[d, p];
    }
  }

  /**
   * The decision step of one iteration: advance the cursor, replace the
   * oldest slot by this iteration's decisions keeping the rolling sums
   * exact, and count the exemplars K of the new slot.
   */
  method UpdateDecisions(g: Graph, a: array<real>, r: array<real>,
                         dec: array2<nat>, decsum: array<nat>, decit: nat)
    returns (decit': nat, k: nat)
    requires WellFormed(g) && a.Length == g.m && r.Length == g.m
    requires dec.Length0 >= 1 && dec.Length1 == g.n && decit <= dec.Length0
    requires Window(dec, decsum)
    modifies dec, decsum
    ensures decit' == NextSlot(decit, dec.Length0)
    ensures Window(dec, decsum)
    ensures forall p :: 0 <= p < g.n ==> dec[decit', p] == Decision(g, a[..], r[..], p)
    ensures forall c, p :: 0 <= c < dec.Length0 && c != decit' && 0 <= p < g.n ==> dec[c, p] == old(dec[c, p])
    ensures k == Sum(Row(dec, decit'))
  {
    decit' := NextSlot(decit, dec.Length0);
    Evict(dec, decsum, decit');
    Record(g, a, r, dec, decsum, decit');
    k := CountRow(dec, decit');
    Admit(dec, decsum, decit');
  }
}
