/**
 * The bounded descending top-k list of the evaluation tools: an array of
 * k_max + 1 (id, value) pairs whose first list_size entries are kept in
 * non-increasing order of value by a bubble insertion from the right.
 */
module TopK {

  datatype Pair = Pair(id: int, vl: real)

  /**
   * The insertion the bubble loop performs: `p` moves left past every
   * trailing entry with a strictly smaller value and stops at the first
   * entry whose value is at least its own.
   */
  function InsertDesc(xs: seq<Pair>, p: Pair): (r: seq<Pair>)
    ensures |r| == |xs| + 1
  {
    if xs == [] || xs[|xs| - 1].vl >= p.vl then xs + [p]
    else InsertDesc(xs[..|xs| - 1], p) + [xs[|xs| - 1]]
  }

  /** Every entry's value is at least that of every later entry. */
  ghost predicate SortedDesc(xs: seq<Pair>) {
    forall i, j :: 0 <= i < j < |xs| ==> xs[i].vl >= xs[j].vl
  }

  /**
   * On a sorted list the insertion puts `p` right after the entries whose
   * value is at least its own, so an earlier entry of equal value stays
   * in front of it, and before the entries of smaller value.
   */
  lemma {:induction false} InsertAfterEqual(xs: seq<Pair>, p: Pair) returns (i: nat)
    requires SortedDesc(xs)
    ensures i <= |xs| && InsertDesc(xs, p) == xs[..i] + [p] + xs[i..]
    ensures forall j :: 0 <= j < i ==> xs[j].vl >= p.vl
    ensures forall j :: i <= j < |xs| ==> xs[j].vl < p.vl
  {
    if xs == [] || xs[|xs| - 1].vl >= p.vl {
      i := |xs|;
    } else {
      var init := xs[..|xs| - 1];
      i := InsertAfterEqual(init, p);
      assert init[..i] == xs[..i];
      assert init[i..] + [xs[|xs| - 1]] == xs[i..];
    }
  }

  /** The insertion keeps a list sorted. */
  lemma InsertDescSorted(xs: seq<Pair>, p: Pair)
    requires SortedDesc(xs)
    ensures SortedDesc(InsertDesc(xs, p))
  {
    var i := InsertAfterEqual(xs, p);
    var r := InsertDesc(xs, p);
    forall a, b | 0 <= a < b < |r|
      ensures r[a].vl >= r[b].vl
    {
      if a < i && b == i {
      } else if a == i && b > i {
      } else {
        assert a < i || a > i;
      }
    }
  }

  /** The insertion adds `p` and loses nothing. */
  lemma {:induction false} InsertDescPerm(xs: seq<Pair>, p: Pair)
    ensures multiset(InsertDesc(xs, p)) == multiset(xs) + multiset{p}
  {
    if xs != [] && xs[|xs| - 1].vl < p.vl {
      var init := xs[..|xs| - 1];
      InsertDescPerm(init, p);
      assert xs == init + [xs[|xs| - 1]];
    }
  }

  /**
   * On a sorted list, inserting into the first `k` entries and keeping `k`
   * gives the first `k` entries of inserting into the whole list: a bounded
   * list loses nothing by dropping what falls off its end.
   */
  lemma InsertDescTruncate(xs: seq<Pair>, p: Pair, k: nat)
    requires SortedDesc(xs) && k <= |xs|
    ensures InsertDesc(xs[..k], p)[..k] == InsertDesc(xs, p)[..k]
  {
    var i := InsertAfterEqual(xs, p);
    var j := InsertAfterEqual(xs[..k], p);
    if i < k {
      assert xs[..k][i] == xs[i];
      assert j < k ==> xs[..k][j] == xs[j];
      assert j == i;
      var short, long := xs[..k][..i] + [p] + xs[..k][i..], xs[..i] + [p] + xs[i..];
      forall a | 0 <= a < k
        ensures short[a] == long[a]
      {
        if a > i {
          assert short[a] == xs[..k][a - 1] == xs[a - 1];
        }
      }
    } else {
      assert j == k;
      assert (xs[..k] + [p])[..k] == (xs[..i] + [p] + xs[i..])[..k];
    }
  }

  /** The list that inserting every added pair in turn produces, before any truncation. */
  function SortDesc(adds: seq<Pair>): (r: seq<Pair>)
    ensures |r| == |adds|
  {
    if adds == [] then [] else InsertDesc(SortDesc(adds[..|adds| - 1]), adds[|adds| - 1])
  }

  lemma {:induction false} SortDescSorted(adds: seq<Pair>)
    ensures SortedDesc(SortDesc(adds))
  {
    if adds != [] {
      SortDescSorted(adds[..|adds| - 1]);
      InsertDescSorted(SortDesc(adds[..|adds| - 1]), adds[|adds| - 1]);
    }
  }

  lemma {:induction false} SortDescPerm(adds: seq<Pair>)
    ensures multiset(SortDesc(adds)) == multiset(adds)
  {
    if adds != [] {
      var init := adds[..|adds| - 1];
      SortDescPerm(init);
      InsertDescPerm(SortDesc(init), adds[|adds| - 1]);
      assert adds == init + [adds[|adds| - 1]];
    }
  }

  /**
   * The first `k` entries of the sorted list are the `k` largest values
   * added: together with the entries after them they are exactly the
   * added pairs, and none of the entries after them has a larger value.
   */
  lemma TopKLargest(adds: seq<Pair>, k: nat)
    requires k <= |adds|
    ensures multiset(SortDesc(adds)[..k]) + multiset(SortDesc(adds)[k..]) == multiset(adds)
    ensures forall a, b :: 0 <= a < k <= b < |adds| ==> SortDesc(adds)[a].vl >= SortDesc(adds)[b].vl
  {
    var s := SortDesc(adds);
    SortDescSorted(adds);
    SortDescPerm(adds);
    assert s == s[..k] + s[k..];
  }

  /** How many entries have a value strictly above `v`. */
  function CountAbove(xs: seq<Pair>, v: real): nat {
    if xs == [] then 0 else CountAbove(xs[..|xs| - 1], v) + (if xs[|xs| - 1].vl > v then 1 else 0)
  }

  /** How many entries carry the id `t`. */
  function CountId(xs: seq<Pair>, t: int): nat {
    if xs == [] then 0 else CountId(xs[..|xs| - 1], t) + (if xs[|xs| - 1].id == t then 1 else 0)
  }

  lemma {:induction false} CountsAppend(xs: seq<Pair>, ys: seq<Pair>, v: real, t: int)
    ensures CountAbove(xs + ys, v) == CountAbove(xs, v) + CountAbove(ys, v)
    ensures CountId(xs + ys, t) == CountId(xs, t) + CountId(ys, t)
  {
    if ys == [] {
      assert xs + ys == xs;
    } else {
      CountsAppend(xs, ys[..|ys| - 1], v, t);
      assert (xs + ys)[..|xs + ys| - 1] == xs + ys[..|ys| - 1];
    }
  }

  /** The sorted list has the same counts as the pairs added. */
  lemma {:induction false} SortDescCounts(adds: seq<Pair>, v: real, t: int)
    ensures CountAbove(SortDesc(adds), v) == CountAbove(adds, v)
    ensures CountId(SortDesc(adds), t) == CountId(adds, t)
  {
    if adds != [] {
      var init := adds[..|adds| - 1];
      var p := adds[|adds| - 1];
      SortDescCounts(init, v, t);
      SortDescSorted(init);
      var i := InsertAfterEqual(SortDesc(init), p);
      var s := SortDesc(init);
      CountsAppend(s[..i] + [p], s[i..], v, t);
      CountsAppend(s[..i], [p], v, t);
      CountsAppend(s[..i], s[i..], v, t);
      assert s[..i] + s[i..] == s;
    }
  }

  /**
   * If the entry at position `j` of a sorted list has value `v`, at most
   * `j` entries have a value strictly above `v`.
   */
  lemma {:induction false} CountAboveSorted(xs: seq<Pair>, j: nat, v: real)
    requires SortedDesc(xs) && j < |xs| && xs[j].vl == v
    ensures CountAbove(xs, v) <= j
  {
    if |xs| - 1 > j {
      CountAboveSorted(xs[..|xs| - 1], j, v);
    } else {
      CountAboveBound(xs[..j], v);
    }
  }

  lemma {:induction false} CountAboveBound(xs: seq<Pair>, v: real)
    ensures CountAbove(xs, v) <= |xs|
  {
    if xs != [] {
      CountAboveBound(xs[..|xs| - 1], v);
    }
  }

  /** A prefix has at most the count of the whole list. */
  lemma CountIdPrefix(xs: seq<Pair>, k: nat, t: int)
    requires k <= |xs|
    ensures CountId(xs[..k], t) <= CountId(xs, t)
  {
    CountsAppend(xs[..k], xs[k..], 0.0, t);
    assert xs[..k] + xs[k..] == xs;
  }

  /** A list of entries none of which carries `t` has count 0. */
  lemma {:induction false} CountIdNone(xs: seq<Pair>, t: int)
    requires forall i :: 0 <= i < |xs| ==> xs[i].id != t
    ensures CountId(xs, t) == 0
  {
    if xs != [] {
      CountIdNone(xs[..|xs| - 1], t);
    }
  }

  /** The count is positive exactly when some entry carries the id. */
  lemma {:induction false} CountIdPositive(xs: seq<Pair>, t: int)
    ensures CountId(xs, t) > 0 <==> exists i :: 0 <= i < |xs| && xs[i].id == t
  {
    if xs != [] {
      CountIdPositive(xs[..|xs| - 1], t);
      if xs[|xs| - 1].id != t {
        assert forall i :: 0 <= i < |xs| - 1 ==> xs[..|xs| - 1][i] == xs[i];
      }
    }
  }

  /** `clear` / the clearing loops: every slot becomes `fill`. */
  method ClearSlots(list: array<Pair>, fill: Pair)
    modifies list
    ensures forall i :: 0 <= i < list.Length ==> list[i] == fill
  {
    for k := 0 to list.Length
      invariant forall i :: 0 <= i < k ==> list[i] == fill
    {
      list[k] := fill;
    }
  }

  /**
   * The insertion puts `pr` right after position `k` when the entry at `k`
   * (if any) has a value at least `pr`'s and every entry after it a
   * strictly smaller one.
   */
  lemma {:induction false} InsertAt(xs: seq<Pair>, pr: Pair, k: int)
    requires -1 <= k < |xs|
    requires k >= 0 ==> xs[k].vl >= pr.vl
    requires forall i :: k < i < |xs| ==> xs[i].vl < pr.vl
    ensures InsertDesc(xs, pr) == xs[..k + 1] + [pr] + xs[k + 1..]
    decreases |xs|
  {
    if k + 1 < |xs| {
      var init := xs[..|xs| - 1];
      InsertAt(init, pr, k);
      assert init[..k + 1] == xs[..k + 1];
      assert init[k + 1..] + [xs[|xs| - 1]] == xs[k + 1..];
    }
  }

  /**
   * `add`: write the pair into slot list_size, bubble it left while its
   * left neighbour has a strictly smaller value, then count it unless the
   * list already holds k_max entries. Slots 0..list_size end up holding
   * the insertion of the pair into the old entries; the others are kept.
   */
  method BubbleInsert(list: array<Pair>, listSize: nat, kMax: nat, pr: Pair) returns (newSize: nat)
    requires listSize <= kMax && list.Length == kMax + 1
    modifies list
    ensures list[..listSize + 1] == InsertDesc(old(list[..listSize]), pr)
    ensures list[listSize + 1..] == old(list[listSize + 1..])
    ensures newSize == if listSize < kMax then listSize + 1 else kMax
  {
    ghost var xs, orig := list[..listSize], list[..];
    list[listSize] := pr;
    var k: int := listSize - 1;
    while k >= 0 && list[k].vl < list[k + 1].vl
      invariant Bubbling(list[..], xs, pr, k, orig)
      decreases k
    {
      BubbleSwap(list, xs, pr, k, orig);
      k := k - 1;
    }
    BubbleDone(list[..], xs, pr, k, orig);
    newSize := if listSize < kMax then listSize + 1 else kMax;
  }

  /**
   * The state of the bubble loop at position `k`, over the slot values
   * `cur`: the old entries `xs` up to `k`, then `pr`, then the old entries
   * from `k + 1` on, each smaller than `pr`; slots past them as in `orig`.
   */
  ghost predicate Bubbling(cur: seq<Pair>, xs: seq<Pair>, pr: Pair, k: int, orig: seq<Pair>) {
    && |cur| == |orig| && |xs| < |cur| && -1 <= k < |xs|
    && (forall i :: 0 <= i <= k ==> cur[i] == xs[i])
    && cur[k + 1] == pr
    && (forall i :: k + 1 < i <= |xs| ==> cur[i] == xs[i - 1])
    && (forall i :: k < i < |xs| ==> xs[i].vl < pr.vl)
    && (forall i :: |xs| < i < |cur| ==> cur[i] == orig[i])
  }

  /** One swap of the bubble loop moves `pr` one slot to the left. */
  method BubbleSwap(list: array<Pair>, ghost xs: seq<Pair>, pr: Pair, k: int, ghost orig: seq<Pair>)
    requires Bubbling(list[..], xs, pr, k, orig) && k >= 0 && list[k].vl < list[k + 1].vl
    modifies list
    ensures Bubbling(list[..], xs, pr, k - 1, orig)
  {
    list[k], list[k + 1] := list[k + 1], list[k];
  }

  /** When the loop stops, the first `|xs| + 1` slots hold the insertion and the rest are kept. */
  lemma BubbleDone(cur: seq<Pair>, xs: seq<Pair>, pr: Pair, k: int, orig: seq<Pair>)
    requires Bubbling(cur, xs, pr, k, orig)
    requires k >= 0 ==> cur[k].vl >= cur[k + 1].vl
    ensures cur[..|xs| + 1] == InsertDesc(xs, pr)
    ensures cur[|xs| + 1..] == orig[|xs| + 1..]
  {
    InsertAt(xs, pr, k);
    assert cur[..|xs| + 1] == xs[..k + 1] + [pr] + xs[k + 1..];
  }

  /** A list where every entry carries `t` has count equal to its length. */
  lemma {:induction false} CountIdAll(xs: seq<Pair>, t: int)
    requires forall i :: 0 <= i < |xs| ==> xs[i].id == t
    ensures CountId(xs, t) == |xs|
  {
    if xs != [] {
      CountIdAll(xs[..|xs| - 1], t);
    }
  }

  function Min(a: nat, b: nat): nat {
    if a < b then a else b
  }

  /**
   * The state of a top-k list after `adds` were inserted into cleared
   * slots: `size` is the number kept, the kept entries are the first
   * `size` of the sorted insertion order, and while fewer than `kMax`
   * pairs were added every slot from `size` on still holds `fill`.
   */
  ghost predicate Holds(slots: seq<Pair>, adds: seq<Pair>, kMax: nat, size: nat, fill: Pair) {
    && |slots| == kMax + 1
    && size == Min(|adds|, kMax)
    && slots[..size] == SortDesc(adds)[..size]
    && (|adds| < kMax ==> forall i :: size <= i < |slots| ==> slots[i] == fill)
  }

  /** Cleared slots hold the empty insertion sequence. */
  lemma HoldsCleared(slots: seq<Pair>, kMax: nat, fill: Pair)
    requires |slots| == kMax + 1 && forall i :: 0 <= i < |slots| ==> slots[i] == fill
    ensures Holds(slots, [], kMax, 0, fill)
  {
  }

  /**
   * One bubble insertion on top of a list that holds `adds` gives a list
   * that holds `adds + [pr]`: below capacity the new pair joins the kept
   * entries, at capacity the smallest of the k_max + 1 falls off.
   */
  lemma HoldsAdd(slots: seq<Pair>, slots': seq<Pair>, adds: seq<Pair>, kMax: nat, size: nat, fill: Pair, pr: Pair)
    requires Holds(slots, adds, kMax, size, fill)
    requires |slots'| == |slots|
    requires slots'[..size + 1] == InsertDesc(slots[..size], pr)
    requires slots'[size + 1..] == slots[size + 1..]
    ensures Holds(slots', adds + [pr], kMax, Min(size + 1, kMax), fill)
  {
    assert adds + [pr] != [] && (adds + [pr])[..|adds|] == adds;
    assert SortDesc(adds + [pr]) == InsertDesc(SortDesc(adds), pr);
    if |adds| < kMax {
      HoldsAddBelow(slots, slots', adds, kMax, size, fill, pr);
    } else {
      HoldsAddFull(slots, slots', adds, kMax, size, fill, pr);
    }
  }

  /** Below capacity the new pair joins the kept entries and the cleared slots stay cleared. */
  lemma HoldsAddBelow(slots: seq<Pair>, slots': seq<Pair>, adds: seq<Pair>, kMax: nat, size: nat, fill: Pair, pr: Pair)
    requires Holds(slots, adds, kMax, size, fill) && |adds| < kMax
    requires |slots'| == |slots| && SortDesc(adds + [pr]) == InsertDesc(SortDesc(adds), pr)
    requires slots'[..size + 1] == InsertDesc(slots[..size], pr)
    requires slots'[size + 1..] == slots[size + 1..]
    ensures Holds(slots', adds + [pr], kMax, size + 1, fill)
  {
    assert SortDesc(adds)[..size] == SortDesc(adds);
    forall i | size + 1 <= i < |slots'|
      ensures slots'[i] == fill
    {
      assert slots'[i] == slots'[size + 1..][i - (size + 1)];
    }
  }

  /** At capacity the smallest of the k_max + 1 entries falls off. */
  lemma HoldsAddFull(slots: seq<Pair>, slots': seq<Pair>, adds: seq<Pair>, kMax: nat, size: nat, fill: Pair, pr: Pair)
    requires Holds(slots, adds, kMax, size, fill) && |adds| >= kMax
    requires |slots'| == |slots| && SortDesc(adds + [pr]) == InsertDesc(SortDesc(adds), pr)
    requires slots'[..size + 1] == InsertDesc(slots[..size], pr)
    ensures Holds(slots', adds + [pr], kMax, kMax, fill)
  {
    SortDescSorted(adds);
    InsertDescTruncate(SortDesc(adds), pr, kMax);
    assert slots'[..kMax] == slots'[..size + 1][..kMax];
  }

  /**
   * What a hit scan over the first `kMax` slots counts: the kept entries
   * carrying `t`, plus every still-cleared slot when `t` is the fill id.
   */
  lemma HoldsScan(slots: seq<Pair>, adds: seq<Pair>, kMax: nat, size: nat, fill: Pair, t: int)
    requires Holds(slots, adds, kMax, size, fill)
    ensures CountId(slots[..kMax], t) ==
      CountId(SortDesc(adds)[..size], t) + (if t == fill.id && |adds| < kMax then kMax - |adds| else 0)
  {
    var rest := slots[size..kMax];
    CountsAppend(slots[..size], rest, 0.0, t);
    assert slots[..size] + rest == slots[..kMax];
    if |adds| < kMax {
      CountFilled(slots, size, kMax, fill, t);
    } else {
      assert rest == [];
    }
  }

  lemma CountFilled(slots: seq<Pair>, lo: nat, hi: nat, fill: Pair, t: int)
    requires lo <= hi <= |slots|
    requires forall i :: lo <= i < |slots| ==> slots[i] == fill
    ensures CountId(slots[lo..hi], t) == if t == fill.id then hi - lo else 0
  {
    var rest := slots[lo..hi];
    assert forall i :: 0 <= i < |rest| ==> rest[i] == slots[lo + i];
    if t == fill.id {
      CountIdAll(rest, t);
    } else {
      CountIdNone(rest, t);
    }
  }

  /** The hit scan: how many of the first `upto` slots carry the id `t`. */
  method ScanHits(list: array<Pair>, upto: nat, t: int) returns (c: nat)
    requires upto <= list.Length
    ensures c == CountId(list[..upto], t)
  {
    c := 0;
    for k := 0 to upto
      invariant c == CountId(list[..k], t)
    {
      assert list[..k + 1][..k] == list[..k];
      if list[k].id == t {
        c := c + 1;
      }
    }
  }

  /** The ids of a run of entries, in order. */
  function Ids(xs: seq<Pair>): (ids: seq<int>)
    ensures |ids| == |xs| && forall i :: 0 <= i < |xs| ==> ids[i] == xs[i].id
  {
    if xs == [] then [] else Ids(xs[..|xs| - 1]) + [xs[|xs| - 1].id]
  }

  /** The ids a scan collects when it skips slots whose id is -1. */
  function NonEmptyIds(xs: seq<Pair>): seq<int> {
    if xs == [] then [] else NonEmptyIds(xs[..|xs| - 1]) + (if xs[|xs| - 1].id == -1 then [] else [xs[|xs| - 1].id])
  }

  lemma {:induction false} NonEmptyIdsAppend(xs: seq<Pair>, ys: seq<Pair>)
    ensures NonEmptyIds(xs + ys) == NonEmptyIds(xs) + NonEmptyIds(ys)
  {
    if ys == [] {
      assert xs + ys == xs;
    } else {
      NonEmptyIdsAppend(xs, ys[..|ys| - 1]);
      assert (xs + ys)[..|xs + ys| - 1] == xs + ys[..|ys| - 1];
    }
  }

  /** Without empty ids the scan collects every id; over empty slots only, none. */
  lemma {:induction false} NonEmptyIdsCases(xs: seq<Pair>)
    ensures (forall i :: 0 <= i < |xs| ==> xs[i].id != -1) ==> NonEmptyIds(xs) == Ids(xs)
    ensures (forall i :: 0 <= i < |xs| ==> xs[i].id == -1) ==> NonEmptyIds(xs) == []
  {
    if xs != [] {
      NonEmptyIdsCases(xs[..|xs| - 1]);
    }
  }

  /**
   * When no added pair has id -1, skipping empty slots among the first
   * `kMax` collects exactly the ids of the kept entries, best first.
   */
  lemma HoldsRows(slots: seq<Pair>, adds: seq<Pair>, kMax: nat, size: nat)
    requires Holds(slots, adds, kMax, size, Empty)
    requires forall j :: 0 <= j < |adds| ==> adds[j].id != -1
    ensures NonEmptyIds(slots[..kMax]) == Ids(SortDesc(adds)[..size])
  {
    var kept := SortDesc(adds)[..size];
    var rest := slots[size..kMax];
    assert slots[..kMax] == kept + rest;
    NonEmptyIdsAppend(kept, rest);
    SortDescIds(adds, size);
    NonEmptyIdsCases(kept);
    if |adds| < kMax {
      EmptyRest(slots, size, kMax);
    } else {
      assert rest == [];
    }
    NonEmptyIdsCases(rest);
  }

  lemma SortDescIds(adds: seq<Pair>, size: nat)
    requires size <= |adds|
    requires forall j :: 0 <= j < |adds| ==> adds[j].id != -1
    ensures forall i :: 0 <= i < size ==> SortDesc(adds)[..size][i].id != -1
  {
    SortDescPerm(adds);
    forall i | 0 <= i < size
      ensures SortDesc(adds)[i].id != -1
    {
      assert SortDesc(adds)[i] in multiset(adds);
    }
  }

  lemma EmptyRest(slots: seq<Pair>, lo: nat, hi: nat)
    requires lo <= hi <= |slots|
    requires forall i :: lo <= i < |slots| ==> slots[i] == Empty
    ensures forall i :: 0 <= i < hi - lo ==> slots[lo..hi][i].id == -1
  {
  }

  /** The neighbour scan: the ids of the first `upto` slots, skipping empty ones. */
  method ScanRows(list: array<Pair>, upto: nat) returns (rows: seq<int>)
    requires upto <= list.Length
    ensures rows == NonEmptyIds(list[..upto])
  {
    rows := [];
    for k := 0 to upto
      invariant rows == NonEmptyIds(list[..k])
    {
      assert list[..k + 1][..k] == list[..k];
      if list[k].id != -1 {
        rows := rows + [list[k].id];
      }
    }
  }

  /** The empty slot of `kmax_list`. */
  const Empty := Pair(-1, -1.0)

  /**
   * `kmax_list`: an array of k_max + 1 slots and the number of kept
   * entries. The ghost `added` records every pair added since the last
   * clear, which the kept entries are the largest of.
   */
  class KmaxList {
    var list: array<Pair>
    var kMax: nat
    var listSize: nat
    ghost var added: seq<Pair>

    ghost predicate Valid()
      reads this, list
    {
      list.Length == kMax + 1 && Holds(list[..], added, kMax, listSize, Empty)
    }

    /** `init`: allocate k + 1 empty slots. */
    constructor Init(k: nat)
      ensures Valid() && fresh(list)
      ensures kMax == k && listSize == 0 && added == []
    {
      kMax := k;
      listSize := 0;
      added := [];
      list := new Pair[k + 1](_ => Empty);
      new;
      HoldsCleared(list[..], k, Empty);
    }

    /** `clear`: forget every pair added; all slots become empty again. */
    method Clear()
      requires list.Length == kMax + 1
      modifies this, list
      ensures Valid() && list == old(list) && kMax == old(kMax)
      ensures listSize == 0 && added == []
      ensures forall i :: 0 <= i < list.Length ==> list[i] == Empty
    {
      listSize := 0;
      added := [];
      ClearSlots(list, Empty);
      HoldsCleared(list[..], kMax, Empty);
    }

    /** `add`: bubble the pair into place and keep at most k_max entries. */
    method Add(pr: Pair)
      requires Valid()
      modifies this, list
      ensures Valid() && list == old(list) && kMax == old(kMax)
      ensures added == old(added) + [pr]
      ensures listSize == Min(old(listSize) + 1, kMax)
      ensures SortedDesc(list[..listSize])
    {
      ghost var before := list[..];
      listSize := BubbleInsert(list, listSize, kMax, pr);
      HoldsAdd(before, list[..], added, kMax, old(listSize), Empty, pr);
      added := added + [pr];
      SortDescSorted(added);
    }

    /** The slots the hit scan reads, in terms of what was added. */
    lemma Scan(t: int)
      requires Valid()
      ensures CountId(list[..kMax], t) ==
        CountId(SortDesc(added)[..listSize], t) + (if t == -1 && |added| < kMax then kMax - |added| else 0)
    {
      HoldsScan(list[..], added, kMax, listSize, Empty, t);
      assert list[..][..kMax] == list[..kMax];
    }

    /** The slots the neighbour scan reads, in terms of what was added. */
    lemma Rows()
      requires Valid()
      requires forall j :: 0 <= j < |added| ==> added[j].id != -1
      ensures NonEmptyIds(list[..kMax]) == Ids(SortDesc(added)[..listSize])
    {
      HoldsRows(list[..], added, kMax, listSize);
      assert list[..][..kMax] == list[..kMax];
    }
  }
}
