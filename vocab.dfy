/**
 * The word vocabulary of the evaluation tools: words are hashed with a
 * base-257 polynomial over their (signed) bytes, wrapping at 2^64, and
 * stored in an open-addressing table of HashSize slots with linear
 * probing. A slot holds -1 when empty, otherwise the id of a word whose
 * text is kept in the `names` array.
 */
module Vocab {

  /** The number of hash slots, `hash_size` / `vocab_hash_size`. */
  const HashSize: nat := 30000000

  /** 2^64: unsigned 64-bit arithmetic wraps at this modulus. */
  const Pow64: nat := 0x1_0000_0000_0000_0000

  /** A byte of a word as a (signed) `char`. */
  type SChar = c: int | -128 <= c < 128

  type Word = seq<SChar>

  /** The polynomial hash over the integers: sum of w[i] * 257^(|w|-1-i). */
  function Poly(w: Word): int {
    if w == [] then 0 else Poly(w[..|w| - 1]) * 257 + w[|w| - 1]
  }

  /** The polynomial hash as computed in `unsigned long long`: wrapped at every step. */
  function WrapPoly(w: Word): (h: nat)
    ensures h < Pow64
  {
    if w == [] then 0 else (WrapPoly(w[..|w| - 1]) * 257 + w[|w| - 1]) % Pow64
  }

  /** Adding a multiple of 2^64 does not change the value modulo 2^64. */
  lemma {:induction false} ModShift(x: int, q: int)
    ensures (x + q * Pow64) % Pow64 == x % Pow64
    decreases if q >= 0 then q else -q
  {
    if q > 0 {
      ModShift(x, q - 1);
      assert x + q * Pow64 == (x + (q - 1) * Pow64) + Pow64;
    } else if q < 0 {
      ModShift(x, q + 1);
      assert x + q * Pow64 == (x + (q + 1) * Pow64) - Pow64;
    }
  }

  /** Wrapping at every step is the same as wrapping once at the end. */
  lemma {:induction false} WrapPolyIsPolyMod(w: Word)
    ensures WrapPoly(w) == Poly(w) % Pow64
  {
    if w != [] {
      var init := w[..|w| - 1];
      var c: int := w[|w| - 1];
      WrapPolyIsPolyMod(init);
      var p := Poly(init);
      var q := p / Pow64;
      assert p == q * Pow64 + WrapPoly(init);
      assert p * 257 + c == WrapPoly(init) * 257 + c + (q * 257) * Pow64;
      ModShift(WrapPoly(init) * 257 + c, q * 257);
    }
  }

  /** The slot a word's probe sequence starts at. */
  function Hash(w: Word): (h: nat)
    ensures h < HashSize
  {
    WrapPoly(w) % HashSize
  }

  /** `GetWordHash`: the hash loop over the bytes, then reduction to a slot. */
  method GetWordHash(w: Word) returns (h: nat)
    ensures h == Hash(w) && h < HashSize
  {
    var acc: nat := 0;
    for a := 0 to |w|
      invariant acc == WrapPoly(w[..a])
    {
      assert w[..a + 1][..a] == w[..a];
      acc := (acc * 257 + w[a]) % Pow64;
    }
    assert w[..|w|] == w;
    h := acc % HashSize;
  }

  /** The slot `d` steps along the probe sequence that starts at `h`. */
  function Probe(h: nat, d: nat): (s: nat)
    requires h < HashSize && d < HashSize
    ensures s < HashSize
  {
    if h + d < HashSize then h + d else h + d - HashSize
  }

  /** How many probe steps lead from `h` to `s`. */
  function Dist(h: nat, s: nat): (d: nat)
    requires h < HashSize && s < HashSize
    ensures d < HashSize && Probe(h, d) == s
  {
    if h <= s then s - h else s + HashSize - h
  }

  lemma ProbeInjective(h: nat, d1: nat, d2: nat)
    requires h < HashSize && d1 < HashSize && d2 < HashSize
    requires Probe(h, d1) == Probe(h, d2)
    ensures d1 == d2
  {
  }

  /** The source's step `(hash + 1) % hash_size` is one more probe step. */
  lemma ProbeStep(h: nat, d: nat)
    requires h < HashSize && d + 1 < HashSize
    ensures Probe(h, d + 1) == (Probe(h, d) + 1) % HashSize
  {
  }

  lemma SubsetCard<T>(a: set<T>, b: set<T>)
    requires a <= b
    ensures |a| <= |b|
  {
    assert b == a + (b - a);
  }

  /** The slot indices below `n`. */
  function Range(n: nat): (r: set<nat>)
    ensures |r| == n
    ensures forall s: nat :: s in r <==> s < n
  {
    if n == 0 then {} else Range(n - 1) + {n - 1}
  }

  lemma {:induction false} ValuesCard<K, V>(m: map<K, V>)
    ensures |m.Values| <= |m|
  {
    if |m| > 0 {
      var k :| k in m;
      var m' := m - {k};
      ValuesCard(m');
      forall v | v in m.Values
        ensures v in m'.Values + {m[k]}
      {
        var k' :| k' in m && m[k'] == v;
        if k' != k {
          assert m'[k'] == v;
        }
      }
      SubsetCard(m.Values, m'.Values + {m[k]});
    }
  }

  /** Every slot is empty (-1) or holds an id below `nameCount`. */
  ghost predicate SlotIds(sl: seq<int>, nameCount: nat) {
    forall s :: 0 <= s < |sl| ==> -1 <= sl[s] < nameCount
  }

  /** Every occupied slot holds a stored word, recorded at that slot. */
  ghost predicate SlotsStored(sl: seq<int>, nm: seq<Word>, wh: map<Word, nat>) {
    forall s :: 0 <= s < |sl| && 0 <= sl[s] < |nm| ==> nm[sl[s]] in wh && wh[nm[sl[s]]] == s
  }

  /** Every stored word sits in an occupied slot whose id names it. */
  ghost predicate StoredSlots(sl: seq<int>, nm: seq<Word>, wh: map<Word, nat>) {
    forall w :: w in wh ==> wh[w] < |sl| && 0 <= sl[wh[w]] < |nm| && nm[sl[wh[w]]] == w
  }

  /** The slots on a stored word's probe path before its own slot are occupied. */
  ghost predicate PathsOccupied(sl: seq<int>, wh: map<Word, nat>)
    requires |sl| == HashSize
  {
    forall w, d :: w in wh && wh[w] < HashSize && 0 <= d < Dist(Hash(w), wh[w]) ==>
      sl[Probe(Hash(w), d)] != -1
  }

  /** The representation invariant of a table, on the values of its arrays. */
  ghost predicate Inv(sl: seq<int>, nm: seq<Word>, wh: map<Word, nat>) {
    && |sl| == HashSize && |wh| < HashSize
    && SlotIds(sl, |nm|) && SlotsStored(sl, nm, wh) && StoredSlots(sl, nm, wh)
    && PathsOccupied(sl, wh)
  }

  /** The dictionary a table represents: each stored word and its id. */
  ghost function ContentsOf(sl: seq<int>, wh: map<Word, nat>): map<Word, int> {
    map w | w in wh && wh[w] < |sl| :: sl[wh[w]]
  }

  /** Some slot is empty, because fewer words than slots are stored. */
  lemma FreeSlot(sl: seq<int>, nm: seq<Word>, wh: map<Word, nat>) returns (e: nat)
    requires Inv(sl, nm, wh)
    ensures e < HashSize && sl[e] == -1
  {
    var occupied := set s: nat | s < HashSize && sl[s] != -1;
    assert occupied <= wh.Values;
    SubsetCard(occupied, wh.Values);
    ValuesCard(wh);
    var all := Range(HashSize);
    if all <= occupied {
      SubsetCard(all, occupied);
      assert false;
    }
    e :| e in all && e !in occupied;
  }

  /** Writing the text of an id no slot holds keeps the invariant. */
  lemma NameKeepsInv(sl: seq<int>, nm: seq<Word>, wh: map<Word, nat>, id: nat, w: Word)
    requires Inv(sl, nm, wh) && id < |nm|
    requires forall s :: 0 <= s < |sl| ==> sl[s] != id
    ensures Inv(sl, nm[id := w], wh)
  {
  }

  /** Extending the text array keeps the invariant. */
  lemma ExtendKeepsInv(sl: seq<int>, nm: seq<Word>, nm': seq<Word>, wh: map<Word, nat>)
    requires Inv(sl, nm, wh) && |nm| <= |nm'| && nm'[..|nm|] == nm
    ensures Inv(sl, nm', wh)
  {
    assert forall i :: 0 <= i < |nm| ==> nm'[i] == nm[i];
  }

  /** Storing `id` for a new word `w` at the first empty slot of its path keeps the invariant. */
  lemma PlaceKeepsInv(sl: seq<int>, nm: seq<Word>, wh: map<Word, nat>, w: Word, id: nat, h: nat, d: nat)
    requires Inv(sl, nm, wh) && w !in wh && |wh| + 1 < HashSize
    requires id < |nm| && nm[id] == w
    requires forall s :: 0 <= s < |sl| ==> sl[s] != id
    requires h < HashSize && sl[h] == -1
    requires d < HashSize && h == Probe(Hash(w), d)
    requires forall d' :: 0 <= d' < d ==> sl[Probe(Hash(w), d')] != -1
    ensures Inv(sl[h := id], nm, wh[w := h])
    ensures ContentsOf(sl[h := id], wh[w := h]) == ContentsOf(sl, wh)[w := id]
  {
    var sl', wh' := sl[h := id], wh[w := h];
    assert Dist(Hash(w), h) == d by {
      ProbeInjective(Hash(w), d, Dist(Hash(w), h));
    }
    assert SlotsStored(sl', nm, wh');
    assert StoredSlots(sl', nm, wh');
    assert PathsOccupied(sl', wh');
    forall w' | w' in wh
      ensures wh[w'] != h
    {
    }
  }

  /** No word occurs twice. */
  ghost predicate Distinct(ws: seq<Word>) {
    forall i, j :: 0 <= i < j < |ws| ==> ws[i] != ws[j]
  }

  /** The dictionary that numbering `ws` consecutively from `base` gives. */
  ghost function Numbered(ws: seq<Word>, base: nat): map<Word, int> {
    if ws == [] then map[]
    else Numbered(ws[..|ws| - 1], base)[ws[|ws| - 1] := base + |ws| - 1]
  }

  /**
   * Numbering distinct words gives each the id `base` plus its position,
   * and no other word an id.
   */
  lemma {:induction false} NumberedLookup(ws: seq<Word>, base: nat)
    requires Distinct(ws)
    ensures forall w :: w in Numbered(ws, base) <==> w in ws
    ensures forall k :: 0 <= k < |ws| ==> Numbered(ws, base)[ws[k]] == base + k
  {
    if ws != [] {
      var init := ws[..|ws| - 1];
      NumberedLookup(init, base);
      assert forall w :: w in ws <==> w in init || w == ws[|ws| - 1];
      forall k | 0 <= k < |ws| - 1
        ensures Numbered(ws, base)[ws[k]] == base + k
      {
        assert init[k] == ws[k] != ws[|ws| - 1];
      }
    }
  }

  /** Numbering `ws` stores at most one entry per word. */
  lemma {:induction false} NumberedCard(ws: seq<Word>, base: nat)
    ensures |Numbered(ws, base)| <= |ws|
  {
    if ws != [] {
      NumberedCard(ws[..|ws| - 1], base);
    }
  }

  /** Every slot is empty or holds an id below `bound`. */
  ghost predicate IdsBelow(sl: seq<int>, bound: int) {
    forall s :: 0 <= s < |sl| ==> sl[s] < bound
  }

  /** Storing the id `bound` keeps every slot below `bound + 1`. */
  lemma IdsBelowStep(sl: seq<int>, sl': seq<int>, h: nat, bound: int)
    requires IdsBelow(sl, bound) && h < |sl| && sl' == sl[h := bound]
    ensures IdsBelow(sl', bound + 1)
  {
  }

  /** Numbering one more word extends the dictionary by that word. */
  lemma NumberedStep(c: map<Word, int>, c0: map<Word, int>, ws: seq<Word>, base: nat, k: nat, w: Word, id: int)
    requires k < |ws| && c == c0 + Numbered(ws[..k], base) && w == ws[k] && id == base + k
    ensures c[w := id] == c0 + Numbered(ws[..k + 1], base)
  {
    assert ws[..k + 1][..k] == ws[..k];
  }

  /**
   * The state of the reading loop over slot values, besides the table
   * invariant: the dictionary is the one before the loop plus the first
   * `k` words numbered from `base`, and every stored id is below `base + k`.
   */
  ghost predicate NumberingOf(ct: map<Word, int>, sl: seq<int>, nameCount: nat,
                              ws: seq<Word>, base: nat, k: nat, c0: map<Word, int>) {
    && base + |ws| <= nameCount && k <= |ws|
    && Distinct(ws) && (forall j :: 0 <= j < |ws| ==> ws[j] !in c0)
    && |c0| + |ws| + 1 < HashSize
    && ct == c0 + Numbered(ws[..k], base)
    && IdsBelow(sl, base + k)
  }

  /** Before word `k` is added: it is new, there is room, and its id is unused. */
  lemma NumberingNext(ct: map<Word, int>, sl: seq<int>, nameCount: nat,
                      ws: seq<Word>, base: nat, k: nat, c0: map<Word, int>)
    requires NumberingOf(ct, sl, nameCount, ws, base, k, c0) && k < |ws|
    ensures ws[k] !in ct && |ct| + 1 < HashSize
    ensures base + k < nameCount && forall s :: 0 <= s < |sl| ==> sl[s] != base + k
  {
    assert ws[..k + 1][..k] == ws[..k];
    assert Distinct(ws[..k]);
    NumberedLookup(ws[..k], base);
    NumberedCard(ws[..k], base);
    assert ws[k] !in Numbered(ws[..k], base);
  }

  /** Adding word `k` with id `base + k` moves the reading loop on by one word. */
  lemma NumberingStep(ct: map<Word, int>, sl: seq<int>, w: Word, id: int, h: nat,
                      nameCount: nat, ws: seq<Word>, base: nat, k: nat, c0: map<Word, int>)
    requires NumberingOf(ct, sl, nameCount, ws, base, k, c0) && k < |ws| && h < |sl|
    requires w == ws[k] && id == base + k
    ensures NumberingOf(ct[w := id], sl[h := id], nameCount, ws, base, k + 1, c0)
  {
    IdsBelowStep(sl, sl[h := id], h, base + k);
    NumberedStep(ct, c0, ws, base, k, w, id);
  }

  /** When the loop has read every word, the reading loop's state is the promised one. */
  lemma NumberingDone(ct: map<Word, int>, sl: seq<int>, nameCount: nat,
                      ws: seq<Word>, base: nat, k: nat, c0: map<Word, int>)
    requires NumberingOf(ct, sl, nameCount, ws, base, k, c0) && k >= |ws|
    ensures ct == c0 + Numbered(ws, base) && IdsBelow(sl, base + |ws|)
  {
    assert ws[..k] == ws;
  }

  /**
   * An open-addressing table: `slots` of HashSize ids (-1 when empty),
   * word texts in `names`, `size` the next id `AddWordGrowing` hands out.
   * The ghost map `where` records the slot every stored word sits in.
   */
  class Table {
    var slots: array<int>
    var names: array<Word>
    var size: nat
    ghost var where: map<Word, nat>

    ghost predicate Valid()
      reads this, slots, names
    {
      slots.Length == HashSize && Inv(slots[..], names[..], where)
    }

    /** The dictionary the table represents: each stored word and its id. */
    ghost function Contents(): map<Word, int>
      reads this, slots
    {
      ContentsOf(slots[..], where)
    }

    /** Ids handed out by `AddWordGrowing` are exactly those below `size`. */
    ghost predicate Dense()
      reads this, slots
    {
      forall s :: 0 <= s < slots.Length && slots[s] != -1 ==> slots[s] < size
    }

    /** Every stored id is a valid index of the text array, so never -1. */
    lemma ContentsIds()
      requires Valid()
      ensures forall w :: w in Contents() ==> 0 <= Contents()[w] < names.Length
    {
    }

    /** In a dense table every stored id is below `size`. */
    lemma ContentsBelow()
      requires Valid() && Dense()
      ensures forall w :: w in Contents() ==> 0 <= Contents()[w] < size
    {
    }

    /** An empty table with room for `capacity` word texts. */
    constructor (capacity: nat)
      ensures Valid() && Contents() == map[] && Dense()
      ensures size == 0 && names.Length == capacity && IdsBelow(slots[..], 0)
      ensures fresh(slots) && fresh(names)
    {
      slots := new int[HashSize](_ => -1);
      names := new Word[capacity](_ => []);
      size := 0;
      where := map[];
    }

    /**
     * `SearchEntity` / `SearchRelation` / `SearchVocab`: probe from the
     * word's hash; an empty slot means the word is absent (-1), a slot
     * whose id names the word gives that id.
     */
    method Search(w: Word) returns (id: int)
      requires Valid()
      ensures w in Contents() ==> id == Contents()[w]
      ensures w !in Contents() ==> id == -1
    {
      var start := GetWordHash(w);
      var h := start;
      ghost var d: nat := 0;
      ghost var e := FreeSlot(slots[..], names[..], where);
      while true
        invariant h < HashSize && d <= Dist(start, e) && h == Probe(start, d)
        invariant forall d' :: 0 <= d' < d ==>
          slots[Probe(start, d')] != -1 && names[slots[Probe(start, d')]] != w
        decreases Dist(start, e) - d
      {
        if slots[h] == -1 {
          return -1;
        }
        if names[slots[h]] == w {
          return slots[h];
        }
        if d == Dist(start, e) {
          assert false;
        }
        ProbeStep(start, d);
        h := (h + 1) % HashSize;
        d := d + 1;
      }
    }

    /** The probe loop of an insertion: the first empty slot on `w`'s path. */
    method FindEmpty(w: Word) returns (h: nat, ghost d: nat)
      requires Valid()
      ensures h < HashSize && slots[h] == -1
      ensures d < HashSize && h == Probe(Hash(w), d)
      ensures forall d' :: 0 <= d' < d ==> slots[Probe(Hash(w), d')] != -1
    {
      var start := GetWordHash(w);
      h := start;
      d := 0;
      ghost var e := FreeSlot(slots[..], names[..], where);
      while slots[h] != -1
        invariant h < HashSize && d <= Dist(start, e) && h == Probe(start, d)
        invariant forall d' :: 0 <= d' < d ==> slots[Probe(start, d')] != -1
        decreases Dist(start, e) - d
      {
        if d == Dist(start, e) {
          assert false;
        }
        ProbeStep(start, d);
        h := (h + 1) % HashSize;
        d := d + 1;
      }
    }

    /** Stores `id`, whose text is `w`, at the first empty slot of `w`'s probe path. */
    method Store(w: Word, id: int) returns (ghost h: nat)
      requires Valid() && w !in where && |where| + 1 < HashSize
      requires 0 <= id < names.Length && names[id] == w
      requires forall s :: 0 <= s < HashSize ==> slots[s] != id
      modifies this, slots
      ensures Valid() && Contents() == old(Contents())[w := id]
      ensures h < HashSize && old(slots[h]) == -1 && slots[..] == old(slots[..])[h := id]
      ensures slots == old(slots) && names == old(names) && size == old(size)
    {
      var slot, d := FindEmpty(w);
      PlaceKeepsInv(slots[..], names[..], where, w, id, slot, d);
      slots[slot] := id;
      where := where[w := slot];
      h := slot;
    }

    /**
     * `AddWordToEntity` / `AddWordToVocab`: record the text of `id`, then
     * store `id` in the first empty slot of the word's probe path. Exactly
     * that one empty slot changes, and the dictionary gains `w -> id`.
     */
    method AddWord(w: Word, id: int) returns (r: int, ghost h: nat)
      requires Valid() && w !in Contents() && |Contents()| + 1 < HashSize
      requires 0 <= id < names.Length
      requires forall s :: 0 <= s < HashSize ==> slots[s] != id
      modifies this, slots, names
      ensures Valid() && r == id
      ensures Contents() == old(Contents())[w := id]
      ensures h < HashSize && old(slots[h]) == -1 && slots[..] == old(slots[..])[h := id]
      ensures slots == old(slots) && names == old(names) && names[..] == old(names[..])[id := w]
      ensures size == old(size)
    {
      assert ContentsOf(slots[..], where).Keys == where.Keys;
      NameKeepsInv(slots[..], names[..], where, id, w);
      names[id] := w;
      h := Store(w, id);
      r := id;
    }
  
    /**
     * The reading loop of the vector files: word `k` of `ws` is added with
     * id `base + k`. Every id already stored is below `base`.
     */
    method AddAll(ws: seq<Word>, base: nat)
      requires Valid() && base + |ws| <= names.Length
      requires IdsBelow(slots[..], base)
      requires Distinct(ws) && forall k :: 0 <= k < |ws| ==> ws[k] !in Contents()
      requires |Contents()| + |ws| + 1 < HashSize
      modifies this, slots, names
      ensures Valid() && Contents() == old(Contents()) + Numbered(ws, base)
      ensures IdsBelow(slots[..], base + |ws|)
      ensures slots == old(slots) && names == old(names) && size == old(size)
    {
      ghost var c0 := Contents();
      var k := 0;
      while k < |ws|
        invariant Valid() && NumberingOf(Contents(), slots[..], names.Length, ws, base, k, c0)
        invariant names == old(names) && slots == old(slots) && size == old(size)
      {
        AddNext(ws, base, k, c0);
        k := k + 1;
      }
      NumberingDone(Contents(), slots[..], names.Length, ws, base, k, c0);
    }

    /** One turn of the reading loop: word `k` gets id `base + k`. */
    method AddNext(ws: seq<Word>, base: nat, k: nat, ghost c0: map<Word, int>)
      requires Valid() && NumberingOf(Contents(), slots[..], names.Length, ws, base, k, c0) && k < |ws|
      modifies this, slots, names
      ensures Valid() && NumberingOf(Contents(), slots[..], names.Length, ws, base, k + 1, c0)
      ensures names == old(names) && slots == old(slots) && size == old(size)
    {
      ghost var ct, sl := Contents(), slots[..];
      NumberingNext(ct, sl, names.Length, ws, base, k, c0);
      var w := ws[k];
      var id, h := AddWord(w, base + k);
      NumberingStep(ct, sl, w, id, h, names.Length, ws, base, k, c0);
    }

    /** `realloc` of the text array to 1000 more entries, keeping the existing texts. */
    method Grow()
      requires Valid()
      modifies this
      ensures Valid() && fresh(names) && names.Length == old(names.Length) + 1000
      ensures forall i :: 0 <= i < old(names.Length) ==> names[i] == old(names[i])
      ensures slots == old(slots) && size == old(size) && where == old(where)
    {
      var bigger := new Word[names.Length + 1000](_ => []);
      for i := 0 to names.Length
        modifies bigger
        invariant forall j :: 0 <= j < i ==> bigger[j] == names[j]
      {
        bigger[i] := names[i];
      }
      ExtendKeepsInv(slots[..], names[..], bigger[..], where);
      names := bigger;
    }

    /**
     * The first half of `AddWordToRelation`: record the text of id `size`,
     * count it, and grow the text array by 1000 entries once fewer than
     * three spare entries would remain.
     */
    method AppendName(w: Word)
      requires Valid() && Dense() && size + 2 < names.Length
      modifies this, names
      ensures Valid() && slots == old(slots) && where == old(where)
      ensures names == old(names) || fresh(names)
      ensures size == old(size) + 1 && size + 2 < names.Length
      ensures names.Length ==
        if old(size) + 3 >= old(names.Length) then old(names.Length) + 1000 else old(names.Length)
      ensures forall i :: 0 <= i < old(size) ==> names[i] == old(names[i])
      ensures names[old(size)] == w
    {
      NameKeepsInv(slots[..], names[..], where, size, w);
      names[size] := w;
      size := size + 1;
      if size + 2 >= names.Length {
        Grow();
      }
    }

    /**
     * `AddWordToRelation`: the new word gets the next id `size`, the text
     * array grows as `AppendName` says, and the id is stored at the first
     * empty slot of the word's probe path. Returns the old `size`.
     */
    method AddWordGrowing(w: Word) returns (id: int)
      requires Valid() && Dense() && w !in Contents() && |Contents()| + 1 < HashSize
      requires size + 2 < names.Length
      modifies this, slots, names
      ensures Valid() && Dense() && slots == old(slots)
      ensures names == old(names) || fresh(names)
      ensures id == old(size) && size == old(size) + 1 && size + 2 < names.Length
      ensures names.Length ==
        if old(size) + 3 >= old(names.Length) then old(names.Length) + 1000 else old(names.Length)
      ensures forall i :: 0 <= i < old(size) ==> names[i] == old(names[i])
      ensures names[old(size)] == w
      ensures Contents() == old(Contents())[w := id]
    {
      assert ContentsOf(slots[..], where).Keys == where.Keys;
      ghost var before := slots[..];
      AppendName(w);
      assert slots[..] == before;
      ghost var h := Store(w, size - 1);
      id := size - 1;
    }
  }
}
