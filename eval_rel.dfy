/**
 * The relation-aware link-prediction evaluator: one vocabulary holding the
 * entity words (ids 0 .. entity_size-1) followed by the relation words
 * (ids entity_size .. vocab_size-1), the known (head, tail) pairs of each
 * relation packed into 64-bit keys, and per test triple a ranking of
 * every entity as the missing tail and as the missing head, with the
 * top-k insertion written out inline over a plain slot array.
 */
module EvalRel {
  import opened Wrappers
  import opened Vocab
  import opened TopK
  import opened Ranking

  /** 2^32: `hash` shifts the head left by 32 bits. */
  const Shift: int := 0x1_0000_0000

  /** 2^63: the first value a signed 64-bit `long long` cannot hold. */
  const Int64Bound: int := 0x8000_0000_0000_0000

  /** `hash(h, t)`: the head in the high 32 bits, plus the tail. */
  function Key(h: int, t: int): int {
    h * Shift + t
  }

  /** The head and tail a key packs, read back by Euclidean division. */
  function Unkey(k: int): (int, int) {
    (k / Shift, k % Shift)
  }

  /** Distinct pairs get distinct keys as long as the tail fits in 32 bits. */
  lemma KeyInjective(h1: int, t1: int, h2: int, t2: int)
    requires 0 <= t1 < Shift && 0 <= t2 < Shift
    ensures Key(h1, t1) == Key(h2, t2) <==> h1 == h2 && t1 == t2
  {
    if h1 != h2 {
      var lo, hi := if h1 < h2 then h1 else h2, if h1 < h2 then h2 else h1;
      assert hi * Shift - lo * Shift == (hi - lo) * Shift;
      MulAtLeast(hi - lo, Shift);
    }
  }

  lemma MulAtLeast(a: int, b: int)
    requires a >= 1 && b >= 0
    ensures a * b >= b
  {
  }

  /** Unpacking a key gives back its head and tail. */
  lemma UnkeyKey(h: int, t: int)
    requires 0 <= t < Shift
    ensures Unkey(Key(h, t)) == (h, t)
  {
    var k := Key(h, t);
    assert k == (k / Shift) * Shift + k % Shift;
    KeyInjective(k / Shift, k % Shift, h, t);
  }

  /**
   * For entity ids that fit a signed 32-bit `int` the packed key is a
   * non-negative value that fits a signed 64-bit `long long`, so the shift
   * and add in `hash` do not overflow.
   */
  lemma KeyFits(h: int, t: int)
    requires 0 <= h < Shift / 2 && 0 <= t < Shift / 2
    ensures 0 <= Key(h, t) < Int64Bound
  {
    MulBelow(h, Shift / 2 - 1, Shift);
  }

  lemma MulBelow(a: int, b: int, c: int)
    requires 0 <= a <= b && c >= 0
    ensures 0 <= a * c <= b * c
  {
  }

  /**
   * The id layout of the vocabulary: every entity and relation word is in
   * it and nothing else; entity `k` has id `k`, relation `k` has id
   * `entity_size + k`.
   */
  ghost predicate Layout(vocab: map<Word, int>, entities: seq<Word>, relations: seq<Word>) {
    && (forall w :: w in vocab <==> w in entities || w in relations)
    && (forall k :: 0 <= k < |entities| ==> vocab[entities[k]] == k)
    && (forall k :: 0 <= k < |relations| ==> vocab[relations[k]] == |entities| + k)
  }

  /** Numbering the entities from 0 and the relations after them gives the layout. */
  lemma LayoutOfNumbering(entities: seq<Word>, relations: seq<Word>)
    requires Distinct(entities + relations)
    ensures Layout(Numbered(entities, 0) + Numbered(relations, |entities|), entities, relations)
  {
    var all := entities + relations;
    DistinctParts(entities, relations);
    NumberedLookup(entities, 0);
    NumberedLookup(relations, |entities|);
  }

  lemma DistinctParts(xs: seq<Word>, ys: seq<Word>)
    requires Distinct(xs + ys)
    ensures Distinct(xs) && Distinct(ys)
    ensures forall i, j :: 0 <= i < |xs| && 0 <= j < |ys| ==> xs[i] != ys[j]
  {
    var all := xs + ys;
    forall i, j | 0 <= i < j < |xs|
      ensures xs[i] != xs[j]
    {
      assert all[i] == xs[i] && all[j] == xs[j];
    }
    forall i, j | 0 <= i < |xs| && 0 <= j < |ys|
      ensures xs[i] != ys[j]
    {
      assert all[i] == xs[i] && all[|xs| + j] == ys[j];
    }
    forall i, j | 0 <= i < j < |ys|
      ensures ys[i] != ys[j]
    {
      assert all[|xs| + i] == ys[i] && all[|xs| + j] == ys[j];
    }
  }

  /**
   * Entity ids are exactly the ids below entity_size and relation ids the
   * ids from entity_size up to vocab_size; so `r - entity_size` is a valid
   * relation index exactly when `r` is a relation's id.
   */
  lemma LayoutRanges(vocab: map<Word, int>, entities: seq<Word>, relations: seq<Word>)
    requires Layout(vocab, entities, relations) && Distinct(entities + relations)
    ensures forall w :: w in vocab ==> 0 <= vocab[w] < |entities| + |relations|
    ensures forall w :: w in vocab ==> (vocab[w] < |entities| <==> w in entities)
  {
    DistinctParts(entities, relations);
    forall w | w in vocab
      ensures 0 <= vocab[w] < |entities| + |relations|
      ensures vocab[w] < |entities| <==> w in entities
    {
      if w in entities {
        var k :| 0 <= k < |entities| && entities[k] == w;
      } else {
        var k :| 0 <= k < |relations| && relations[k] == w;
      }
    }
  }

  /** After the entities, no relation word is in the table and there is room for all of them. */
  lemma RelationsFresh(entities: seq<Word>, relations: seq<Word>)
    requires Distinct(entities + relations)
    ensures forall k :: 0 <= k < |relations| ==> relations[k] !in Numbered(entities, 0)
    ensures |Numbered(entities, 0)| <= |entities|
  {
    DistinctParts(entities, relations);
    NumberedLookup(entities, 0);
    NumberedCard(entities, 0);
  }

  lemma EmptyUnion(m: map<Word, int>)
    ensures map[] + m == m
  {
  }

  /**
   * The vocabulary part of `ReadVector`: a table sized for every word, the
   * entity words added with ids 0, 1, ... in file order, then the relation
   * words with the ids after them.
   */
  method ReadVocab(entities: seq<Word>, relations: seq<Word>) returns (vocab: Table)
    requires Distinct(entities + relations)
    requires |entities| + |relations| + 1 < HashSize
    ensures vocab.Valid() && Layout(vocab.Contents(), entities, relations)
  {
    DistinctParts(entities, relations);
    vocab := new Table(|entities| + |relations|);
    vocab.AddAll(entities, 0);
    EmptyUnion(Numbered(entities, 0));
    RelationsFresh(entities, relations);
    vocab.AddAll(relations, |entities|);
    LayoutOfNumbering(entities, relations);
  }

  /** One line of a triple file: head, tail and relation words, in that order. */
  datatype Line = Line(sh: Word, st: Word, sr: Word)

  /** The triple a line names, when all three of its words are in the vocabulary. */
  function Resolve(vocab: map<Word, int>, l: Line): Option<Triple> {
    if l.sh in vocab && l.sr in vocab && l.st in vocab
    then Some(Triple(vocab[l.sh], vocab[l.sr], vocab[l.st]))
    else None
  }

  /** The triples of the lines whose words are all known, in file order. */
  function Known(vocab: map<Word, int>, lines: seq<Line>): (data: seq<Triple>)
    ensures |data| <= |lines|
  {
    if lines == [] then []
    else
      var o := Resolve(vocab, lines[|lines| - 1]);
      Known(vocab, lines[..|lines| - 1]) + (if o.Some? then [o.value] else [])
  }

  /**
   * Reading skips a line exactly when one of its words is unknown: every
   * read triple comes from a line with known words, and each such line
   * gives one.
   */
  lemma {:induction false} KnownMembers(vocab: map<Word, int>, lines: seq<Line>)
    ensures forall x :: x in Known(vocab, lines) <==> exists j :: 0 <= j < |lines| && Resolve(vocab, lines[j]) == Some(x)
  {
    if lines != [] {
      var init := lines[..|lines| - 1];
      KnownMembers(vocab, init);
      forall x
        ensures x in Known(vocab, lines) <==> exists j :: 0 <= j < |lines| && Resolve(vocab, lines[j]) == Some(x)
      {
        if exists j :: 0 <= j < |lines| && Resolve(vocab, lines[j]) == Some(x) {
          var j :| 0 <= j < |lines| && Resolve(vocab, lines[j]) == Some(x);
          if j < |init| {
            assert init[j] == lines[j];
          }
        }
        if x in Known(vocab, init) {
          var j :| 0 <= j < |init| && Resolve(vocab, init[j]) == Some(x);
          assert lines[j] == init[j];
        }
      }
    }
  }

  lemma KnownSnoc(vocab: map<Word, int>, lines: seq<Line>, k: nat)
    requires k < |lines|
    ensures Known(vocab, lines[..k + 1]) ==
      Known(vocab, lines[..k]) + (if Resolve(vocab, lines[k]).Some? then [Resolve(vocab, lines[k]).value] else [])
  {
    assert lines[..k + 1][..k] == lines[..k];
  }

  /** Every read triple has entity and relation ids from the vocabulary. */
  lemma {:induction false} KnownIds(vocab: map<Word, int>, lines: seq<Line>, bound: int)
    requires forall w :: w in vocab ==> 0 <= vocab[w] < bound
    ensures forall j :: 0 <= j < |Known(vocab, lines)| ==>
      var x := Known(vocab, lines)[j]; 0 <= x.h < bound && 0 <= x.r < bound && 0 <= x.t < bound
  {
    if lines != [] {
      KnownIds(vocab, lines[..|lines| - 1], bound);
    }
  }

  /**
   * The known pairs after inserting triples `data`: entry `q` holds the
   * keys of the (head, tail) pairs of relation `entity_size + q`.
   */
  function AppearOf(data: seq<Triple>, entitySize: int, relationSize: nat): (a: seq<set<int>>)
    ensures |a| == relationSize
  {
    if data == [] then seq(relationSize, _ => {})
    else
      var a := AppearOf(data[..|data| - 1], entitySize, relationSize);
      var x := data[|data| - 1];
      if entitySize <= x.r < entitySize + relationSize
      then a[x.r - entitySize := a[x.r - entitySize] + {Key(x.h, x.t)}]
      else a
  }

  /** A key is known for a relation exactly when some inserted triple of that relation packs to it. */
  lemma {:induction false} AppearMembers(data: seq<Triple>, entitySize: int, relationSize: nat, q: nat, k: int)
    requires q < relationSize
    ensures k in AppearOf(data, entitySize, relationSize)[q] <==>
      exists j :: 0 <= j < |data| && data[j].r == entitySize + q && Key(data[j].h, data[j].t) == k
  {
    if data != [] {
      var init := data[..|data| - 1];
      AppearMembers(init, entitySize, relationSize, q, k);
      if exists j :: 0 <= j < |data| && data[j].r == entitySize + q && Key(data[j].h, data[j].t) == k {
        var j :| 0 <= j < |data| && data[j].r == entitySize + q && Key(data[j].h, data[j].t) == k;
        if j < |init| {
          assert init[j] == data[j];
        }
      }
      if exists j :: 0 <= j < |init| && init[j].r == entitySize + q && Key(init[j].h, init[j].t) == k {
        var j :| 0 <= j < |init| && init[j].r == entitySize + q && Key(init[j].h, init[j].t) == k;
        assert data[j] == init[j];
      }
    }
  }

  /** `check(h, t, r)`: how many times the pair (h, t) is known for relation `r`. */
  function Check(appear: seq<set<int>>, entitySize: int, h: int, t: int, r: int): nat
    requires entitySize <= r < entitySize + |appear|
  {
    if Key(h, t) in appear[r - entitySize] then 1 else 0
  }

  /**
   * With tails below 2^32, `check` on the sets built from `data` is exact
   * triple membership: it answers 1 exactly for the triples of `data`.
   */
  lemma CheckExact(data: seq<Triple>, entitySize: int, relationSize: nat, h: int, t: int, r: int)
    requires entitySize <= r < entitySize + relationSize
    requires 0 <= t < Shift && forall j :: 0 <= j < |data| ==> 0 <= data[j].t < Shift
    ensures Check(AppearOf(data, entitySize, relationSize), entitySize, h, t, r) == 1 <==> Triple(h, r, t) in data
  {
    var q := r - entitySize;
    AppearMembers(data, entitySize, relationSize, q, Key(h, t));
    if Triple(h, r, t) in data {
      var j :| 0 <= j < |data| && data[j] == Triple(h, r, t);
    }
    if exists j :: 0 <= j < |data| && data[j].r == entitySize + q && Key(data[j].h, data[j].t) == Key(h, t) {
      var j :| 0 <= j < |data| && data[j].r == entitySize + q && Key(data[j].h, data[j].t) == Key(h, t);
      KeyInjective(data[j].h, data[j].t, h, t);
      assert data[j] == Triple(h, r, t);
    }
  }

  /** `SearchVocab` on the head, relation and tail words of a line. */
  method LookUp(vocab: Table, l: Line) returns (o: Option<Triple>)
    requires vocab.Valid()
    ensures o == Resolve(vocab.Contents(), l)
  {
    vocab.ContentsIds();
    var h := vocab.Search(l.sh);
    var r := vocab.Search(l.sr);
    var t := vocab.Search(l.st);
    if h == -1 || r == -1 || t == -1 {
      return None;
    }
    return Some(Triple(h, r, t));
  }

  /**
   * A line whose relation word is an entity word: `appear[r - entity_size]`
   * would index before the array.
   */
  datatype ReadError = RelationIsEntity(line: Line)

  /** Every read triple's relation id is a relation's, so its `appear` index is valid. */
  predicate RelationsOk(data: seq<Triple>, entitySize: int) {
    forall j :: 0 <= j < |data| ==> data[j].r >= entitySize
  }

  /** What one file yields: the known pairs after it, its triples and their count. */
  datatype Batch = Batch(appear: seq<set<int>>, read: seq<Triple>, count: nat)

  /** The reading loop after its first `k` lines. */
  ghost predicate Reading(vocab: map<Word, int>, entitySize: nat, relationSize: nat, lines: seq<Line>,
                          before: seq<Triple>, k: nat, appear: seq<set<int>>, read: seq<Triple>)
  {
    && k <= |lines|
    && read == Known(vocab, lines[..k]) && RelationsOk(read, entitySize)
    && appear == AppearOf(before + read, entitySize, relationSize)
  }

  /**
   * One triple file of `ReadTriple`: each line with three known words is
   * counted, its pair inserted into the known pairs of its relation, and
   * its triple kept; a line with an unknown word is skipped. A relation
   * word that names an entity is an error.
   */
  method ReadLines(vocab: Table, entitySize: nat, relationSize: nat, lines: seq<Line>,
                   appear: seq<set<int>>, ghost before: seq<Triple>)
    returns (res: Result<Batch, ReadError>)
    requires vocab.Valid()
    requires forall w :: w in vocab.Contents() ==> 0 <= vocab.Contents()[w] < entitySize + relationSize
    requires appear == AppearOf(before, entitySize, relationSize)
    ensures res.Failure? <==> !RelationsOk(Known(vocab.Contents(), lines), entitySize)
    ensures res.Success? ==>
      && res.value.read == Known(vocab.Contents(), lines) && res.value.count == |res.value.read|
      && res.value.appear == AppearOf(before + res.value.read, entitySize, relationSize)
  {
    ghost var V := vocab.Contents();
    var sets := appear;
    var read: seq<Triple> := [];
    var count := 0;
    var k := 0;
    assert before + read == before;
    while k < |lines|
      invariant Reading(V, entitySize, relationSize, lines, before, k, sets, read) && count == |read|
    {
      var o := LookUp(vocab, lines[k]);
      KnownSnoc(V, lines, k);
      if o.Some? {
        var x := o.value;
        if x.r < entitySize {
          BadRelation(V, lines, k, entitySize);
          return Failure(RelationIsEntity(lines[k]));
        }
        sets := Insert(sets, x, entitySize, relationSize, before, read);
        read := read + [x];
        count := count + 1;
      }
      k := k + 1;
    }
    assert lines[..k] == lines;
    return Success(Batch(sets, read, count));
  }

  /** `appear[r - entity_size].insert(hash(h, t))` for a triple of a relation. */
  function Insert(appear: seq<set<int>>, x: Triple, entitySize: nat, relationSize: nat,
                  ghost before: seq<Triple>, ghost read: seq<Triple>): (a: seq<set<int>>)
    requires entitySize <= x.r < entitySize + relationSize
    requires appear == AppearOf(before + read, entitySize, relationSize)
    ensures a == AppearOf(before + (read + [x]), entitySize, relationSize)
  {
    assert (before + (read + [x]))[..|before + read|] == before + read;
    appear[x.r - entitySize := appear[x.r - entitySize] + {Key(x.h, x.t)}]
  }

  /** A known line whose relation id is an entity's makes the whole file's triples fail the check. */
  lemma BadRelation(vocab: map<Word, int>, lines: seq<Line>, k: nat, entitySize: int)
    requires k < |lines| && Resolve(vocab, lines[k]).Some? && Resolve(vocab, lines[k]).value.r < entitySize
    ensures !RelationsOk(Known(vocab, lines), entitySize)
  {
    var x := Resolve(vocab, lines[k]).value;
    KnownMembers(vocab, lines);
    var j :| 0 <= j < |Known(vocab, lines)| && Known(vocab, lines)[j] == x;
  }

  /** The known pairs, triples and sizes `ReadTriple` leaves behind. */
  datatype Triples = Triples(appear: seq<set<int>>, data: seq<Triple>, trainSize: nat, testSize: nat)

  /**
   * `ReadTriple`: the training file only adds known pairs; the test file
   * adds known pairs and keeps its triples as the evaluation data, so the
   * number of test triples read is the size of the data.
   */
  method ReadTriple(vocab: Table, entitySize: nat, relationSize: nat, train: seq<Line>, test: seq<Line>)
    returns (res: Result<Triples, ReadError>)
    requires vocab.Valid()
    requires forall w :: w in vocab.Contents() ==> 0 <= vocab.Contents()[w] < entitySize + relationSize
    ensures res.Failure? <==>
      !RelationsOk(Known(vocab.Contents(), train), entitySize) || !RelationsOk(Known(vocab.Contents(), test), entitySize)
    ensures res.Success? ==>
      && res.value.data == Known(vocab.Contents(), test) && res.value.testSize == |res.value.data|
      && res.value.trainSize == |Known(vocab.Contents(), train)|
      && res.value.appear == AppearOf(Known(vocab.Contents(), train) + res.value.data, entitySize, relationSize)
  {
    var appear := seq(relationSize, _ => {});
    var fromTrain := ReadLines(vocab, entitySize, relationSize, train, appear, []);
    if fromTrain.Failure? {
      return Failure(fromTrain.error);
    }
    assert [] + fromTrain.value.read == fromTrain.value.read;
    var fromTest := ReadLines(vocab, entitySize, relationSize, test, fromTrain.value.appear, fromTrain.value.read);
    if fromTest.Failure? {
      return Failure(fromTest.error);
    }
    return Success(Triples(fromTest.value.appear, fromTest.value.read, fromTrain.value.count, fromTest.value.count));
  }

  /** The cleared slot of `Evaluate`'s inline list: id 0, value 0. */
  const Zero := Pair(0, 0.0)

  /**
   * What `Evaluate` reads besides the test triples: the entity count,
   * k_max, the filter switch, the known pairs per relation and the score
   * `score(h, t, r)` of a candidate triple.
   */
  datatype Setup = Setup(entitySize: nat, kMax: nat, filter: bool, appear: seq<set<int>>,
                         score: (int, int, int) -> real)

  /** A test triple `Evaluate` can rank: a relation id with a known-pair set, entity ids. */
  predicate Fits(s: Setup, x: Triple) {
    s.entitySize <= x.r < s.entitySize + |s.appear| && x.h >= 0 && x.t >= 0
  }

  /**
   * The filter of a query: with `filter` on, a candidate whose pair is
   * known for the relation is skipped unless it is the true entity.
   */
  function Keep(s: Setup, x: Triple, side: Side): nat -> bool
    requires Fits(s, x)
  {
    if side == Tail then i => !(s.filter && Check(s.appear, s.entitySize, x.h, i, x.r) == 1 && i != x.t)
    else i => !(s.filter && Check(s.appear, s.entitySize, i, x.t, x.r) == 1 && i != x.h)
  }

  /** The score of each candidate entity in the predicted position. */
  function Scorer(s: Setup, x: Triple, side: Side): nat -> real {
    if side == Tail then i => s.score(x.h, i, x.r) else i => s.score(i, x.t, x.r)
  }

  /** The candidates of a query, in entity order. */
  function QueryCands(s: Setup, x: Triple, side: Side): seq<Pair>
    requires Fits(s, x)
  {
    Candidates(s.entitySize, Keep(s, x, side), Scorer(s, x, side))
  }

  /** `crank` of a query: one plus the kept candidates scoring above the true triple. */
  function QueryRank(s: Setup, x: Triple, side: Side): nat
    requires Fits(s, x)
  {
    RankOf(s.entitySize, Keep(s, x, side), Scorer(s, x, side), Truth(x, side))
  }

  /** The hits of a query counted over the filled slots: the true entity among the kept entries. */
  function QueryHits(s: Setup, x: Triple, side: Side): nat
    requires Fits(s, x)
  {
    HitsOf(s.entitySize, Keep(s, x, side), Scorer(s, x, side), s.kMax, Truth(x, side))
  }

  /**
   * The tail hits as the code counts them, over all k_max slots: the kept
   * entries carrying the tail, plus every still-cleared slot when the tail
   * is entity 0, since a cleared slot carries id 0.
   */
  function TailHitsAsWritten(s: Setup, x: Triple): nat
    requires Fits(s, x)
  {
    var c := QueryCands(s, x, Tail);
    QueryHits(s, x, Tail) + (if x.t == 0 && |c| < s.kMax then s.kMax - |c| else 0)
  }

  /**
   * With one entity, k_max = 2 and entity 0 as the true tail, the list
   * holds entity 0 once and one cleared slot with id 0: the code counts
   * two hits for one query, where one is meant.
   */
  lemma TailHitsAsWrittenCountsTwice()
    ensures var s := Setup(1, 2, false, [{}], (h, t, r) => 0.0);
      var x := Triple(0, 1, 0);
      && Fits(s, x)
      && TailHitsAsWritten(s, x) == 2
      && QueryHits(s, x, Tail) == 1
  {
    var s := Setup(1, 2, false, [{}], (h, t, r) => 0.0);
    var x := Triple(0, 1, 0);
    var keep := Keep(s, x, Tail);
    var f := Scorer(s, x, Tail);
    var p := Pair(0, 0.0);
    assert Candidates(0, keep, f) == [];
    assert Candidates(1, keep, f) == [p];
    assert SortDesc([p]) == [p] by {
      assert [p][..0] == [];
    }
    assert Kept([p], 2) == [p];
    assert CountId([p], 0) == 1 by {
      assert [p][..0] == [];
    }
  }

  /**
   * The inline top-k pass of `Evaluate` for one query: clear every slot
   * to (0, 0); for every entity the filter keeps, count it if it scores
   * strictly above `sc`, write it after the kept entries and bubble it
   * into place.
   */
  method RankInline(list: array<Pair>, n: nat, keep: nat -> bool, f: nat -> real, sc: real)
    returns (crank: nat, listSize: nat)
    requires list.Length >= 1
    modifies list
    ensures crank == Rank(Candidates(n, keep, f), sc)
    ensures Holds(list[..], Candidates(n, keep, f), list.Length - 1, listSize, Zero)
  {
    listSize := 0;
    ClearSlots(list, Zero);
    HoldsCleared(list[..], list.Length - 1, Zero);
    crank := 1;
    var i := 0;
    while i < n
      invariant i <= n && InlineLoop(list, Candidates(i, keep, f), sc, crank, listSize)
    {
      crank, listSize := InlineNext(list, i, keep, f, sc, crank, listSize);
      i := i + 1;
    }
  }

  /** One entity of the ranking loop: skipped by the filter, or counted and bubbled into the list. */
  method InlineNext(list: array<Pair>, i: nat, keep: nat -> bool, f: nat -> real, sc: real,
                    crank: nat, listSize: nat) returns (crank': nat, listSize': nat)
    requires InlineLoop(list, Candidates(i, keep, f), sc, crank, listSize)
    modifies list
    ensures InlineLoop(list, Candidates(i + 1, keep, f), sc, crank', listSize')
  {
    ghost var c := Candidates(i, keep, f);
    if keep(i) {
      assert Candidates(i + 1, keep, f) == c + [Pair(i, f(i))];
      crank', listSize' := InlineAdd(list, c, sc, crank, listSize, Pair(i, f(i)));
    } else {
      assert Candidates(i + 1, keep, f) == c + [] == c;
      crank', listSize' := crank, listSize;
    }
  }

  /** The state of the ranking loop once candidates `c` have been seen. */
  ghost predicate InlineLoop(list: array<Pair>, c: seq<Pair>, sc: real, crank: nat, listSize: nat)
    reads list
  {
    && list.Length >= 1
    && Holds(list[..], c, list.Length - 1, listSize, Zero)
    && crank == 1 + CountAbove(c, sc)
  }

  /** A kept entity: counted if it scores above `sc`, then bubbled into the list. */
  method InlineAdd(list: array<Pair>, ghost c: seq<Pair>, sc: real, crank: nat, listSize: nat, pr: Pair)
    returns (crank': nat, listSize': nat)
    requires InlineLoop(list, c, sc, crank, listSize)
    modifies list
    ensures InlineLoop(list, c + [pr], sc, crank', listSize')
  {
    crank' := crank;
    if pr.vl > sc {
      crank' := crank' + 1;
    }
    ghost var before := list[..];
    listSize' := BubbleInsert(list, listSize, list.Length - 1, pr);
    InlineStep(before, list[..], c, sc, crank, listSize, pr);
  }

  /** The list and the count after one more candidate, stated over the slot values. */
  lemma InlineStep(before: seq<Pair>, after: seq<Pair>, c: seq<Pair>, sc: real, crank: nat, size: nat, pr: Pair)
    requires |before| >= 1
    requires Holds(before, c, |before| - 1, size, Zero)
    requires crank == 1 + CountAbove(c, sc)
    requires |after| == |before| && after[size + 1..] == before[size + 1..]
    requires after[..size + 1] == InsertDesc(before[..size], pr)
    ensures Holds(after, c + [pr], |before| - 1, Min(size + 1, |before| - 1), Zero)
    ensures (if pr.vl > sc then crank + 1 else crank) == 1 + CountAbove(c + [pr], sc)
  {
    CountsAppend(c, [pr], sc, 0);
    HoldsAdd(before, after, c, |before| - 1, size, Zero, pr);
  }

  /**
   * The tail query exactly as written: rank, then count hits over all
   * k_max slots.
   */
  method TailQueryAsWritten(s: Setup, x: Triple, list: array<Pair>) returns (crank: nat, hits: nat)
    requires Fits(s, x) && list.Length == s.kMax + 1
    modifies list
    ensures crank == QueryRank(s, x, Tail) && hits == TailHitsAsWritten(s, x)
  {
    var sc := s.score(x.h, x.t, x.r);
    var listSize;
    crank, listSize := RankInline(list, s.entitySize, Keep(s, x, Tail), Scorer(s, x, Tail), sc);
    hits := ScanHits(list, s.kMax, x.t);
    HoldsScan(list[..], QueryCands(s, x, Tail), s.kMax, listSize, Zero, x.t);
    assert list[..][..s.kMax] == list[..s.kMax];
  }

  /**
   * One query counted over the filled slots `[0, list_size)`, as the head
   * query is written and the tail query is intended.
   */
  method Query(s: Setup, x: Triple, side: Side, list: array<Pair>) returns (crank: nat, hits: nat)
    requires Fits(s, x) && list.Length == s.kMax + 1
    modifies list
    ensures crank == QueryRank(s, x, side) && hits == QueryHits(s, x, side)
  {
    var sc := s.score(x.h, x.t, x.r);
    var listSize;
    crank, listSize := RankInline(list, s.entitySize, Keep(s, x, side), Scorer(s, x, side), sc);
    hits := ScanHits(list, listSize, Truth(x, side));
    HoldsKept(list[..], QueryCands(s, x, side), s.kMax, listSize, Zero);
    assert list[..][..listSize] == list[..listSize];
  }

  /** The ranks of the two queries of a test triple: tail, then head. */
  function TripleRank(s: Setup, x: Triple): nat
    requires Fits(s, x)
  {
    QueryRank(s, x, Tail) + QueryRank(s, x, Head)
  }

  /** The hits of the two queries of a test triple: at most one each. */
  function TripleHits(s: Setup, x: Triple): (hits: nat)
    requires Fits(s, x)
    ensures hits <= 2
  {
    QueryFacts(s.entitySize, Keep(s, x, Tail), Scorer(s, x, Tail), s.kMax, x.t);
    QueryFacts(s.entitySize, Keep(s, x, Head), Scorer(s, x, Head), s.kMax, x.h);
    QueryHits(s, x, Tail) + QueryHits(s, x, Head)
  }

  /**
   * The hits of the two queries of a test triple as the code counts them:
   * the tail over all k_max slots, the head over the filled slots.
   */
  function TripleHitsAsWritten(s: Setup, x: Triple): nat
    requires Fits(s, x)
  {
    TailHitsAsWritten(s, x) + QueryHits(s, x, Head)
  }

  /**
   * The code's count is never below the intended one, and the two agree
   * exactly when the true tail is not entity 0 or the kept candidates
   * fill all k_max slots.
   */
  lemma AsWrittenAgrees(s: Setup, x: Triple)
    requires Fits(s, x)
    ensures TripleHitsAsWritten(s, x) >= TripleHits(s, x)
    ensures TripleHitsAsWritten(s, x) == TripleHits(s, x) <==> x.t != 0 || |QueryCands(s, x, Tail)| >= s.kMax
  {
  }

  /**
   * On the input of `TailHitsAsWrittenCountsTwice` the code counts three
   * hits for the two queries of one test triple, so a thread's phit
   * exceeds its qhit.
   */
  lemma AsWrittenHitsExceedQueries()
    ensures var s := Setup(1, 2, false, [{}], (h, t, r) => 0.0);
      var x := Triple(0, 1, 0);
      && Fits(s, x)
      && TripleHitsAsWritten(s, x) == 3 > 2
  {
    TailHitsAsWrittenCountsTwice();
    var s := Setup(1, 2, false, [{}], (h, t, r) => 0.0);
    var x := Triple(0, 1, 0);
    var keep := Keep(s, x, Head);
    var f := Scorer(s, x, Head);
    var p := Pair(0, 0.0);
    assert Candidates(0, keep, f) == [];
    assert Candidates(1, keep, f) == [p];
    assert SortDesc([p]) == [p] by {
      assert [p][..0] == [];
    }
    assert Kept([p], 2) == [p];
    assert CountId([p], 0) == 1 by {
      assert [p][..0] == [];
    }
  }

  /** Both queries of one test triple exactly as written: the tail hits over all k_max slots. */
  method EvaluateTripleAsWritten(s: Setup, x: Triple, list: array<Pair>) returns (crank: nat, hits: nat)
    requires Fits(s, x) && list.Length == s.kMax + 1
    modifies list
    ensures crank == TripleRank(s, x) && hits == TripleHitsAsWritten(s, x)
  {
    var c1, h1 := TailQueryAsWritten(s, x, list);
    var c2, h2 := Query(s, x, Head, list);
    crank, hits := c1 + c2, h1 + h2;
  }

  /** Every test triple fits. */
  predicate AllFit(s: Setup, test: seq<Triple>) {
    forall j :: 0 <= j < |test| ==> Fits(s, test[j])
  }

  /** The ranks of the test triples, one entry per triple. */
  function Ranks(s: Setup, test: seq<Triple>): (rs: seq<nat>)
    requires AllFit(s, test)
    ensures |rs| == |test|
  {
    if test == [] then [] else Ranks(s, test[..|test| - 1]) + [TripleRank(s, test[|test| - 1])]
  }

  /** The hits of the test triples, one entry per triple. */
  function Hits(s: Setup, test: seq<Triple>): (hs: seq<nat>)
    requires AllFit(s, test)
    ensures |hs| == |test|
  {
    if test == [] then [] else Hits(s, test[..|test| - 1]) + [TripleHits(s, test[|test| - 1])]
  }

  /** Entry `j` of the ranks and hits belongs to test triple `j`. */
  lemma {:induction false} TotalsAt(s: Setup, test: seq<Triple>, j: nat)
    requires AllFit(s, test) && j < |test|
    ensures Ranks(s, test)[j] == TripleRank(s, test[j]) && Hits(s, test)[j] == TripleHits(s, test[j])
  {
    var init := test[..|test| - 1];
    if j < |test| - 1 {
      TotalsAt(s, init, j);
    }
  }

  /** The running totals of a thread after test triples `bg .. d-1`, two queries each. */
  ghost predicate Accumulated(rs: seq<nat>, hs: seq<nat>, bg: nat, d: nat,
                              prank: nat, qrank: nat, phit: nat, qhit: nat) {
    && bg <= d <= |rs| && |hs| == |rs|
    && prank == Sum(rs, bg, d) && phit == Sum(hs, bg, d)
    && qrank == qhit == (d - bg) + (d - bg) && phit <= qhit
  }

  lemma AccumulateStep(s: Setup, test: seq<Triple>, bg: nat, d: nat,
                       prank: nat, qrank: nat, phit: nat, qhit: nat, c: nat, h: nat)
    requires AllFit(s, test) && d < |test|
    requires Accumulated(Ranks(s, test), Hits(s, test), bg, d, prank, qrank, phit, qhit)
    requires c == TripleRank(s, test[d]) && h == TripleHits(s, test[d])
    ensures Accumulated(Ranks(s, test), Hits(s, test), bg, d + 1, prank + c, qrank + 2, phit + h, qhit + 2)
  {
    TotalsAt(s, test, d);
  }

  /** Both queries of one test triple, sharing the score `sc` of the true triple and one list. */
  method EvaluateTriple(s: Setup, x: Triple, list: array<Pair>) returns (crank: nat, hits: nat)
    requires Fits(s, x) && list.Length == s.kMax + 1
    modifies list
    ensures crank == TripleRank(s, x) && hits == TripleHits(s, x)
  {
    var c1, h1 := Query(s, x, Tail, list);
    var c2, h2 := Query(s, x, Head, list);
    crank, hits := c1 + c2, h1 + h2;
  }

  /**
   * `Evaluate` for thread `tid`: over its range of test triples, run the
   * tail and the head query of each and accumulate ranks, hits and the
   * number of queries.
   */
  method EvaluateThread(s: Setup, test: seq<Triple>, numThreads: nat, tid: nat)
    returns (prank: nat, qrank: nat, phit: nat, qhit: nat)
    requires numThreads >= 1 && tid < numThreads && AllFit(s, test)
    ensures var bg, ed := Begin(|test|, numThreads, tid), End(|test|, numThreads, tid);
      && bg <= ed <= |test|
      && prank == Sum(Ranks(s, test), bg, ed) && phit == Sum(Hits(s, test), bg, ed)
      && qrank == qhit == (ed - bg) + (ed - bg)
    ensures phit <= qhit
  {
    var bg := Begin(|test|, numThreads, tid);
    var ed := End(|test|, numThreads, tid);
    RangeBounds(|test|, numThreads, tid);
    ghost var rs, hs := Ranks(s, test), Hits(s, test);
    var list := new Pair[s.kMax + 1];
    prank, qrank, phit, qhit := 0, 0, 0, 0;
    var d := bg;
    while d < ed
      invariant d <= ed && list.Length == s.kMax + 1
      invariant Accumulated(rs, hs, bg, d, prank, qrank, phit, qhit)
    {
      prank, qrank, phit, qhit := ThreadStep(s, test, bg, d, list, prank, qrank, phit, qhit);
      d := d + 1;
    }
  }

  /** One test triple of a thread's range: both queries, added to the running totals. */
  method ThreadStep(s: Setup, test: seq<Triple>, bg: nat, d: nat, list: array<Pair>,
                    prank: nat, qrank: nat, phit: nat, qhit: nat)
    returns (prank': nat, qrank': nat, phit': nat, qhit': nat)
    requires AllFit(s, test) && d < |test| && list.Length == s.kMax + 1
    requires Accumulated(Ranks(s, test), Hits(s, test), bg, d, prank, qrank, phit, qhit)
    modifies list
    ensures Accumulated(Ranks(s, test), Hits(s, test), bg, d + 1, prank', qrank', phit', qhit')
  {
    var c, h := EvaluateTriple(s, test[d], list);
    AccumulateStep(s, test, bg, d, prank, qrank, phit, qhit, c, h);
    prank', qrank', phit', qhit' := prank + c, qrank + 2, phit + h, qhit + 2;
  }

  /**
   * `TrainModel` after the data is read: the threads' totals are summed.
   * The threads' ranges partition the test triples, so the sums are the
   * totals over all of them, with two queries per test triple.
   */
  method TrainModel(s: Setup, test: seq<Triple>, numThreads: nat)
    returns (sPrank: nat, sQrank: nat, sPhit: nat, sQhit: nat)
    requires numThreads >= 1 && AllFit(s, test)
    ensures sPrank == Sum(Ranks(s, test), 0, |test|) && sPhit == Sum(Hits(s, test), 0, |test|)
    ensures sQrank == sQhit == 2 * |test| && sPhit <= sQhit
  {
    ghost var rs, hs := Ranks(s, test), Hits(s, test);
    sPrank, sQrank, sPhit, sQhit := 0, 0, 0, 0;
    ghost var done: nat := 0;
    for a := 0 to numThreads
      invariant done <= |test|
      invariant a < numThreads ==> done == Begin(|test|, numThreads, a)
      invariant a == numThreads ==> done == |test|
      invariant sPrank == Sum(rs, 0, done) && sPhit == Sum(hs, 0, done)
      invariant sQrank == sQhit == done + done && sPhit <= sQhit
    {
      var prank, qrank, phit, qhit := EvaluateThread(s, test, numThreads, a);
      ghost var ed := End(|test|, numThreads, a);
      SumSplit(rs, 0, done, ed);
      SumSplit(hs, 0, done, ed);
      sPrank, sQrank, sPhit, sQhit := sPrank + prank, sQrank + qrank, sPhit + phit, sQhit + qhit;
      done := ed;
    }
  }
}
