/**
 * Loading the sparse similarity input of affinity propagation: records
 * `i k s` with 1-based point indices, then one preference per point. The
 * loaded edge list keeps the records in input order and appends one self
 * edge `(p, p, preference_p)` per point, so the last `n` edges are the
 * preference edges.
 */
module ApLoad {
  import opened Wrappers

  /** One similarity record as read: 1-based indices `i`, `k` and similarity s(i,k). */
  datatype Record = Record(i: nat, k: nat, sim: real)

  /**
   * The parallel edge arrays after loading: `n` points, `m` edges (records
   * plus one preference edge per point), sources, targets and similarities.
   */
  datatype Graph = Graph(n: nat, m: nat, src: seq<nat>, dst: seq<nat>, s: seq<real>)

  datatype LoadError = ShortPreferences

  /** Point indices on disk are 1-based. */
  predicate OneBased(records: seq<Record>) {
    forall j :: 0 <= j < |records| ==> records[j].i >= 1 && records[j].k >= 1
  }

  /**
   * The edge-list layout every later stage relies on: parallel sequences of
   * length `m`, endpoints below `n`, and edge `m - n + p` is the self edge of p.
   */
  predicate WellFormed(g: Graph) {
    && g.n <= g.m
    && |g.src| == g.m && |g.dst| == g.m && |g.s| == g.m
    && (forall j :: 0 <= j < g.m ==> g.src[j] < g.n && g.dst[j] < g.n)
    && (forall j :: g.m - g.n <= j < g.m ==> g.src[j] == j - (g.m - g.n) && g.dst[j] == j - (g.m - g.n))
  }

  /** The number of points: the largest 1-based index of any record, 0 without records. */
  function MaxIndex(records: seq<Record>): (n: nat)
    ensures forall j :: 0 <= j < |records| ==> records[j].i <= n && records[j].k <= n
    ensures n == 0 || exists j :: 0 <= j < |records| && (records[j].i == n || records[j].k == n)
  {
    if records == [] then 0
    else
      var n0 := MaxIndex(records[..|records| - 1]);
      var last := records[|records| - 1];
      var n1 := if last.i > n0 then last.i else n0;
      if last.k > n1 then last.k else n1
  }

  /** `g` is what loading `records` and `prefs` produces. */
  predicate Loaded(records: seq<Record>, prefs: seq<real>, g: Graph) {
    && WellFormed(g)
    && g.n == MaxIndex(records)
    && g.m == |records| + g.n
    && g.n <= |prefs|
    && (forall j :: 0 <= j < |records| ==>
          g.src[j] == records[j].i - 1 && g.dst[j] == records[j].k - 1 && g.s[j] == records[j].sim)
    && (forall j :: |records| <= j < g.m ==> g.s[j] == prefs[j - |records|])
  }

  /** The first pass over the records: how many there are and how many points they name. */
  method CountPoints(records: seq<Record>) returns (m: nat, n: nat)
    ensures m == |records| && n == MaxIndex(records)
  {
    m, n := 0, 0;
    while m < |records|
      invariant m <= |records|
      invariant n == MaxIndex(records[..m])
    {
      assert records[..m + 1][..m] == records[..m];
      if records[m].i > n { n := records[m].i; }
      if records[m].k > n { n := records[m].k; }
      m := m + 1;
    }
    assert records[..m] == records;
  }

  /** The edges the records give, in input order, with indices shifted to 0-based. */
  predicate RecordEdges(records: seq<Record>, src: seq<nat>, dst: seq<nat>, s: seq<real>)
    requires |records| <= |src| && |records| <= |dst| && |records| <= |s|
  {
    forall q :: 0 <= q < |records| ==>
      src[q] == records[q].i - 1 && dst[q] == records[q].k - 1 && s[q] == records[q].sim
  }

  /** The second pass over the records: one edge per record. */
  method CopyRecords(records: seq<Record>) returns (src: seq<nat>, dst: seq<nat>, s: seq<real>)
    requires OneBased(records)
    ensures |src| == |records| && |dst| == |records| && |s| == |records|
    ensures RecordEdges(records, src, dst, s)
  {
    src, dst, s := [], [], [];
    for j := 0 to |records|
      invariant |src| == j && |dst| == j && |s| == j
      invariant forall q :: 0 <= q < j ==>
        src[q] == records[q].i - 1 && dst[q] == records[q].k - 1 && s[q] == records[q].sim
    {
      src, dst, s := src + [records[j].i - 1], dst + [records[j].k - 1], s + [records[j].sim];
    }
  }

  /** The preference pass: edge `m + p` is the self edge of point p with preference p. */
  method AppendPreferences(records: seq<Record>, src0: seq<nat>, dst0: seq<nat>, s0: seq<real>,
                           n: nat, prefs: seq<real>)
    returns (src: seq<nat>, dst: seq<nat>, s: seq<real>)
    requires |src0| == |records| && |dst0| == |records| && |s0| == |records| && n <= |prefs|
    requires RecordEdges(records, src0, dst0, s0)
    ensures |src| == |records| + n && |dst| == |records| + n && |s| == |records| + n
    ensures RecordEdges(records, src, dst, s)
    ensures forall j :: |records| <= j < |src| ==>
      src[j] == j - |records| && dst[j] == j - |records| && s[j] == prefs[j - |records|]
  {
    var m := |records|;
    src, dst, s := src0, dst0, s0;
    for p := 0 to n
      invariant |src| == m + p && |dst| == m + p && |s| == m + p
      invariant RecordEdges(records, src, dst, s)
      invariant forall j :: m <= j < m + p ==> src[j] == j - m && dst[j] == j - m && s[j] == prefs[j - m]
    {
      src, dst, s := src + [p], dst + [p], s + [prefs[p]];
    }
  }

  /**
   * Counts the points, fills the edge arrays from the records (shifting the
   * indices to 0-based) and appends the preference edges. Fewer preferences
   * than points is an error; so is an input without records, since then the
   * end-of-file status of the counting pass is what the preference check sees.
   */
  method Load(records: seq<Record>, prefs: seq<real>) returns (res: Result<Graph, LoadError>)
    requires OneBased(records)
    ensures res.Failure? <==> MaxIndex(records) == 0 || |prefs| < MaxIndex(records)
    ensures res.Success? ==> Loaded(records, prefs, res.value)
  {
    var m, n := CountPoints(records);
    if n == 0 || |prefs| < n {
      return Failure(ShortPreferences);
    }
    var src0, dst0, s0 := CopyRecords(records);
    var src, dst, s := AppendPreferences(records, src0, dst0, s0, n, prefs);
    var g := Graph(n, m + n, src, dst, s);
    assert WellFormed(g);
    res := Success(g);
  }
}
