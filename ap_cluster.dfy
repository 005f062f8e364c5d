/**
 * The affinity-propagation driver: validate the parameters, load the edge
 * list, iterate the message updates until the exemplar decisions have
 * been stable for convits iterations (or maxits is reached), then assign
 * points to exemplars and compute the fitness statistics.
 */
module ApCluster {
  import opened Wrappers
  import opened ApParams
  import opened ApLoad
  import opened ApMessages
  import opened ApDecisions
  import opened ApAssign

  /** One iteration: responsibilities, availabilities, then the decision step. */
  method Step(g: Graph, lam: real, a: array<real>, r: array<real>, mx1: array<real>, mx2: array<real>,
              srp: array<real>, dec: array2<nat>, decsum: array<nat>, decit: nat)
    returns (decit': nat, k: nat)
    requires WellFormed(g) && 0.0 <= lam <= 1.0
    requires a.Length == g.m && r.Length == g.m
    requires mx1.Length == g.n && mx2.Length == g.n && srp.Length == g.n
    requires a != r && a != mx1 && a != mx2 && a != srp && r != mx1 && r != mx2 && r != srp
    requires mx1 != mx2
    requires dec.Length0 >= 1 && dec.Length1 == g.n && decit <= dec.Length0
    requires Window(dec, decsum)
    modifies a, r, mx1, mx2, srp, dec, decsum
    ensures decit' == NextSlot(decit, dec.Length0)
    ensures Window(dec, decsum)
    ensures k == Sum(Row(dec, decit'))
    ensures forall j :: 0 <= j < g.m - g.n && old(a[j]) <= 0.0 ==> a[j] <= 0.0
  {
    ComputeMaxes(g, a, mx1, mx2);
    UpdateResponsibilities(g, a, r, mx1, mx2, lam);
    UpdateAvailabilities(g, r, a, srp, lam);
    decit', k := UpdateDecisions(g, a, r, dec, decsum, decit);
  }

  /** The convergence test: every rolling sum is 0 or convits. */
  method Converged(decsum: array<nat>, convits: nat) returns (conv: bool)
    ensures conv <==> forall p :: 0 <= p < decsum.Length ==> decsum[p] == 0 || decsum[p] == convits
  {
    conv := true;
    for p := 0 to decsum.Length
      invariant conv <==> forall q :: 0 <= q < p ==> decsum[q] == 0 || decsum[q] == convits
    {
      if decsum[p] != 0 && decsum[p] != convits {
        conv := false;
      }
    }
  }

  /**
   * The message-passing loop. It runs at least one and at most maxits
   * iterations, and stops early only when the convergence test has been
   * made (from iteration convits on), has passed, and the last iteration
   * found at least one exemplar. Off-diagonal availabilities stay at most 0.
   */
  method Iterate(g: Graph, cfg: Config, a: array<real>, r: array<real>, mx1: array<real>, mx2: array<real>,
                 srp: array<real>, dec: array2<nat>, decsum: array<nat>)
    returns (it: nat, decit: nat, k: nat, conv: bool)
    requires ValidConfig(cfg) && WellFormed(g)
    requires a.Length == g.m && r.Length == g.m
    requires mx1.Length == g.n && mx2.Length == g.n && srp.Length == g.n
    requires a != r && a != mx1 && a != mx2 && a != srp && r != mx1 && r != mx2 && r != srp
    requires mx1 != mx2
    requires dec.Length0 == cfg.convits && dec.Length1 == g.n
    requires Window(dec, decsum)
    requires forall j :: 0 <= j < g.m - g.n ==> a[j] <= 0.0
    modifies a, r, mx1, mx2, srp, dec, decsum
    ensures 1 <= it <= cfg.maxits
    ensures decit < cfg.convits
    ensures Window(dec, decsum)
    ensures k == Sum(Row(dec, decit))
    ensures conv <==> forall p :: 0 <= p < g.n ==> decsum[p] == 0 || decsum[p] == cfg.convits
    ensures it < cfg.maxits ==> conv && k > 0 && it >= cfg.convits
    ensures forall j :: 0 <= j < g.m - g.n ==> a[j] <= 0.0
  {
    var dn := false;
    it, decit, k, conv := 0, cfg.convits, 0, false;
    while !dn
      invariant it <= cfg.maxits && decit <= cfg.convits
      invariant !dn ==> it < cfg.maxits
      invariant it >= 1 ==> decit < cfg.convits && k == Sum(Row(dec, decit))
      invariant dn ==> it >= 1
      invariant dn ==> (conv <==> forall p :: 0 <= p < g.n ==> decsum[p] == 0 || decsum[p] == cfg.convits)
      invariant dn && it < cfg.maxits ==> conv && k > 0 && it >= cfg.convits
      invariant Window(dec, decsum)
      invariant forall j :: 0 <= j < g.m - g.n ==> a[j] <= 0.0
      decreases cfg.maxits - it, !dn
    {
      it := it + 1;
      decit, k := Step(g, cfg.lam, a, r, mx1, mx2, srp, dec, decsum, decit);
      if it >= cfg.convits || it >= cfg.maxits {
        conv := Converged(decsum, cfg.convits);
        if (conv && k > 0) || it == cfg.maxits {
          dn := true;
        }
      }
    }
  }

  /**
   * The assignment passes and the statistics on the decisions of slot
   * `decit`: pass 1, pass 2, pass 3, then expref, dpsim and netsim.
   */
  method Finish(g: Graph, dec: array2<nat>, decit: nat, a: array<real>, mx1: array<real>,
                srp: array<real>, idx: array<nat>)
    returns (netsim: real, dpsim: real, expref: real)
    requires WellFormed(g) && decit < dec.Length0 && dec.Length1 == g.n
    requires a.Length == g.m && mx1.Length == g.n && srp.Length == g.n && idx.Length == g.n
    requires a != mx1 && srp != mx1
    requires forall p :: 0 <= p < g.n ==> idx[p] < g.n
    modifies dec, a, mx1, srp, idx
    ensures forall p :: 0 <= p < g.n ==> idx[p] < g.n
    ensures forall p :: 0 <= p < g.n ==> dec[decit, p] <= 1
    ensures forall p :: 0 <= p < g.n && dec[decit, p] != 0 ==> idx[p] == p
    ensures expref == ExpRef(g, idx[..], g.m) && dpsim == DpSim(g, idx[..], g.m)
    ensures netsim == dpsim + expref && netsim == AssignedSim(g, idx[..], g.m)
  {
    var win := Assign(g, dec, decit, a, mx1, idx);
    Reselect(g, idx, srp, mx1, dec, decit);
    win := Assign(g, dec, decit, a, mx1, idx);
    netsim, dpsim, expref := Stats(g, idx);
  }

  /**
   * What a run reports. `decisions` is the decision slot of the last
   * iteration, whose exemplar count K decides between the two reports;
   * `exemplar` is that slot after pass 2 has re-selected the exemplars.
   */
  datatype Outcome =
    | ConfigRejected(configError: ConfigError)
    | LoadRejected(loadError: LoadError)
    | NoClusters(decisions: seq<nat>, iterations: nat, converged: bool)
    | Clustered(decisions: seq<nat>, idx: seq<nat>, exemplar: seq<nat>, k: nat,
                netsim: real, dpsim: real, expref: real, iterations: nat, converged: bool)

  /** The postcondition of a run on a loaded edge list. */
  ghost predicate Reported(g: Graph, cfg: Config, out: Outcome)
    requires WellFormed(g)
  {
    && (out.NoClusters? || out.Clustered?)
    && |out.decisions| == g.n && Bits(out.decisions)
    && (out.NoClusters? <==> Sum(out.decisions) == 0)
    && 1 <= out.iterations <= cfg.maxits
    && (out.iterations < cfg.maxits ==>
          out.converged && Sum(out.decisions) > 0 && out.iterations >= cfg.convits)
    && (out.Clustered? ==>
          && out.k == Sum(out.decisions) && 0 < out.k <= g.n
          && |out.idx| == g.n && |out.exemplar| == g.n && Bits(out.exemplar)
          && (forall p :: 0 <= p < g.n ==> out.idx[p] < g.n)
          && (forall p :: 0 <= p < g.n && out.exemplar[p] != 0 ==> out.idx[p] == p)
          && out.expref == ExpRef(g, out.idx, g.m) && out.dpsim == DpSim(g, out.idx, g.m)
          && out.netsim == out.dpsim + out.expref && out.netsim == AssignedSim(g, out.idx, g.m))
  }

  /**
   * A run on a loaded edge list: zeroed messages and decisions, the
   * message-passing loop, and, when the last iteration found exemplars,
   * the assignment passes and the statistics.
   */
  method Run(g: Graph, cfg: Config) returns (out: Outcome)
    requires WellFormed(g) && ValidConfig(cfg) && g.n >= 1
    ensures Reported(g, cfg, out)
  {
    var a := new real[g.m](_ => 0.0);
    var r := new real[g.m](_ => 0.0);
    var mx1 := new real[g.n](_ => 0.0);
    var mx2 := new real[g.n](_ => 0.0);
    var srp := new real[g.n](_ => 0.0);
    var dec := new nat[cfg.convits, g.n]((_, _) => 0);
    var decsum := new nat[g.n](_ => 0);
    var idx := new nat[g.n](_ => 0);
    WindowZero(dec, decsum);
    var it, decit, k, conv := Iterate(g, cfg, a, r, mx1, mx2, srp, dec, decsum);
    out := Report(g, cfg, it, decit, k, conv, dec, a, mx1, srp, idx);
  }

  /** What a run reports once the loop has stopped. */
  method Report(g: Graph, cfg: Config, it: nat, decit: nat, k: nat, conv: bool,
                dec: array2<nat>, a: array<real>, mx1: array<real>, srp: array<real>, idx: array<nat>)
    returns (out: Outcome)
    requires WellFormed(g) && ValidConfig(cfg) && g.n >= 1
    requires 1 <= it <= cfg.maxits && (it < cfg.maxits ==> conv && k > 0 && it >= cfg.convits)
    requires decit < dec.Length0 && dec.Length1 == g.n
    requires forall c, p :: 0 <= c < dec.Length0 && 0 <= p < dec.Length1 ==> dec[c, p] <= 1
    requires k == Sum(Row(dec, decit))
    requires a.Length == g.m && mx1.Length == g.n && srp.Length == g.n && idx.Length == g.n
    requires a != mx1 && srp != mx1
    requires forall p :: 0 <= p < g.n ==> idx[p] == 0
    modifies dec, a, mx1, srp, idx
    ensures Reported(g, cfg, out)
    ensures out.decisions == old(Row(dec, decit))
    ensures out.Clustered? <==> k > 0
    ensures out.Clustered? ==> out.k == k
    ensures out.iterations == it && out.converged == conv
  {
    var decisions := seq(g.n, p requires 0 <= p < g.n reads dec => dec[decit, p]);
    assert decisions == Row(dec, decit);
    if k == 0 {
      return NoClusters(decisions, it, conv);
    }
    SumBitsBound(decisions);
    var netsim, dpsim, expref := Finish(g, dec, decit, a, mx1, srp, idx);
    var exemplar := seq(g.n, p requires 0 <= p < g.n reads dec => dec[decit, p]);
    out := Clustered(decisions, idx[..], exemplar, k, netsim, dpsim, expref, it, conv);
  }

  /**
   * A whole run on in-memory input. Invalid parameters and unusable input
   * are reported before any iteration; otherwise the run reports on the
   * loaded edge list as `Run` describes.
   */
  method Cluster(cfg: Config, records: seq<Record>, prefs: seq<real>) returns (out: Outcome, ghost g: Graph)
    requires OneBased(records)
    ensures out.ConfigRejected? <==> !ValidConfig(cfg)
    ensures out.LoadRejected? <==> ValidConfig(cfg) && (MaxIndex(records) == 0 || |prefs| < MaxIndex(records))
    ensures !out.ConfigRejected? && !out.LoadRejected? ==> Loaded(records, prefs, g) && Reported(g, cfg, out)
  {
    g := Graph(0, 0, [], [], []);
    var checked := Validate(cfg);
    if checked.Failure? {
      return ConfigRejected(checked.error), g;
    }
    var loaded := Load(records, prefs);
    if loaded.Failure? {
      return LoadRejected(loaded.error), g;
    }
    g := loaded.value;
    out := Run(loaded.value, cfg);
  }
}
