/** The plateau trigger: when a window of cycles is a plateau, and what each version reports. */
module Plateau {
  import opened Wrappers
  import opened Texts
  import opened Records
  import opened Learner
  import opened Ordering
  import V = Variance

  datatype Profile = Profile(
    id: string,
    digests: seq<Digest>,
    maxProposals: nat,
    windowCycles: nat,
    minClusters: nat,
    minUnique: nat,
    minSuccessRate: nat,
    maxMeanGain: nat,
    maxVariance: nat,
    cooldown: nat,
    budgetShare: nat,
    maxJobs: nat,
    monetaryLimit: nat,
    seed: Option<Digest>)

  /** Only the offline profile is supported. */
  predicate ValidProfile(p: Profile) {
    && p.maxProposals == 4 && p.windowCycles == 3 && p.minClusters == 10 && p.minUnique == 30
    && p.minSuccessRate == 950_000 && p.maxMeanGain == 5_000 && p.maxVariance == 1_000_000_000
    && p.cooldown == 3 && p.budgetShare == 2_000 && p.maxJobs == 1 && p.monetaryLimit == 0
    && IsIdentifier(p.id) && (forall i :: 0 <= i < |p.digests| ==> IsDigest(p.digests[i]))
    && (p.seed.Some? ==> IsDigest(p.seed.value))
  }

  datatype Signal =
    | FailureGap(clusters: seq<string>)
    | CoverageGap(buckets: seq<string>)
    | PlateauProbe(cycles: seq<string>, unique: seq<string>, means: seq<int>, variance: nat)
    | ColdStart
    | NotTriggered(reasons: seq<string>)

  const FEW_CLUSTERS := "insufficient_cycle_clusters"
  const LOW_SUCCESS := "success_rate_below_threshold"
  const NO_PLATEAU := "mean_gain_not_plateau"
  const REUSED := "cluster_reused_across_cycles"
  const FEW_UNIQUE := "insufficient_unique_window_clusters"
  const HIGH_VARIANCE := "gain_variance_above_threshold"
  const CHANGED := "environment_or_grader_changed"
  const UNSUPPORTED := "failure_cluster_outside_registered_task_space"

  // ---- one cycle ----

  function GainSum(gains: seq<int>): int {
    if gains == [] then 0 else GainSum(gains[..|gains| - 1]) + gains[|gains| - 1]
  }

  function GainOf(o: Observation): V.Gain {
    V.Gain(GainSum(o.gains), |o.gains|)
  }

  /** Division toward zero. */
  function TruncDiv(a: int, b: int): int
    requires b > 0
  {
    if a >= 0 then a / b else -((-a) / b)
  }

  function SuccessRate(o: Observation): nat
    requires o.clusters != []
  {
    (o.successful * 1_000_000) / |o.clusters|
  }

  lemma {:induction false} GainSumBound(gains: seq<int>)
    requires forall i :: 0 <= i < |gains| ==> -1_000_000 <= gains[i] <= 1_000_000
    ensures -1_000_000 * |gains| <= GainSum(gains) <= 1_000_000 * |gains|
  {
    if gains != [] {
      GainSumBound(gains[..|gains| - 1]);
    }
  }

  lemma ObservationSensible(o: Observation)
    requires ValidObservation(o)
    ensures V.Sensible(GainOf(o)) && o.clusters != []
  {
    hide IsIdentifier, IsDigest, AllIdentifiers, Distinct;
    GainSumBound(o.gains);
  }

  /** The success-rate test is the comparison with nineteen twentieths. */
  lemma SuccessRateMeans(o: Observation)
    requires o.clusters != []
    ensures SuccessRate(o) < 950_000 <==> 20 * o.successful < 19 * |o.clusters|
  {
    var a, b := o.successful * 1_000_000, |o.clusters|;
    var q, r := a / b, a % b;
    assert a == b * q + r;
    if q < 950_000 {
      Product(b, q, 949_999);
    } else {
      Product(b, 950_000, q);
    }
  }

  lemma Product(b: int, x: int, y: int)
    requires b > 0 && x <= y
    ensures b * x <= b * y
  {
    assert b * (y - x) >= 0;
  }

  // ---- a window ----

  function Magnitude(x: int): nat {
    if x < 0 then -x else x
  }

  predicate Flat(o: Observation) {
    Magnitude(GainSum(o.gains)) <= 5_000 * |o.gains|
  }

  predicate Successful(o: Observation) {
    20 * o.successful >= 19 * |o.clusters|
  }

  function Gains(w: seq<Observation>): (r: seq<V.Gain>)
    ensures |r| == |w| && forall i :: 0 <= i < |r| ==> r[i] == GainOf(w[i])
  {
    seq(|w|, i requires 0 <= i < |w| => GainOf(w[i]))
  }

  function AllClusters(w: seq<Observation>): seq<string> {
    if w == [] then [] else AllClusters(w[..|w| - 1]) + w[|w| - 1].clusters
  }

  /** No cluster stands in two cycles. */
  predicate Disjoint(w: seq<Observation>) {
    forall i, j, x :: 0 <= i < j < |w| && x in w[i].clusters ==> x !in w[j].clusters
  }

  predicate Varies(w: seq<Observation>)
    requires V.Counted(Gains(w)) && |w| >= 2
  {
    V.UnbiasedVariance(V.Means(Gains(w))) > 1_000_000_000.0
  }

  /** Three cycles of the current profile that do not improve any more. */
  predicate IsPlateau(w: seq<Observation>)
    requires V.Counted(Gains(w)) && |w| >= 2
  {
    && (forall i :: 0 <= i < |w| ==> |w[i].clusters| >= 10 && Successful(w[i]) && Flat(w[i]))
    && Disjoint(w)
    && !Varies(w)
  }

  lemma WindowCounted(w: seq<Observation>)
    requires forall i :: 0 <= i < |w| ==> ValidObservation(w[i])
    ensures V.Counted(Gains(w))
    ensures |w| == 3 ==> V.Window(Gains(w))
  {
    hide ValidObservation, V.Sensible;
    forall i | 0 <= i < |w|
      ensures V.Sensible(Gains(w)[i]) && Gains(w)[i].count > 0
    {
      ObservationSensible(w[i]);
      SensibleCounts(GainOf(w[i]));
    }
  }

  lemma SensibleCounts(g: V.Gain)
    requires V.Sensible(g)
    ensures g.count > 0
  {
  }

  /** The reasons against a plateau, each once. */
  function Reasons(w: seq<Observation>): seq<string>
    requires V.Counted(Gains(w)) && |w| >= 2
  {
    (if exists i :: 0 <= i < |w| && |w[i].clusters| < 10 then [FEW_CLUSTERS] else [])
    + (if exists i :: 0 <= i < |w| && !Successful(w[i]) then [LOW_SUCCESS] else [])
    + (if exists i :: 0 <= i < |w| && !Flat(w[i]) then [NO_PLATEAU] else [])
    + (if !Disjoint(w) then [REUSED] else [])
    + (if |ClusterSet(w)| < 30 then [FEW_UNIQUE] else [])
    + (if Varies(w) then [HIGH_VARIANCE] else [])
  }

  function ClusterSet(w: seq<Observation>): (r: set<string>)
    ensures forall x :: x in r <==> exists i :: 0 <= i < |w| && x in w[i].clusters
  {
    if w == [] then {}
    else
      var n := |w| - 1;
      var front := ClusterSet(w[..n]);
      assert forall i :: 0 <= i < n ==> w[..n][i] == w[i];
      front + Listed(w[n].clusters)
  }

  function Listed(xs: seq<string>): set<string> {
    set x | x in xs
  }

  lemma LastApart(w: seq<Observation>)
    requires w != [] && Disjoint(w)
    ensures Disjoint(w[..|w| - 1])
    ensures ClusterSet(w[..|w| - 1]) !! Listed(w[|w| - 1].clusters)
    ensures ClusterSet(w) == ClusterSet(w[..|w| - 1]) + Listed(w[|w| - 1].clusters)
  {
    var n := |w| - 1;
    forall x | x in ClusterSet(w[..n])
      ensures x !in Listed(w[n].clusters)
    {
      var i :| 0 <= i < n && x in w[..n][i].clusters;
      assert x in w[i].clusters;
    }
  }

  /** Disjoint cycles of distinct clusters have as many clusters together as the cycles have. */
  lemma {:induction false} DisjointCount(w: seq<Observation>)
    requires Disjoint(w) && forall i :: 0 <= i < |w| ==> Distinct(w[i].clusters) && |w[i].clusters| >= 10
    ensures |ClusterSet(w)| >= 10 * |w|
  {
    hide Disjoint, Distinct, ClusterSet, Listed;
    if w != [] {
      var n := |w| - 1;
      LastApart(w);
      DisjointCount(w[..n]);
      ListedCount(w[n].clusters);
      UnionCount(ClusterSet(w[..n]), Listed(w[n].clusters));
    }
  }

  lemma {:induction false} ListedCount(xs: seq<string>)
    requires Distinct(xs)
    ensures |Listed(xs)| == |xs|
  {
    if xs != [] {
      var n := |xs| - 1;
      ListedCount(xs[..n]);
      assert xs == xs[..n] + [xs[n]];
      assert Listed(xs) == Listed(xs[..n]) + {xs[n]};
      assert xs[n] !in Listed(xs[..n]);
    } else {
      assert Listed(xs) == {};
    }
  }

  lemma UnionCount(a: set<string>, b: set<string>)
    requires a !! b
    ensures |a + b| == |a| + |b|
  {
  }

  /** A window has no reason against it exactly when it is a plateau; thirty clusters come with the rest. */
  lemma PlateauHasNoReasons(w: seq<Observation>)
    requires |w| == 3 && forall i :: 0 <= i < |w| ==> ValidObservation(w[i])
    ensures V.Counted(Gains(w))
    ensures Reasons(w) == [] <==> IsPlateau(w)
  {
    hide ValidObservation, Successful, Flat, V.Counted, Varies, Disjoint, ClusterSet;
    WindowCounted(w);
    forall i | 0 <= i < |w|
      ensures Distinct(w[i].clusters)
    {
      ClustersDistinct(w[i]);
    }
    if IsPlateau(w) {
      DisjointCount(w);
    }
  }

  lemma ClustersDistinct(o: Observation)
    requires ValidObservation(o)
    ensures Distinct(o.clusters)
  {
  }

  // ---- the signal ----

  function GapIds(buckets: seq<Bucket>): seq<string> {
    if buckets == [] then []
    else
      var front, last := GapIds(buckets[..|buckets| - 1]), buckets[|buckets| - 1];
      if last.observed < last.required then front + [last.id] else front
  }

  function CycleIds(w: seq<Observation>): (r: seq<string>)
    ensures |r| == |w| && forall i :: 0 <= i < |r| ==> r[i] == w[i].id
  {
    seq(|w|, i requires 0 <= i < |w| => w[i].id)
  }

  function MeanGains(w: seq<Observation>): (r: seq<int>)
    requires V.Counted(Gains(w))
    ensures |r| == |w| && forall i :: 0 <= i < |r| ==> w[i].gains != [] && r[i] == TruncDiv(GainSum(w[i].gains), |w[i].gains|)
  {
    seq(|w|, i requires 0 <= i < |w| => assert Gains(w)[i].count > 0; TruncDiv(GainSum(w[i].gains), |w[i].gains|))
  }

  /** Whether the window of three cycles is a plateau, from a valid state. */
  function WindowSignal(w: seq<Observation>): (r: Signal)
    requires |w| == 3 && forall i :: 0 <= i < |w| ==> ValidObservation(w[i])
    ensures r.NotTriggered? || r.PlateauProbe?
  {
    WindowCounted(w);
    V.WindowNeverOverflows(Gains(w), 1_000_000_000);
    if Reasons(w) != [] then NotTriggered(Ordered(Reasons(w)))
    else
      PlateauProbe(CycleIds(w), Ordered(AllClusters(w)), MeanGains(w),
                   V.SampleVariance(Gains(w), 1_000_000_000).value.display)
  }

  /** The last three cycles. */
  function LastThree(cycles: seq<Observation>): (w: seq<Observation>)
    requires |cycles| >= 3
    ensures |w| == 3
  {
    cycles[|cycles| - 3..]
  }

  function SignalOf(c: Core): Signal
    requires ValidCore(c)
  {
    if c.cooldown > 0 then NotTriggered(["cooldown"])
    else if c.failureClusters != [] then FailureGap(c.failureClusters)
    else if GapIds(c.buckets) != [] then CoverageGap(GapIds(c.buckets))
    else if |c.cycles| < 3 then ColdStart
    else WindowSignal(LastThree(c.cycles))
  }

  /** The probe is reported exactly for a plateau without cooldown, failure or coverage gap, and it reports the
      exact variance of the window rounded up. */
  lemma ProbeExactly(c: Core)
    requires ValidCore(c)
    ensures |c.cycles| >= 3 ==> V.Counted(Gains(LastThree(c.cycles)))
    ensures SignalOf(c).PlateauProbe? <==>
            c.cooldown == 0 && c.failureClusters == [] && GapIds(c.buckets) == [] && |c.cycles| >= 3
            && IsPlateau(LastThree(c.cycles))
    ensures SignalOf(c).PlateauProbe? ==> Reports(SignalOf(c), LastThree(c.cycles))
  {
    hide IsIdentifier, IsDigest, ValidObservation, Reports, IsPlateau, V.Counted, WindowSignal, ValidAssets, ValidBuckets, GapIds;
    if |c.cycles| >= 3 {
      ProbeOfWindow(LastThree(c.cycles));
    }
  }

  /** What a probe says about its window. */
  ghost predicate Reports(s: Signal, w: seq<Observation>)
    requires V.Counted(Gains(w)) && |w| >= 2
  {
    var v := V.UnbiasedVariance(V.Means(Gains(w)));
    && s.PlateauProbe?
    && s.cycles == CycleIds(w) && s.means == MeanGains(w)
    && (s.variance - 1) as real < v <= s.variance as real && s.variance <= 1_000_000_000
    && |ClusterSet(w)| >= 30
  }

  lemma RoundedDown(a: int, v: real, most: int)
    requires (a - 1) as real < v && v <= most as real
    ensures a <= most
  {
  }

  lemma ProbeOfWindow(w: seq<Observation>)
    requires |w| == 3 && forall i :: 0 <= i < |w| ==> ValidObservation(w[i])
    ensures V.Counted(Gains(w))
    ensures WindowSignal(w).PlateauProbe? <==> IsPlateau(w)
    ensures WindowSignal(w).PlateauProbe? ==> Reports(WindowSignal(w), w)
  {
    hide ValidObservation, V.UnbiasedVariance, V.SampleVariance, Reasons, IsPlateau, V.Counted, ClusterSet, Ordered, AllClusters;
    WindowCounted(w);
    PlateauHasNoReasons(w);
    if Reasons(w) == [] {
      V.WindowNeverOverflows(Gains(w), 1_000_000_000);
      V.VarianceMeaning(Gains(w), 1_000_000_000);
      PlateauParts(w);
      RoundedDown(V.SampleVariance(Gains(w), 1_000_000_000).value.display, V.UnbiasedVariance(V.Means(Gains(w))), 1_000_000_000);
    }
  }

  lemma PlateauParts(w: seq<Observation>)
    requires V.Counted(Gains(w)) && |w| == 3 && IsPlateau(w) && forall i :: 0 <= i < |w| ==> ValidObservation(w[i])
    ensures V.UnbiasedVariance(V.Means(Gains(w))) <= 1_000_000_000.0
    ensures |ClusterSet(w)| >= 30
  {
    hide V.UnbiasedVariance, ValidObservation, Disjoint, ClusterSet;
    forall i | 0 <= i < |w|
      ensures Distinct(w[i].clusters)
    {
      ClustersDistinct(w[i]);
    }
    DisjointCount(w);
  }
}
