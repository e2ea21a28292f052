/** The loops that detect a plateau, in both state versions. */
module Detector {
  import opened Wrappers
  import opened Texts
  import opened Records
  import opened Learner
  import opened Ordering
  import opened Plateau
  import Json
  import V = Variance

  // ---- one cycle ----

  /** What one cycle says against a plateau, apart from reused clusters. */
  predicate Says(o: Observation, reason: string) {
    || (reason == FEW_CLUSTERS && |o.clusters| < 10)
    || (reason == LOW_SUCCESS && !Successful(o))
    || (reason == NO_PLATEAU && !Flat(o))
  }

  method CycleReasons(o: Observation, environment: Digest, grader: Digest) returns (reasons: seq<string>)
    requires o.clusters != [] && o.gains != [] && o.environment == environment && o.grader == grader
    ensures forall x :: x in reasons <==> Says(o, x)
  {
    reasons := [];
    SuccessRateMeans(o);
    if o.environment != environment || o.grader != grader {
      reasons := reasons + [CHANGED];
    }
    if |o.clusters| < 10 {
      reasons := reasons + [FEW_CLUSTERS];
    }
    if SuccessRate(o) < 950_000 {
      reasons := reasons + [LOW_SUCCESS];
    }
    if Magnitude(GainSum(o.gains)) > 5_000 * |o.gains| {
      reasons := reasons + [NO_PLATEAU];
    }
  }

  lemma OrderedInsert(xs: seq<string>, x: string)
    ensures Ordered(xs + [x]) == if x in Ordered(xs) then Ordered(xs)
                                 else Json.InsertAt(Ordered(xs), Json.Slot(Ordered(xs), x), x)
  {
    assert (xs + [x])[..|xs|] == xs;
  }

  /** Adds the clusters of a cycle to the sorted set of clusters seen; tells whether one was there before. */
  method AddClusters(seen: seq<string>, o: Observation, ghost before: seq<string>) returns (more: seq<string>, reused: bool)
    requires seen == Ordered(before) && Distinct(o.clusters)
    ensures more == Ordered(before + o.clusters)
    ensures reused <==> exists i :: 0 <= i < |o.clusters| && o.clusters[i] in before
  {
    hide Ordered;
    more, reused := seen, false;
    assert before + o.clusters[..0] == before;
    for i := 0 to |o.clusters|
      invariant more == Ordered(before + o.clusters[..i])
      invariant reused <==> exists j :: 0 <= j < i && o.clusters[j] in before
    {
      var x := o.clusters[i];
      assert o.clusters[..i + 1] == o.clusters[..i] + [x];
      assert before + o.clusters[..i + 1] == (before + o.clusters[..i]) + [x];
      OrderedInsert(before + o.clusters[..i], x);
      assert x in more <==> x in before || x in o.clusters[..i];
      assert x !in o.clusters[..i];
      if x in more {
        reused := true;
      } else {
        more := Json.InsertAt(more, Json.Slot(more, x), x);
      }
    }
    assert o.clusters[..|o.clusters|] == o.clusters;
  }

  lemma ClustersListed(w: seq<Observation>)
    ensures forall x :: x in AllClusters(w) <==> x in ClusterSet(w)
  {
    if w != [] {
      ClustersListed(w[..|w| - 1]);
    }
  }

  lemma ReusedOverlaps(w: seq<Observation>, k: nat, i: nat)
    requires k < |w| && i < |w[k].clusters| && w[k].clusters[i] in AllClusters(w[..k])
    ensures !Disjoint(w[..k + 1])
  {
    var x, all := w[k].clusters[i], w[..k + 1];
    ClustersListed(w[..k]);
    var h :| 0 <= h < k && x in w[..k][h].clusters;
    assert x in all[h].clusters && x in all[k].clusters;
  }

  lemma DisjointStep(w: seq<Observation>, k: nat)
    requires k < |w|
    ensures Disjoint(w[..k + 1]) <==>
            Disjoint(w[..k]) && forall i :: 0 <= i < |w[k].clusters| ==> w[k].clusters[i] !in AllClusters(w[..k])
    ensures AllClusters(w[..k + 1]) == AllClusters(w[..k]) + w[k].clusters
  {
    var front, all := w[..k], w[..k + 1];
    assert all[..k] == front && all[k] == w[k];
    ClustersListed(front);
    forall i | 0 <= i < |w[k].clusters| && w[k].clusters[i] in AllClusters(front)
      ensures !Disjoint(all)
    {
      ReusedOverlaps(w, k, i);
    }
    if Disjoint(all) {
      assert Disjoint(front) by {
        forall i, j, x | 0 <= i < j < |front| && x in front[i].clusters
          ensures x !in front[j].clusters
        {
          assert x in all[i].clusters;
        }
      }
    } else {
      var i, j, x :| 0 <= i < j < |all| && x in all[i].clusters && x in all[j].clusters;
      if j < k {
        assert x in front[i].clusters && x in front[j].clusters;
      } else {
        assert x in front[i].clusters;
        var m :| 0 <= m < |w[k].clusters| && w[k].clusters[m] == x;
      }
    }
  }

  // ---- the window ----

  /** The reasons gathered from the first cycles. */
  ghost predicate Gathered(reasons: seq<string>, w: seq<Observation>, k: nat)
    requires k <= |w|
  {
    forall x :: x in reasons <==>
      (exists i :: 0 <= i < k && Says(w[i], x)) || (x == REUSED && !Disjoint(w[..k]))
  }

  lemma GatherStep(reasons: seq<string>, w: seq<Observation>, k: nat, said: seq<string>, reused: bool)
    requires k < |w| && Gathered(reasons, w, k) && forall x :: x in said <==> Says(w[k], x)
    requires reused <==> exists i :: 0 <= i < |w[k].clusters| && w[k].clusters[i] in AllClusters(w[..k])
    ensures Gathered(reasons + said + (if reused then [REUSED] else []), w, k + 1)
  {
    hide Says, Disjoint;
    DisjointStep(w, k);
    var all := reasons + said + if reused then [REUSED] else [];
    forall x
      ensures x in all <==> (exists i :: 0 <= i < k + 1 && Says(w[i], x)) || (x == REUSED && !Disjoint(w[..k + 1]))
    {
      assert x in all <==> x in reasons || x in said || (reused && x == REUSED);
      assert (exists i :: 0 <= i < k + 1 && Says(w[i], x)) <==> (exists i :: 0 <= i < k && Says(w[i], x)) || Says(w[k], x);
    }
  }

  lemma GatheredAll(reasons: seq<string>, w: seq<Observation>, seen: seq<string>)
    requires |w| == 3 && V.Counted(Gains(w)) && Gathered(reasons, w, 3) && seen == Ordered(AllClusters(w))
    ensures var all := reasons + (if |seen| < 30 then [FEW_UNIQUE] else []) + (if Varies(w) then [HIGH_VARIANCE] else []);
            forall x :: x in all <==> x in Reasons(w)
  {
    hide Disjoint, Successful, Flat, Varies, Ordered, AllClusters, ClusterSet, V.Counted, Reasons, Says;
    assert w[..3] == w;
    SeenCount(w);
    var all := reasons + (if |seen| < 30 then [FEW_UNIQUE] else []) + (if Varies(w) then [HIGH_VARIANCE] else []);
    forall x
      ensures x in all <==> x in Reasons(w)
    {
      InThree(reasons, if |seen| < 30 then [FEW_UNIQUE] else [], if Varies(w) then [HIGH_VARIANCE] else [], x);
      SaysAll(w, x);
      ReasonsMembers(w, x);
    }
  }

  lemma InThree(a: seq<string>, b: seq<string>, c: seq<string>, x: string)
    ensures x in a + b + c <==> x in a || x in b || x in c
  {
  }

  lemma SaysAll(w: seq<Observation>, x: string)
    ensures (exists i :: 0 <= i < |w| && Says(w[i], x)) <==>
            || (x == FEW_CLUSTERS && exists i :: 0 <= i < |w| && |w[i].clusters| < 10)
            || (x == LOW_SUCCESS && exists i :: 0 <= i < |w| && !Successful(w[i]))
            || (x == NO_PLATEAU && exists i :: 0 <= i < |w| && !Flat(w[i]))
  {
    hide Successful, Flat;
  }

  lemma ReasonsMembers(w: seq<Observation>, x: string)
    requires V.Counted(Gains(w)) && |w| >= 2
    ensures x in Reasons(w) <==>
            || (x == FEW_CLUSTERS && exists i :: 0 <= i < |w| && |w[i].clusters| < 10)
            || (x == LOW_SUCCESS && exists i :: 0 <= i < |w| && !Successful(w[i]))
            || (x == NO_PLATEAU && exists i :: 0 <= i < |w| && !Flat(w[i]))
            || (x == REUSED && !Disjoint(w))
            || (x == FEW_UNIQUE && |ClusterSet(w)| < 30)
            || (x == HIGH_VARIANCE && Varies(w))
  {
    hide Disjoint, Successful, Flat, Varies, V.Counted, ClusterSet;
  }

  lemma SeenCount(w: seq<Observation>)
    ensures |Ordered(AllClusters(w))| == |ClusterSet(w)|
  {
    hide Ordered, ClusterSet;
    var all := Ordered(AllClusters(w));
    OrderedSorted(AllClusters(w));
    ListedCount(all);
    ClustersListed(w);
    assert Listed(all) == ClusterSet(w);
  }

  /** The window of three cycles, read once. */
  method DetectWindow(w: seq<Observation>, environment: Digest, grader: Digest) returns (r: Result<Signal>)
    requires |w| == 3 && forall i :: 0 <= i < |w| ==> ValidObservation(w[i])
    requires forall i :: 0 <= i < |w| ==> w[i].environment == environment && w[i].grader == grader
    ensures r == Ok(WindowSignal(w))
  {
    hide ValidObservation, Ordered, AllClusters, Says, Reasons, V.SampleVariance, V.Counted, V.Window, V.UnbiasedVariance;
    hide ClusterSet, Disjoint;
    WindowCounted(w);
    var reasons: seq<string> := [];
    var means: seq<int> := [];
    var gains: seq<V.Gain> := [];
    var seen: seq<string> := [];
    NothingGathered(w);
    for k := 0 to 3
      invariant Gathered(reasons, w, k) && seen == Ordered(AllClusters(w[..k]))
      invariant means == MeanGains(w)[..k] && gains == Gains(w)[..k]
    {
      ObservationSensible(w[k]);
      ObservationParts(w[k]);
      ClustersDistinct(w[k]);
      var said := CycleReasons(w[k], environment, grader);
      var more, reused := AddClusters(seen, w[k], AllClusters(w[..k]));
      GatherStep(reasons, w, k, said, reused);
      DisjointStep(w, k);
      reasons, seen := reasons + said + (if reused then [REUSED] else []), more;
      means := means + [TruncDiv(GainSum(w[k].gains), |w[k].gains|)];
      gains := gains + [GainOf(w[k])];
      assert MeanGains(w)[..k + 1] == MeanGains(w)[..k] + [MeanGains(w)[k]];
      assert Gains(w)[..k + 1] == Gains(w)[..k] + [Gains(w)[k]];
    }
    assert w[..3] == w && gains == Gains(w) && means == MeanGains(w);
    V.WindowNeverOverflows(gains, 1_000_000_000);
    V.VarianceMeaning(gains, 1_000_000_000);
    GatheredAll(reasons, w, seen);
    var variance := V.SampleVariance(gains, 1_000_000_000);
    reasons := reasons + (if |seen| < 30 then [FEW_UNIQUE] else []);
    if variance.Err? {
      return Err(Invalid);
    }
    reasons := reasons + (if variance.value.exceeds then [HIGH_VARIANCE] else []);
    OrderedSame(reasons, Reasons(w));
    if reasons != [] {
      return Ok(NotTriggered(Ordered(reasons)));
    }
    return Ok(PlateauProbe(CycleIds(w), seen, means, variance.value.display));
  }

  lemma ObservationParts(o: Observation)
    requires ValidObservation(o)
    ensures o.clusters != [] && o.gains != []
  {
  }

  lemma NothingGathered(w: seq<Observation>)
    ensures Gathered([], w, 0) && Ordered(AllClusters(w[..0])) == []
  {
  }

  method Gaps(buckets: seq<Bucket>) returns (ids: seq<string>)
    ensures ids == GapIds(buckets)
  {
    ids := [];
    for i := 0 to |buckets|
      invariant ids == GapIds(buckets[..i])
    {
      assert buckets[..i + 1][..i] == buckets[..i] && buckets[..i + 1][i] == buckets[i];
      if buckets[i].observed < buckets[i].required {
        ids := ids + [buckets[i].id];
      }
    }
    assert buckets[..|buckets|] == buckets;
  }

  /** The version 2 trigger. A valid profile and state never make it fail. */
  method DetectPlateauSignal(profile: Profile, c: Core) returns (r: Result<Signal>)
    ensures r.Ok? <==> ValidProfile(profile) && ValidCore(c)
    ensures r.Ok? ==> r.value == SignalOf(c)
  {
    hide IsIdentifier, IsDigest, ValidObservation, WindowSignal, ValidAssets, ValidBuckets, GapIds, Distinct, AllIdentifiers;
    if !ValidProfile(profile) || !ValidCore(c) {
      return Err(Invalid);
    }
    if c.cooldown > 0 {
      return Ok(NotTriggered(["cooldown"]));
    }
    if c.failureClusters != [] {
      return Ok(FailureGap(c.failureClusters));
    }
    var gaps := Gaps(c.buckets);
    if gaps != [] {
      return Ok(CoverageGap(gaps));
    }
    if |c.cycles| < profile.windowCycles {
      return Ok(ColdStart);
    }
    r := DetectWindow(LastThree(c.cycles), c.environment, c.grader);
  }

  // ---- version 3 ----

  function Registered(clusters: seq<string>, buckets: seq<Bucket>): seq<string> {
    if clusters == [] then []
    else
      var front, last := Registered(clusters[..|clusters| - 1], buckets), clusters[|clusters| - 1];
      if exists i :: 0 <= i < |buckets| && buckets[i].id == last then front + [last] else front
  }

  /** The state as version 2 sees it once the records have decided the failure gap. */
  function WithoutFailures(c: Core): Core {
    c.(failureClusters := [])
  }

  function SignalV3(d: Data): Signal
    requires ValidData(d)
  {
    var active := ActiveClusters(d.records);
    WithoutValid(d.core);
    if d.core.cooldown > 0 then NotTriggered(["cooldown"])
    else if Registered(active, d.core.buckets) != [] then FailureGap(Registered(active, d.core.buckets))
    else if active != [] && SignalOf(WithoutFailures(d.core)).NotTriggered? then NotTriggered([UNSUPPORTED])
    else SignalOf(WithoutFailures(d.core))
  }

  lemma WithoutValid(c: Core)
    requires ValidCore(c)
    ensures ValidCore(WithoutFailures(c))
  {
    hide IsIdentifier, IsDigest, ValidObservation, ValidAssets, ValidBuckets;
  }

  method RegisteredClusters(active: seq<string>, buckets: seq<Bucket>) returns (r: seq<string>)
    ensures r == Registered(active, buckets)
  {
    var ids := set i | 0 <= i < |buckets| :: buckets[i].id;
    r := [];
    for i := 0 to |active|
      invariant r == Registered(active[..i], buckets)
    {
      assert active[..i + 1][..i] == active[..i] && active[..i + 1][i] == active[i];
      assert active[i] in ids <==> exists j :: 0 <= j < |buckets| && buckets[j].id == active[i];
      if active[i] in ids {
        r := r + [active[i]];
      }
    }
    assert active[..|active|] == active;
  }

  /** The version 3 trigger. */
  method DetectPlateauSignalV3(profile: Profile, d: Data) returns (r: Result<Signal>)
    ensures r.Ok? <==> ValidProfile(profile) && ValidData(d)
    ensures r.Ok? ==> r.value == SignalV3(d)
  {
    hide ValidProfile, ValidCore, ActiveClusters, GapIds, ValidRecords, ReleasesApplied, ValidMarks, WindowSignal;
    if !ValidProfile(profile) || !ValidData(d) {
      return Err(Invalid);
    }
    WithoutValid(d.core);
    if d.core.cooldown > 0 {
      return Ok(NotTriggered(["cooldown"]));
    }
    var active := ActiveClusters(d.records);
    var registered := RegisteredClusters(active, d.core.buckets);
    if active != [] {
      if registered != [] {
        return Ok(FailureGap(registered));
      }
    }
    var gaps := Gaps(d.core.buckets);
    if gaps != [] {
      return Ok(CoverageGap(gaps));
    }
    var signal := DetectPlateauSignal(profile, WithoutFailures(d.core));
    if signal.Err? {
      return signal;
    }
    if active != [] && signal.value.NotTriggered? {
      return Ok(NotTriggered([UNSUPPORTED]));
    }
    return signal;
  }

  /** Without an active absolute failure the version 3 trigger is the version 2 trigger on the state whose
      failure clusters are emptied; and version 3 only ever reports registered clusters as a failure gap. */
  lemma VersionsAgree(d: Data)
    requires ValidData(d)
    ensures ValidCore(WithoutFailures(d.core))
    ensures ActiveClusters(d.records) == [] ==> SignalV3(d) == SignalOf(WithoutFailures(d.core))
    ensures SignalV3(d).FailureGap? ==>
              forall x :: x in SignalV3(d).clusters <==>
                            x in ActiveClusters(d.records) && exists i :: 0 <= i < |d.core.buckets| && d.core.buckets[i].id == x
  {
    hide ValidProfile, ValidCore, ActiveClusters, GapIds, ValidRecords, ReleasesApplied, ValidMarks, WindowSignal;
    WithoutValid(d.core);
    RegisteredMembers(ActiveClusters(d.records), d.core.buckets);
  }

  lemma {:induction false} RegisteredMembers(clusters: seq<string>, buckets: seq<Bucket>)
    ensures forall x :: x in Registered(clusters, buckets) <==>
                          x in clusters && exists i :: 0 <= i < |buckets| && buckets[i].id == x
    ensures clusters == [] ==> Registered(clusters, buckets) == []
  {
    if clusters != [] {
      var n := |clusters| - 1;
      RegisteredMembers(clusters[..n], buckets);
      assert clusters == clusters[..n] + [clusters[n]];
    }
  }
}
