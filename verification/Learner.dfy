/** The learner state: its fields, its validity, and what each operation makes of it. */
module Learner {
  import opened Wrappers
  import opened Texts
  import opened Records
  import opened Ordering
  import Json

  datatype Observation = Observation(
    id: string,
    environment: Digest,
    grader: Digest,
    clusters: seq<string>,
    successful: nat,
    gains: seq<int>,
    sources: seq<string>)

  datatype Bucket = Bucket(id: string, source: string, observed: nat, required: nat)

  datatype Asset = Asset(release: string, bundle: Digest, application: string, receipt: string)

  /** The fields version 2 and version 3 share. */
  datatype Core = Core(
    id: string,
    profile: string,
    skill: Digest,
    digests: seq<Digest>,
    environment: Digest,
    grader: Digest,
    sources: seq<string>,
    facts: seq<string>,
    cycles: seq<Observation>,
    failureClusters: seq<string>,
    buckets: seq<Bucket>,
    applied: seq<Asset>,
    probe: Option<string>,
    window: Option<Digest>,
    cooldown: nat)

  datatype Mark = Mark(family: string, release: string, consumed: bool)

  datatype Data = Data(core: Core, records: seq<FailureRecord>, marks: seq<Mark>)

  // ---- validity ----

  predicate AllIdentifiers(xs: seq<string>) {
    forall i :: 0 <= i < |xs| ==> IsIdentifier(xs[i])
  }

  predicate ValidObservation(o: Observation) {
    && IsIdentifier(o.id) && IsDigest(o.environment) && IsDigest(o.grader)
    && 0 < |o.clusters| <= 10_000 && |o.clusters| == |o.gains| && o.successful <= |o.clusters|
    && (forall i :: 0 <= i < |o.gains| ==> -1_000_000 <= o.gains[i] <= 1_000_000)
    && AllIdentifiers(o.clusters) && Distinct(o.clusters)
    && o.sources != [] && AllIdentifiers(o.sources) && Distinct(o.sources)
  }

  predicate ValidBuckets(buckets: seq<Bucket>, sources: seq<string>) {
    && (forall i :: 0 <= i < |buckets| ==>
          && IsIdentifier(buckets[i].id) && IsIdentifier(buckets[i].source) && buckets[i].source in sources
          && buckets[i].required > 0)
    && forall i, j :: 0 <= i < j < |buckets| ==> buckets[i].id != buckets[j].id
  }

  predicate ValidAsset(a: Asset) {
    IsIdentifier(a.release) && IsIdentifier(a.application) && IsIdentifier(a.receipt) && IsDigest(a.bundle)
  }

  predicate ValidAssets(applied: seq<Asset>) {
    && (forall i :: 0 <= i < |applied| ==> ValidAsset(applied[i]))
    && forall i, j :: 0 <= i < j < |applied| ==> applied[i].release != applied[j].release
  }

  /** The fields no operation on records, marks and assets touches. */
  predicate ValidRest(c: Core) {
    && IsIdentifier(c.id) && IsIdentifier(c.profile)
    && (forall i :: 0 <= i < |c.digests| ==> IsDigest(c.digests[i]))
    && IsDigest(c.environment) && IsDigest(c.grader)
    && (forall i :: 0 <= i < |c.cycles| ==>
          && ValidObservation(c.cycles[i]) && c.cycles[i].environment == c.environment && c.cycles[i].grader == c.grader
          && forall j :: 0 <= j < |c.cycles[i].sources| ==> c.cycles[i].sources[j] in c.facts)
    && (forall i, j :: 0 <= i < j < |c.cycles| ==> c.cycles[i].id != c.cycles[j].id)
    && c.sources != [] && AllIdentifiers(c.sources) && Distinct(c.sources)
    && AllIdentifiers(c.facts) && Distinct(c.facts)
    && ValidBuckets(c.buckets, c.sources)
    && (c.probe.Some? ==> IsIdentifier(c.probe.value))
    && (c.window.Some? ==> IsDigest(c.window.value))
  }

  /** A valid version 2 state. */
  predicate ValidCore(c: Core) {
    ValidRest(c) && IsDigest(c.skill) && AllIdentifiers(c.failureClusters) && Distinct(c.failureClusters)
    && ValidAssets(c.applied)
  }

  predicate IsApplied(applied: seq<Asset>, release: string) {
    exists i :: 0 <= i < |applied| && applied[i].release == release
  }

  predicate ReleasesApplied(records: seq<FailureRecord>, applied: seq<Asset>) {
    forall i :: 0 <= i < |records| && records[i].retestRelease.Some? ==> IsApplied(applied, records[i].retestRelease.value)
  }

  predicate ValidMark(m: Mark) {
    IsIdentifier(m.family) && IsIdentifier(m.release)
  }

  predicate SamePlace(a: Mark, b: Mark) {
    a.family == b.family && a.release == b.release
  }

  predicate ValidMarks(marks: seq<Mark>, applied: seq<Asset>) {
    && (forall i :: 0 <= i < |marks| ==> ValidMark(marks[i]) && IsApplied(applied, marks[i].release))
    && forall i, j :: 0 <= i < j < |marks| ==> !SamePlace(marks[i], marks[j])
  }

  /** A valid version 3 state. */
  predicate ValidData(d: Data) {
    && ValidCore(d.core) && ValidRecords(d.records)
    && d.core.failureClusters == ActiveClusters(d.records)
    && ReleasesApplied(d.records, d.core.applied)
    && ValidMarks(d.marks, d.core.applied)
  }

  // ---- the active failure clusters ----

  predicate Gap(r: FailureRecord) {
    r.status == Active && r.kind == Some(AbsoluteFailure)
  }

  function GapClusters(records: seq<FailureRecord>): seq<string> {
    if records == [] then []
    else
      var n := |records| - 1;
      if Gap(records[n]) then GapClusters(records[..n]) + [records[n].cluster] else GapClusters(records[..n])
  }

  lemma {:induction false} GapClustersAre(records: seq<FailureRecord>)
    ensures forall x :: x in GapClusters(records) <==> exists i :: 0 <= i < |records| && Gap(records[i]) && records[i].cluster == x
  {
    if records != [] {
      var n := |records| - 1;
      GapClustersAre(records[..n]);
      assert records == records[..n] + [records[n]];
    }
  }

  /** The clusters with an active absolute failure, sorted, each once. */
  function ActiveClusters(records: seq<FailureRecord>): seq<string> {
    Ordered(GapClusters(records))
  }

  lemma ActiveClustersAre(records: seq<FailureRecord>)
    ensures forall x :: x in ActiveClusters(records) <==>
              exists i :: 0 <= i < |records| && Gap(records[i]) && records[i].cluster == x
  {
    GapClustersAre(records);
  }

  lemma ActiveClustersValid(records: seq<FailureRecord>)
    requires forall i :: 0 <= i < |records| ==> ValidRecord(records[i])
    ensures AllIdentifiers(ActiveClusters(records)) && Distinct(ActiveClusters(records))
  {
    hide IsIdentifier, Ordered;
    OrderedSorted(GapClusters(records));
    ActiveClustersAre(records);
    var all := ActiveClusters(records);
    forall i | 0 <= i < |all|
      ensures IsIdentifier(all[i])
    {
      assert all[i] in all;
    }
  }

  // ---- applying an asset ----

  function AssetSlot(assets: seq<Asset>, release: string): (i: nat)
    ensures i <= |assets|
  {
    if assets == [] then 0
    else if Less(release, assets[|assets| - 1].release) then AssetSlot(assets[..|assets| - 1], release)
    else |assets|
  }

  /** Stable sort by release. */
  function SortAssets(assets: seq<Asset>): (r: seq<Asset>)
    ensures |r| == |assets|
  {
    if assets == [] then []
    else
      var front, last := SortAssets(assets[..|assets| - 1]), assets[|assets| - 1];
      Json.InsertAt(front, AssetSlot(front, last.release), last)
  }

  lemma {:induction false} SortAssetsKeeps(assets: seq<Asset>)
    requires ValidAssets(assets)
    ensures ValidAssets(SortAssets(assets))
    ensures forall a :: a in SortAssets(assets) <==> a in assets
  {
    hide IsIdentifier, IsDigest, AssetSlot;
    if assets != [] {
      var n := |assets| - 1;
      var front := SortAssets(assets[..n]);
      SortAssetsKeeps(assets[..n]);
      assert assets == assets[..n] + [assets[n]];
      forall i | 0 <= i < |front|
        ensures front[i].release != assets[n].release
      {
        assert front[i] in front;
      }
    }
  }

  lemma AppliedIs(applied: seq<Asset>, release: string)
    ensures IsApplied(applied, release) <==> exists a :: a in applied && a.release == release
  {
    if exists a :: a in applied && a.release == release {
      var a :| a in applied && a.release == release;
      var i :| 0 <= i < |applied| && applied[i] == a;
    }
  }

  /** An active record of a bound family becomes due for a retest. */
  function Due(r: FailureRecord, families: seq<string>, release: string): FailureRecord {
    if r.status == Active && r.cluster in families then
      r.(status := RetestDue, note := Some("retest_after:" + release), retestRelease := Some(release))
    else r
  }

  function DueAll(records: seq<FailureRecord>, families: seq<string>, release: string): (r: seq<FailureRecord>)
    ensures |r| == |records| && forall i :: 0 <= i < |r| ==> r[i] == Due(records[i], families, release)
  {
    seq(|records|, i requires 0 <= i < |records| => Due(records[i], families, release))
  }

  predicate HasMark(marks: seq<Mark>, family: string, release: string) {
    exists i :: 0 <= i < |marks| && marks[i].family == family && marks[i].release == release
  }

  /** One unconsumed mark for every family that has none for the release yet. */
  function Marked(marks: seq<Mark>, families: seq<string>, release: string): (r: seq<Mark>)
    ensures |marks| <= |r| && r[..|marks|] == marks
    ensures forall i :: |marks| <= i < |r| ==> r[i].release == release && !r[i].consumed && r[i].family in families
  {
    if families == [] then marks
    else
      var front, family := Marked(marks, families[..|families| - 1], release), families[|families| - 1];
      if HasMark(front, family, release) then front else front + [Mark(family, release, false)]
  }

  function AfterAsset(d: Data, asset: Asset, families: seq<string>): Data {
    var records := DueAll(d.records, families, asset.release);
    Data(d.core.(skill := SkillAfter(d.core.skill, asset.release, asset.bundle),
                 applied := SortAssets(d.core.applied + [asset]),
                 failureClusters := ActiveClusters(records)),
         records,
         Marked(d.marks, Ordered(families), asset.release))
  }

  // ---- consuming a mark, voiding a release ----

  function Selected(r: FailureRecord, family: string, release: string): FailureRecord {
    if r.cluster == family && r.status == RetestDue then
      r.(status := Active, note := Some("retest_selected:" + release), retestRelease := None)
    else r
  }

  function SelectedAll(records: seq<FailureRecord>, family: string, release: string): (r: seq<FailureRecord>)
    ensures |r| == |records| && forall i :: 0 <= i < |r| ==> r[i] == Selected(records[i], family, release)
  {
    seq(|records|, i requires 0 <= i < |records| => Selected(records[i], family, release))
  }

  /** The first unconsumed mark of the family for the release. */
  function Unconsumed(marks: seq<Mark>, family: string, release: string): (r: Option<nat>)
    ensures r.Some? ==> r.value < |marks| && marks[r.value] == Mark(family, release, false)
    ensures r.None? ==> Mark(family, release, false) !in marks
  {
    if marks == [] then None
    else if marks[0] == Mark(family, release, false) then Some(0)
    else match Unconsumed(marks[1..], family, release) case None => None case Some(i) => Some(i + 1)
  }

  function AfterConsume(d: Data, family: string, release: string): Data
    requires Unconsumed(d.marks, family, release).Some?
  {
    var i := Unconsumed(d.marks, family, release).value;
    var records := SelectedAll(d.records, family, release);
    Data(d.core.(failureClusters := ActiveClusters(records)), records, d.marks[i := d.marks[i].(consumed := true)])
  }

  function Voided(r: FailureRecord, release: string): FailureRecord {
    if r.status == RetestDue && r.retestRelease == Some(release) then
      r.(status := Active, note := Some("retest_void:" + release), retestRelease := None)
    else r
  }

  function VoidedAll(records: seq<FailureRecord>, release: string): (r: seq<FailureRecord>)
    ensures |r| == |records| && forall i :: 0 <= i < |r| ==> r[i] == Voided(records[i], release)
  {
    seq(|records|, i requires 0 <= i < |records| => Voided(records[i], release))
  }

  function AfterVoid(d: Data, release: string): Data {
    var records := VoidedAll(d.records, release);
    Data(d.core.(failureClusters := ActiveClusters(records)), records, d.marks)
  }

  /** The failure part of reducing a cycle into the state. */
  function AfterCycle(d: Data, c: Cycle): Data {
    var records := Reduced(d.records, c);
    Data(d.core.(failureClusters := ActiveClusters(records)), records, d.marks)
  }

  // ---- validity is kept ----

  predicate Retouched(a: FailureRecord, b: FailureRecord) {
    SameHistory(a, b) && (ValidRecord(a) ==> ValidRecord(b))
  }

  lemma DueValid(r: FailureRecord, families: seq<string>, release: string)
    requires IsIdentifier(release)
    ensures Retouched(r, Due(r, families, release))
  {
    hide IsIdentifier, IsDigest, IsText;
    NotedIdentifier("retest_after:", release);
    NotLegacy("retest_after:", release);
  }

  lemma SelectedValid(r: FailureRecord, family: string, release: string)
    requires IsIdentifier(release)
    ensures Retouched(r, Selected(r, family, release))
  {
    hide IsIdentifier, IsDigest, IsText;
    NotedIdentifier("retest_selected:", release);
    NotLegacy("retest_selected:", release);
  }

  lemma VoidedValid(r: FailureRecord, release: string)
    requires IsIdentifier(release)
    ensures Retouched(r, Voided(r, release))
  {
    hide IsIdentifier, IsDigest, IsText;
    NotedIdentifier("retest_void:", release);
    NotLegacy("retest_void:", release);
  }

  lemma RetouchedAll(before: seq<FailureRecord>, after: seq<FailureRecord>)
    requires |before| == |after| && forall i :: 0 <= i < |before| ==> Retouched(before[i], after[i])
    ensures AppendOnly(before, after)
    ensures ValidRecords(before) ==> ValidRecords(after)
  {
    hide ValidRecord;
  }

  lemma CoreWith(core: Core, records: seq<FailureRecord>)
    requires ValidCore(core) && forall i :: 0 <= i < |records| ==> ValidRecord(records[i])
    ensures ValidCore(core.(failureClusters := ActiveClusters(records)))
  {
    hide ValidRecord, ActiveClusters, IsIdentifier, IsDigest, ValidAssets;
    ActiveClustersValid(records);
  }

  lemma CycleKeepsValid(d: Data, c: Cycle)
    requires ValidData(d) && Reducible(d.records, c)
    ensures ValidData(AfterCycle(d, c))
  {
    hide ValidRecord, ActiveClusters, ValidMarks, Reducible, ValidCore, Reduced, IsApplied;
    ReducedValid(d.records, c);
    CoreWith(d.core, Reduced(d.records, c));
    ReducedReleases(d.records, c, d.core.applied);
  }

  lemma ReducedReleases(records: seq<FailureRecord>, c: Cycle, applied: seq<Asset>)
    requires ReleasesApplied(records, applied)
    ensures ReleasesApplied(Reduced(records, c), applied)
  {
    hide IsApplied;
    var all := Reduced(records, c);
    forall i | 0 <= i < |all| && all[i].retestRelease.Some?
      ensures IsApplied(applied, all[i].retestRelease.value)
    {
      if i >= |records| {
        var k := NewRecordSource(c.outcomes, c, i - |records|);
      }
    }
  }

  lemma VoidKeepsValid(d: Data, release: string)
    requires ValidData(d) && IsIdentifier(release)
    ensures ValidData(AfterVoid(d, release)) && AppendOnly(d.records, AfterVoid(d, release).records)
  {
    hide ValidRecord, ActiveClusters, ValidMarks, ValidCore, IsApplied, Retouched, IsIdentifier;
    var after := VoidedAll(d.records, release);
    forall i | 0 <= i < |after|
      ensures Retouched(d.records[i], after[i])
    {
      VoidedValid(d.records[i], release);
    }
    RetouchedAll(d.records, after);
    CoreWith(d.core, after);
  }

  lemma ConsumeKeepsValid(d: Data, family: string, release: string)
    requires ValidData(d) && Unconsumed(d.marks, family, release).Some?
    ensures ValidData(AfterConsume(d, family, release))
    ensures AppendOnly(d.records, AfterConsume(d, family, release).records)
  {
    hide ValidRecord, ActiveClusters, ValidCore, IsApplied, Retouched, IsIdentifier;
    var after := SelectedAll(d.records, family, release);
    forall i | 0 <= i < |after|
      ensures Retouched(d.records[i], after[i])
    {
      SelectedValid(d.records[i], family, release);
    }
    RetouchedAll(d.records, after);
    CoreWith(d.core, after);
  }

  lemma {:induction false} MarkedValid(marks: seq<Mark>, families: seq<string>, release: string, applied: seq<Asset>)
    requires ValidMarks(marks, applied) && IsIdentifier(release) && IsApplied(applied, release) && AllIdentifiers(families)
    ensures ValidMarks(Marked(marks, families, release), applied)
    ensures forall f :: f in families ==> HasMark(Marked(marks, families, release), f, release)
  {
    hide IsIdentifier, IsApplied;
    if families != [] {
      var n := |families| - 1;
      assert families == families[..n] + [families[n]];
      MarkedValid(marks, families[..n], release, applied);
      var front := Marked(marks, families[..n], release);
      var all := Marked(marks, families, release);
      forall f | f in families
        ensures HasMark(all, f, release)
      {
        if f != families[n] {
          var i :| 0 <= i < |front| && front[i].family == f && front[i].release == release;
          assert all[i] == front[i];
        } else if !HasMark(front, f, release) {
          assert all[|front|] == Mark(f, release, false);
        }
      }
    }
  }

  lemma AppliedGrows(applied: seq<Asset>, asset: Asset, release: string)
    requires ValidAssets(applied + [asset])
    ensures IsApplied(SortAssets(applied + [asset]), release) <==> IsApplied(applied, release) || asset.release == release
  {
    hide SortAssets, ValidAssets;
    SortAssetsKeeps(applied + [asset]);
    AppliedIs(applied, release);
    AppliedIs(SortAssets(applied + [asset]), release);
    assert forall a :: a in applied + [asset] <==> a in applied || a == asset;
  }

  lemma AssetAppended(applied: seq<Asset>, asset: Asset)
    requires ValidAssets(applied) && ValidAsset(asset) && !IsApplied(applied, asset.release)
    ensures ValidAssets(applied + [asset])
  {
    hide ValidAsset;
  }

  lemma MarksGrow(marks: seq<Mark>, applied: seq<Asset>, more: seq<Asset>)
    requires ValidMarks(marks, applied)
    requires forall release :: IsApplied(applied, release) ==> IsApplied(more, release)
    ensures ValidMarks(marks, more)
  {
    hide IsApplied, ValidMark;
  }

  lemma DueReleases(records: seq<FailureRecord>, families: seq<string>, release: string, applied: seq<Asset>, more: seq<Asset>)
    requires ReleasesApplied(records, applied) && IsApplied(more, release)
    requires forall release :: IsApplied(applied, release) ==> IsApplied(more, release)
    ensures ReleasesApplied(DueAll(records, families, release), more)
  {
    hide IsApplied;
  }

  lemma OrderedIdentifiers(families: seq<string>)
    requires AllIdentifiers(families)
    ensures AllIdentifiers(Ordered(families))
  {
    hide IsIdentifier, Ordered;
    var all := Ordered(families);
    forall i | 0 <= i < |all|
      ensures IsIdentifier(all[i])
    {
      assert all[i] in all;
    }
  }

  lemma AssetKeepsValid(d: Data, asset: Asset, families: seq<string>)
    requires ValidData(d) && ValidAsset(asset) && !IsApplied(d.core.applied, asset.release)
    requires AllIdentifiers(families)
    ensures ValidData(AfterAsset(d, asset, families))
    ensures AppendOnly(d.records, AfterAsset(d, asset, families).records)
    ensures forall f :: f in families ==> HasMark(AfterAsset(d, asset, families).marks, f, asset.release)
  {
    hide ValidRecord, ActiveClusters, IsApplied, Retouched, IsIdentifier, Marked, SortAssets, ValidAssets, ValidMarks;
    hide AllIdentifiers, Ordered, HasMark, AppendOnly, ReleasesApplied, ValidRest, Distinct;
    var release := asset.release;
    var after := DueAll(d.records, families, release);
    var applied := SortAssets(d.core.applied + [asset]);
    forall i | 0 <= i < |after|
      ensures Retouched(d.records[i], after[i])
    {
      DueValid(d.records[i], families, release);
    }
    RetouchedAll(d.records, after);
    ActiveClustersValid(after);
    AssetAppended(d.core.applied, asset);
    SortAssetsKeeps(d.core.applied + [asset]);
    forall other
      ensures IsApplied(applied, other) <==> IsApplied(d.core.applied, other) || release == other
    {
      AppliedGrows(d.core.applied, asset, other);
    }
    MarksGrow(d.marks, d.core.applied, applied);
    OrderedIdentifiers(families);
    MarkedValid(d.marks, Ordered(families), release, applied);
    DueReleases(d.records, families, release, d.core.applied, applied);
    RestKept(d.core, AfterAsset(d, asset, families).core);
  }

  lemma RestKept(a: Core, b: Core)
    requires ValidRest(a) && b == a.(skill := b.skill, applied := b.applied, failureClusters := b.failureClusters)
    ensures ValidRest(b)
  {
    hide IsIdentifier, IsDigest;
  }
}
