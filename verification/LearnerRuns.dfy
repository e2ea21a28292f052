/** Whole runs of the learner state: what every sequence of successful operations keeps. */
module LearnerRuns {
  import opened Wrappers
  import opened Texts
  import opened Records
  import opened Learner
  import opened Ordering

  datatype Event =
    | CycleEvent(cycle: Cycle)
    | AssetEvent(asset: Asset, families: seq<string>)
    | ConsumeEvent(family: string, release: string)
    | VoidEvent(release: string)

  /** The operation changes the state and succeeds. */
  predicate Enabled(d: Data, e: Event) {
    match e
    case CycleEvent(c) => Reducible(d.records, c)
    case AssetEvent(asset, families) =>
      ValidAsset(asset) && !IsApplied(d.core.applied, asset.release) && families != [] && AllIdentifiers(families)
    case ConsumeEvent(family, release) => Unconsumed(d.marks, family, release).Some?
    case VoidEvent(release) => IsIdentifier(release)
  }

  function After(d: Data, e: Event): Data
    requires Enabled(d, e)
  {
    match e
    case CycleEvent(c) => AfterCycle(d, c)
    case AssetEvent(asset, families) => AfterAsset(d, asset, families)
    case ConsumeEvent(family, release) => AfterConsume(d, family, release)
    case VoidEvent(release) => AfterVoid(d, release)
  }

  /** The state after a run, if every operation of it succeeds. */
  function RunFrom(d: Data, events: seq<Event>): Option<Data> {
    if events == [] then Some(d)
    else
      var n := |events| - 1;
      var before := RunFrom(d, events[..n]);
      if before.Some? && Enabled(before.value, events[n]) then Some(After(before.value, events[n])) else None
  }

  // ---- one operation ----

  lemma StepKeepsValid(d: Data, e: Event)
    requires ValidData(d) && Enabled(d, e)
    ensures ValidData(After(d, e)) && AppendOnly(d.records, After(d, e).records)
  {
    hide ValidData, AppendOnly, Reduced, IsIdentifier, AllIdentifiers, IsApplied, Reducible, ValidAsset;
    match e
    case CycleEvent(c) =>
      CycleKeepsValid(d, c);
      ReducedAppends(d.records, c);
    case AssetEvent(asset, families) => AssetKeepsValid(d, asset, families);
    case ConsumeEvent(family, release) => ConsumeKeepsValid(d, family, release);
    case VoidEvent(release) => VoidKeepsValid(d, release);
  }

  /** Marks are only added and consumed. */
  predicate MarksKept(before: seq<Mark>, after: seq<Mark>) {
    && |before| <= |after|
    && forall i :: 0 <= i < |before| ==> SamePlace(before[i], after[i]) && (before[i].consumed ==> after[i].consumed)
  }

  lemma StepKeepsMarks(d: Data, e: Event)
    requires Enabled(d, e)
    ensures MarksKept(d.marks, After(d, e).marks)
  {
    hide ActiveClusters, Ordered, Marked, Enabled, IsIdentifier, AllIdentifiers, IsApplied, Reducible, ValidAsset;
    if e.AssetEvent? {
      var more := Marked(d.marks, Ordered(e.families), e.asset.release);
      assert forall i :: 0 <= i < |d.marks| ==> d.marks[i] == more[..|d.marks|][i] == more[i];
    }
    if e.ConsumeEvent? {
      ConsumeEnabled(d, e);
    }
  }

  lemma ConsumeEnabled(d: Data, e: Event)
    requires Enabled(d, e) && e.ConsumeEvent?
    ensures Unconsumed(d.marks, e.family, e.release).Some?
  {
  }

  /** Every retest-due record waits for a mark of its cluster and release that is not consumed. */
  predicate RetestsMarked(d: Data) {
    forall i :: 0 <= i < |d.records| && d.records[i].status == RetestDue ==> RetestMarked(d.records[i], d.marks)
  }

  predicate RetestMarked(r: FailureRecord, marks: seq<Mark>) {
    r.retestRelease.Some? && Mark(r.cluster, r.retestRelease.value, false) in marks
  }

  lemma AssetMarks(d: Data, asset: Asset, families: seq<string>, family: string)
    requires ValidData(d) && Enabled(d, AssetEvent(asset, families)) && family in families
    ensures Mark(family, asset.release, false) in AfterAsset(d, asset, families).marks
  {
    hide ValidCore, ValidRecords, ReleasesApplied, Ordered, ActiveClusters, IsIdentifier, AllIdentifiers, ValidAsset, SortAssets;
    AssetKeepsMark(d, asset, families, family);
    var marks := AfterAsset(d, asset, families).marks;
    forall i | 0 <= i < |d.marks|
      ensures marks[i].release != asset.release
    {
      assert marks[i] == marks[..|d.marks|][i] == d.marks[i];
      assert IsApplied(d.core.applied, d.marks[i].release);
    }
    var i :| 0 <= i < |marks| && marks[i].family == family && marks[i].release == asset.release;
  }

  lemma AssetKeepsMark(d: Data, asset: Asset, families: seq<string>, family: string)
    requires ValidData(d) && Enabled(d, AssetEvent(asset, families)) && family in families
    ensures HasMark(AfterAsset(d, asset, families).marks, family, asset.release)
  {
    hide ValidData, AfterAsset, IsIdentifier, AllIdentifiers, IsApplied, HasMark, AppendOnly;
    AssetKeepsValid(d, asset, families);
  }

  lemma StepKeepsRetests(d: Data, e: Event)
    requires ValidData(d) && RetestsMarked(d) && Enabled(d, e)
    ensures RetestsMarked(After(d, e))
  {
    hide ValidData, ActiveClusters, Ordered, IsIdentifier, AllIdentifiers, ValidAsset, SortAssets, IsApplied, Reducible, Marked;
    var after := After(d, e);
    forall i | 0 <= i < |after.records| && after.records[i].status == RetestDue
      ensures RetestMarked(after.records[i], after.marks)
    {
      match e
      case CycleEvent(c) =>
        if i >= |d.records| {
          var k := NewRecordSource(c.outcomes, c, i - |d.records|);
        }
      case AssetEvent(asset, families) =>
        if d.records[i].status == RetestDue {
          var mark := Mark(d.records[i].cluster, d.records[i].retestRelease.value, false);
          var j :| 0 <= j < |d.marks| && d.marks[j] == mark;
          assert after.marks[..|d.marks|][j] == after.marks[j];
        } else {
          AssetMarks(d, asset, families, d.records[i].cluster);
        }
      case ConsumeEvent(family, release) =>
        var mark := Mark(d.records[i].cluster, d.records[i].retestRelease.value, false);
        var j :| 0 <= j < |d.marks| && d.marks[j] == mark;
        assert after.marks[j] == mark;
      case VoidEvent(release) =>
    }
  }

  // ---- whole runs ----

  /** Every reachable state is valid; its history only grew; its marks were only added and consumed. */
  lemma {:induction false} RunKeeps(d: Data, events: seq<Event>)
    requires ValidData(d) && RunFrom(d, events).Some?
    ensures var after := RunFrom(d, events).value;
            && ValidData(after) && AppendOnly(d.records, after.records) && MarksKept(d.marks, after.marks)
            && (RetestsMarked(d) ==> RetestsMarked(after))
  {
    hide ValidData, AppendOnly, After, Enabled, RetestsMarked, MarksKept;
    if events == [] {
      AppendOnlySelf(d.records, d.marks);
    } else {
      var n := |events| - 1;
      RunKeeps(d, events[..n]);
      var before := RunFrom(d, events[..n]).value;
      StepKeepsValid(before, events[n]);
      StepKeepsMarks(before, events[n]);
      if RetestsMarked(d) {
        StepKeepsRetests(before, events[n]);
      }
      AppendOnlyTransitive(d.records, before.records, After(before, events[n]).records);
      MarksTransitive(d.marks, before.marks, After(before, events[n]).marks);
    }
  }

  lemma AppendOnlySelf(records: seq<FailureRecord>, marks: seq<Mark>)
    ensures AppendOnly(records, records) && MarksKept(marks, marks)
  {
  }

  lemma MarksTransitive(a: seq<Mark>, b: seq<Mark>, c: seq<Mark>)
    requires MarksKept(a, b) && MarksKept(b, c)
    ensures MarksKept(a, c)
  {
  }

  lemma UniqueMark(marks: seq<Mark>, applied: seq<Asset>, family: string, release: string, i: nat, j: nat)
    requires ValidMarks(marks, applied) && i < |marks| && j < |marks|
    requires marks[i].family == marks[j].family == family && marks[i].release == marks[j].release == release
    ensures i == j
  {
    hide ValidMark, IsApplied;
    assert SamePlace(marks[i], marks[j]) && SamePlace(marks[j], marks[i]);
  }

  function Consumptions(events: seq<Event>, family: string, release: string): nat {
    if events == [] then 0
    else Consumptions(events[..|events| - 1], family, release) +
         if events[|events| - 1] == ConsumeEvent(family, release) then 1 else 0
  }

  predicate Spent(marks: seq<Mark>, family: string, release: string) {
    Mark(family, release, true) in marks
  }

  lemma StepSpends(d: Data, e: Event, family: string, release: string)
    requires ValidData(d) && Enabled(d, e)
    ensures Spent(d.marks, family, release) ==> Spent(After(d, e).marks, family, release)
    ensures Spent(d.marks, family, release) ==> e != ConsumeEvent(family, release)
    ensures e == ConsumeEvent(family, release) ==> Spent(After(d, e).marks, family, release)
  {
    hide ValidCore, ValidRecords, ReleasesApplied, ActiveClusters, IsApplied, After, Enabled, ValidMarks;
    if Spent(d.marks, family, release) {
      var i :| 0 <= i < |d.marks| && d.marks[i] == Mark(family, release, true);
      StepKeepsMarks(d, e);
      assert After(d, e).marks[i] == Mark(family, release, true);
      if e == ConsumeEvent(family, release) {
        ConsumeEnabled(d, e);
        UniqueMark(d.marks, d.core.applied, family, release, i, Unconsumed(d.marks, family, release).value);
      }
    } else if e == ConsumeEvent(family, release) {
      ConsumeSpends(d, family, release);
    }
  }

  lemma ConsumeSpends(d: Data, family: string, release: string)
    requires Enabled(d, ConsumeEvent(family, release))
    ensures Spent(After(d, ConsumeEvent(family, release)).marks, family, release)
  {
    hide ActiveClusters;
    var i := Unconsumed(d.marks, family, release).value;
    assert After(d, ConsumeEvent(family, release)).marks[i] == Mark(family, release, true);
  }

  /** In any run a family's mark for a release is consumed at most once. */
  lemma {:induction false} ConsumedOnce(d: Data, events: seq<Event>, family: string, release: string)
    requires ValidData(d) && RunFrom(d, events).Some?
    ensures Consumptions(events, family, release) <= 1
    ensures Consumptions(events, family, release) == 1 || Spent(d.marks, family, release) ==>
              Spent(RunFrom(d, events).value.marks, family, release)
    ensures Spent(d.marks, family, release) ==> Consumptions(events, family, release) == 0
  {
    hide ValidData, After, Enabled, Spent;
    if events != [] {
      var n := |events| - 1;
      ConsumedOnce(d, events[..n], family, release);
      RunKeeps(d, events[..n]);
      StepSpends(RunFrom(d, events[..n]).value, events[n], family, release);
    }
  }

  // ---- open records and the current run of cycles ----

  predicate OpenFor(records: seq<FailureRecord>, cluster: string, kind: Kind) {
    exists i :: 0 <= i < |records| && OpenAs(records[i], cluster, kind)
  }

  predicate OpenAs(r: FailureRecord, cluster: string, kind: Kind) {
    Open(r) && r.cluster == cluster && r.kind == Some(kind)
  }

  function Cycles(events: seq<Event>): seq<Cycle> {
    if events == [] then []
    else
      var front, last := Cycles(events[..|events| - 1]), events[|events| - 1];
      if last.CycleEvent? then front + [last.cycle] else front
  }

  predicate SameContext(a: Cycle, b: Cycle) {
    a.environment == b.environment && a.grader == b.grader
  }

  /** The longest end of the cycles in which environment and grader do not change. */
  function CurrentRun(cycles: seq<Cycle>): (r: seq<Cycle>)
    ensures cycles != [] ==> r != [] && r[|r| - 1] == cycles[|cycles| - 1]
  {
    if cycles == [] then []
    else
      var n := |cycles| - 1;
      var front := CurrentRun(cycles[..n]);
      if front != [] && SameContext(front[|front| - 1], cycles[n]) then front + [cycles[n]] else [cycles[n]]
  }

  predicate Failed(c: Cycle, cluster: string) {
    var o := OutcomeOf(c.outcomes, cluster);
    o.Some? && !o.value.passed
  }

  predicate Regressed(c: Cycle, cluster: string) {
    var o := OutcomeOf(c.outcomes, cluster);
    o.Some? && Regresses(o.value)
  }

  /** A pass that does not regress. */
  predicate CleanPass(c: Cycle, cluster: string) {
    var o := OutcomeOf(c.outcomes, cluster);
    o.Some? && o.value.passed && o.value.gain >= 0
  }

  predicate Silent(c: Cycle, cluster: string) {
    OutcomeOf(c.outcomes, cluster).None?
  }

  /** The last outcome of the cluster in the run is a failure. */
  predicate LastFailed(run: seq<Cycle>, cluster: string) {
    exists i :: 0 <= i < |run| && Failed(run[i], cluster) && forall j :: i < j < |run| ==> Silent(run[j], cluster)
  }

  /** The cluster regressed in the run, and did not pass cleanly since. */
  predicate RegressedSince(run: seq<Cycle>, cluster: string) {
    exists i :: 0 <= i < |run| && Regressed(run[i], cluster) && forall j :: i < j < |run| ==> !CleanPass(run[j], cluster)
  }

  predicate InContext(records: seq<FailureRecord>, environment: Digest, grader: Digest) {
    forall i :: 0 <= i < |records| && Open(records[i]) ==>
      records[i].environment == environment && records[i].grader == grader
  }

  predicate NoneOpen(records: seq<FailureRecord>) {
    forall i :: 0 <= i < |records| ==> !Open(records[i])
  }

  /** Nothing about openness changed. */
  predicate SameOpen(before: seq<FailureRecord>, after: seq<FailureRecord>) {
    && |before| == |after|
    && forall i :: 0 <= i < |before| ==> SameEvidence(before[i], after[i]) && (Open(before[i]) <==> Open(after[i]))
  }

  lemma OtherEventsKeepOpen(d: Data, e: Event)
    requires Enabled(d, e) && !e.CycleEvent?
    ensures SameOpen(d.records, After(d, e).records)
  {
    hide ActiveClusters, Ordered, Marked, IsIdentifier, AllIdentifiers, ValidAsset, SortAssets, IsApplied;
  }

  lemma SameOpenFor(before: seq<FailureRecord>, after: seq<FailureRecord>, cluster: string, kind: Kind)
    requires SameOpen(before, after)
    ensures OpenFor(before, cluster, kind) <==> OpenFor(after, cluster, kind)
  {
    if OpenFor(before, cluster, kind) {
      var i :| 0 <= i < |before| && OpenAs(before[i], cluster, kind);
      assert OpenAs(after[i], cluster, kind);
    }
    if OpenFor(after, cluster, kind) {
      var i :| 0 <= i < |after| && OpenAs(after[i], cluster, kind);
      assert OpenAs(before[i], cluster, kind);
    }
  }

  /** An old record is open after a cycle exactly when it was, stands in the context, and the outcome does not resolve it. */
  lemma OldOpen(r: FailureRecord, c: Cycle, cluster: string, kind: Kind)
    ensures OpenAs(Settled(r, c, c.outcomes), cluster, kind) <==>
            && OpenAs(r, cluster, kind) && r.environment == c.environment && r.grader == c.grader
            && (Silent(c, cluster) || Failed(c, cluster) || (kind == Regression && Regressed(c, cluster)))
  {
  }

  lemma OneOpen(o: Outcome, c: Cycle, cluster: string, kind: Kind)
    ensures OpenFor([NewRecord(o, c)], cluster, kind) <==> o.cluster == cluster && (kind == Regression <==> o.passed)
  {
    assert OpenAs([NewRecord(o, c)][0], cluster, kind) <==> OpenAs(NewRecord(o, c), cluster, kind);
  }

  lemma {:induction false} NewOpen(outcomes: seq<Outcome>, c: Cycle, cluster: string, kind: Kind)
    requires DistinctClusters(outcomes)
    ensures OpenFor(NewRecords(outcomes, c), cluster, kind) <==>
            var o := OutcomeOf(outcomes, cluster);
            o.Some? && MakesRecord(o.value) && (kind == Regression <==> o.value.passed)
  {
    if outcomes != [] {
      var n := |outcomes| - 1;
      NewOpen(outcomes[..n], c, cluster, kind);
      OneOpen(outcomes[n], c, cluster, kind);
      OpenAppend(NewRecords(outcomes[..n], c), [NewRecord(outcomes[n], c)], cluster, kind);
      var found := OutcomeOf(outcomes[..n], cluster);
      if found.Some? {
        var i :| 0 <= i < n && outcomes[..n][i] == found.value;
        assert outcomes[i].cluster != outcomes[n].cluster;
      }
    }
  }

  lemma OpenAppend(a: seq<FailureRecord>, b: seq<FailureRecord>, cluster: string, kind: Kind)
    ensures OpenFor(a + b, cluster, kind) <==> OpenFor(a, cluster, kind) || OpenFor(b, cluster, kind)
  {
    var all := a + b;
    if OpenFor(a, cluster, kind) {
      var i :| 0 <= i < |a| && OpenAs(a[i], cluster, kind);
      assert all[i] == a[i];
    }
    if OpenFor(b, cluster, kind) {
      var i :| 0 <= i < |b| && OpenAs(b[i], cluster, kind);
      assert all[|a| + i] == b[i];
    }
  }

  /** Openness after a cycle, from openness before it and the outcome of the cluster. */
  lemma CycleOpen(records: seq<FailureRecord>, c: Cycle, cluster: string, kind: Kind, same: bool)
    requires DistinctClusters(c.outcomes)
    requires forall i :: 0 <= i < |records| && Open(records[i]) ==>
               (same <==> records[i].environment == c.environment && records[i].grader == c.grader)
    ensures OpenFor(Reduced(records, c), cluster, kind) <==>
            || (if kind == AbsoluteFailure then Failed(c, cluster) else Regressed(c, cluster))
            || (&& same && OpenFor(records, cluster, kind)
                && (Silent(c, cluster) || Failed(c, cluster) || (kind == Regression && Regressed(c, cluster))))
  {
    hide Settled, NewRecords;
    var settled, news := SettledAll(records, c, c.outcomes), NewRecords(c.outcomes, c);
    OpenAppend(settled, news, cluster, kind);
    NewOpen(c.outcomes, c, cluster, kind);
    forall i | 0 <= i < |records|
      ensures OpenAs(settled[i], cluster, kind) <==>
              && OpenAs(records[i], cluster, kind) && same
              && (Silent(c, cluster) || Failed(c, cluster) || (kind == Regression && Regressed(c, cluster)))
    {
      OldOpen(records[i], c, cluster, kind);
    }
    if OpenFor(records, cluster, kind) && same
       && (Silent(c, cluster) || Failed(c, cluster) || (kind == Regression && Regressed(c, cluster))) {
      var i :| 0 <= i < |records| && OpenAs(records[i], cluster, kind);
      assert OpenAs(settled[i], cluster, kind);
    }
  }

  lemma RunFailed(run: seq<Cycle>, c: Cycle, cluster: string)
    ensures LastFailed(run + [c], cluster) <==> Failed(c, cluster) || (Silent(c, cluster) && LastFailed(run, cluster))
  {
    hide Failed, Silent;
    var all := run + [c];
    OnlyOne(c, cluster);
    if LastFailed(all, cluster) {
      var i :| 0 <= i < |all| && Failed(all[i], cluster) && forall j :: i < j < |all| ==> Silent(all[j], cluster);
      if i < |run| {
        assert Silent(all[|run|], cluster);
        assert forall j :: i < j < |run| ==> Silent(all[j], cluster) && all[j] == run[j];
        assert Failed(run[i], cluster);
      }
    }
    if Failed(c, cluster) {
      assert Failed(all[|run|], cluster);
    } else if Silent(c, cluster) && LastFailed(run, cluster) {
      var i :| 0 <= i < |run| && Failed(run[i], cluster) && forall j :: i < j < |run| ==> Silent(run[j], cluster);
      assert Failed(all[i], cluster);
    }
  }

  lemma OnlyOne(c: Cycle, cluster: string)
    ensures !(Failed(c, cluster) && Silent(c, cluster)) && !(Regressed(c, cluster) && CleanPass(c, cluster))
    ensures Silent(c, cluster) || Failed(c, cluster) || Regressed(c, cluster) || CleanPass(c, cluster)
    ensures CleanPass(c, cluster) ==> !Silent(c, cluster) && !Failed(c, cluster)
    ensures Regressed(c, cluster) ==> !Silent(c, cluster) && !Failed(c, cluster)
  {
  }

  lemma RunRegressed(run: seq<Cycle>, c: Cycle, cluster: string)
    ensures RegressedSince(run + [c], cluster) <==>
            Regressed(c, cluster) || (!CleanPass(c, cluster) && RegressedSince(run, cluster))
  {
    hide Regressed, CleanPass;
    var all := run + [c];
    OnlyOne(c, cluster);
    if RegressedSince(all, cluster) {
      var i :| 0 <= i < |all| && Regressed(all[i], cluster) && forall j :: i < j < |all| ==> !CleanPass(all[j], cluster);
      if i < |run| {
        assert !CleanPass(all[|run|], cluster);
        assert forall j :: i < j < |run| ==> !CleanPass(all[j], cluster) && all[j] == run[j];
        assert Regressed(run[i], cluster);
      }
    }
    if Regressed(c, cluster) {
      assert Regressed(all[|run|], cluster);
    } else if !CleanPass(c, cluster) && RegressedSince(run, cluster) {
      var i :| 0 <= i < |run| && Regressed(run[i], cluster) && forall j :: i < j < |run| ==> !CleanPass(run[j], cluster);
      assert Regressed(all[i], cluster);
    }
  }

  lemma EmptyRun(cluster: string)
    ensures !LastFailed([], cluster) && !RegressedSince([], cluster)
  {
  }

  /** Openness in terms of what happened: the statement kept over whole runs. */
  ghost predicate OpenAsHistorySays(records: seq<FailureRecord>, run: seq<Cycle>) {
    && (forall cluster :: OpenFor(records, cluster, AbsoluteFailure) <==> LastFailed(run, cluster))
    && (forall cluster :: OpenFor(records, cluster, Regression) <==> RegressedSince(run, cluster))
    && (if run == [] then NoneOpen(records)
        else InContext(records, run[|run| - 1].environment, run[|run| - 1].grader))
  }

  lemma CycleExtendsRun(records: seq<FailureRecord>, cycles: seq<Cycle>, c: Cycle)
    requires OpenAsHistorySays(records, CurrentRun(cycles)) && DistinctClusters(c.outcomes)
    ensures OpenAsHistorySays(Reduced(records, c), CurrentRun(cycles + [c]))
  {
    hide OpenFor, LastFailed, RegressedSince, Failed, Silent, Regressed, CleanPass, Reduced, CurrentRun;
    var run := CurrentRun(cycles);
    var same := run != [] && SameContext(run[|run| - 1], c);
    RunGrows(cycles, c);
    var longer := CurrentRun(cycles + [c]);
    forall cluster
      ensures OpenFor(Reduced(records, c), cluster, AbsoluteFailure) <==> LastFailed(longer, cluster)
      ensures OpenFor(Reduced(records, c), cluster, Regression) <==> RegressedSince(longer, cluster)
    {
      CycleOpen(records, c, cluster, AbsoluteFailure, same);
      CycleOpen(records, c, cluster, Regression, same);
      OnlyOne(c, cluster);
      var base := if same then run else [];
      RunFailed(base, c, cluster);
      RunRegressed(base, c, cluster);
      EmptyRun(cluster);
    }
    forall i | 0 <= i < |Reduced(records, c)| && Open(Reduced(records, c)[i])
      ensures Reduced(records, c)[i].environment == c.environment && Reduced(records, c)[i].grader == c.grader
    {
      ReducedContext(records, c, i);
    }
  }

  lemma RunGrows(cycles: seq<Cycle>, c: Cycle)
    ensures var run := CurrentRun(cycles);
            CurrentRun(cycles + [c]) ==
            (if run != [] && SameContext(run[|run| - 1], c) then run else []) + [c]
  {
    assert (cycles + [c])[..|cycles|] == cycles;
  }

  /** Over every successful run from a state without open records: a cluster has an open absolute failure exactly
      when its last outcome in the current run of cycles failed, and an open regression exactly when it regressed
      there and did not pass cleanly since. */
  lemma {:induction false} OpenExactly(d: Data, events: seq<Event>)
    requires NoneOpen(d.records) && RunFrom(d, events).Some?
    ensures OpenAsHistorySays(RunFrom(d, events).value.records, CurrentRun(Cycles(events)))
  {
    hide After, Enabled, OpenAsHistorySays, CurrentRun;
    if events == [] {
      NothingOpen(d.records);
    } else {
      var n := |events| - 1;
      OpenExactly(d, events[..n]);
      var before := RunFrom(d, events[..n]).value;
      if events[n].CycleEvent? {
        CycleEnabled(before, events[n]);
        CycleExtendsRun(before.records, Cycles(events[..n]), events[n].cycle);
      } else {
        OtherEventsKeepOpen(before, events[n]);
        SameHistorySays(before.records, After(before, events[n]).records, CurrentRun(Cycles(events)));
      }
    }
  }

  lemma CycleEnabled(d: Data, e: Event)
    requires e.CycleEvent? && Enabled(d, e)
    ensures DistinctClusters(e.cycle.outcomes) && After(d, e).records == Reduced(d.records, e.cycle)
  {
  }

  lemma NothingOpen(records: seq<FailureRecord>)
    requires NoneOpen(records)
    ensures OpenAsHistorySays(records, CurrentRun([]))
  {
    forall cluster
      ensures !LastFailed([], cluster) && !RegressedSince([], cluster)
    {
      EmptyRun(cluster);
    }
  }

  lemma SameHistorySays(before: seq<FailureRecord>, after: seq<FailureRecord>, run: seq<Cycle>)
    requires SameOpen(before, after) && OpenAsHistorySays(before, run)
    ensures OpenAsHistorySays(after, run)
  {
    hide OpenFor, LastFailed, RegressedSince;
    forall cluster
      ensures OpenFor(after, cluster, AbsoluteFailure) <==> LastFailed(run, cluster)
      ensures OpenFor(after, cluster, Regression) <==> RegressedSince(run, cluster)
    {
      SameOpenFor(before, after, cluster, AbsoluteFailure);
      SameOpenFor(before, after, cluster, Regression);
    }
  }

  // ---- the state runs start from ----

  /** The untyped diagnostic a version 2 failure cluster becomes. */
  function LegacyRecord(core: Core, cluster: string): FailureRecord {
    FailureRecord(LegacyId(cluster), cluster, None, None, Diagnostic, None, None, None, core.skill, core.environment,
                  core.grader, Some(LEGACY_NOTE), None, None)
  }

  function LegacyRecords(core: Core): (r: seq<FailureRecord>)
    ensures |r| == |core.failureClusters|
    ensures forall i :: 0 <= i < |r| ==> r[i] == LegacyRecord(core, core.failureClusters[i])
  {
    seq(|core.failureClusters|, i requires 0 <= i < |core.failureClusters| => LegacyRecord(core, core.failureClusters[i]))
  }

  /** A stored version 2 state, read as version 3. */
  function FromV2(core: Core): Data {
    Data(core.(failureClusters := []), LegacyRecords(core), [])
  }

  lemma LegacyNoteText()
    ensures IsText(LEGACY_NOTE, 256)
  {
    hide Bytes;
    BytesBound(LEGACY_NOTE);
    assert !WhiteSpace(LEGACY_NOTE[0]);
  }

  lemma LegacyValid(core: Core, i: nat)
    requires ValidCore(core) && i < |core.failureClusters|
    ensures ValidRecord(LegacyRecord(core, core.failureClusters[i]))
  {
    hide IsIdentifier, IsDigest, IsText;
    LegacyNoteText();
  }

  lemma {:induction false} NoGaps(records: seq<FailureRecord>)
    requires NoneOpen(records)
    ensures ActiveClusters(records) == []
  {
    ActiveClustersAre(records);
    var all := ActiveClusters(records);
    if all != [] {
      var x := First(all);
    }
  }

  /** A valid version 2 state reads as a valid version 3 state exactly while its failure clusters are within the
      bound on records; nothing is open in it, and nothing waits for a retest. */
  lemma FromV2Valid(core: Core)
    requires ValidCore(core)
    ensures ValidData(FromV2(core)) <==> |core.failureClusters| <= MAX_RECORDS
    ensures NoneOpen(FromV2(core).records) && RetestsMarked(FromV2(core))
    ensures forall i :: 0 <= i < |core.failureClusters| ==>
              FromV2(core).records[i].cluster == core.failureClusters[i] && FromV2(core).records[i].status == Diagnostic
  {
    hide IsIdentifier, IsDigest, IsText, ValidRecord, ActiveClusters, ValidRest, ValidAssets;
    var records := LegacyRecords(core);
    NoGaps(records);
    forall i | 0 <= i < |records|
      ensures ValidRecord(records[i])
    {
      LegacyValid(core, i);
    }
    RestWithout(core);
  }

  lemma RestWithout(core: Core)
    requires ValidRest(core)
    ensures ValidRest(core.(failureClusters := []))
  {
    hide IsIdentifier, IsDigest;
  }
}
