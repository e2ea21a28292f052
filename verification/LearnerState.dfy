/** The learner state object: its methods change records, marks and assets in place. */
module LearnerState {
  import opened Wrappers
  import opened Texts
  import opened Records
  import opened Learner
  import opened Ordering

  // ---- what a loop over the outcomes has done so far ----

  lemma OutcomeStep(records: seq<FailureRecord>, c: Cycle, k: nat, before: seq<FailureRecord>, met: seq<FailureRecord>)
    requires DistinctClusters(c.outcomes) && k < |c.outcomes|
    requires before == SettledAll(records, c, c.outcomes[..k]) + NewRecords(c.outcomes[..k], c)
    requires |met| == |before| && forall i :: 0 <= i < |met| ==> met[i] == Meet(before[i], c.outcomes[k], c)
    ensures met + (if MakesRecord(c.outcomes[k]) then [NewRecord(c.outcomes[k], c)] else []) ==
            SettledAll(records, c, c.outcomes[..k + 1]) + NewRecords(c.outcomes[..k + 1], c)
  {
    hide Meet, Drift, NewRecord, Settled, SettledAll, NewRecords, MakesRecord, DistinctClusters;
    var settled, news := SettledAll(records, c, c.outcomes[..k + 1]), NewRecords(c.outcomes[..k], c);
    forall i | 0 <= i < |records|
      ensures met[i] == settled[i]
    {
      MeetSettled(records[i], c, k);
    }
    forall j | 0 <= j < |news|
      ensures met[|records| + j] == news[j]
    {
      NewsUntouched(c, k, j);
    }
    assert met == settled + news;
    NewsStep(c, k);
    Reassociate(settled, news, if MakesRecord(c.outcomes[k]) then [NewRecord(c.outcomes[k], c)] else []);
  }

  lemma Reassociate<T>(a: seq<T>, b: seq<T>, c: seq<T>)
    ensures (a + b) + c == a + (b + c)
  {
  }

  lemma NewsStep(c: Cycle, k: nat)
    requires k < |c.outcomes|
    ensures NewRecords(c.outcomes[..k + 1], c) ==
            NewRecords(c.outcomes[..k], c) + (if MakesRecord(c.outcomes[k]) then [NewRecord(c.outcomes[k], c)] else [])
  {
    hide NewRecord, MakesRecord;
    assert c.outcomes[..k + 1][..k] == c.outcomes[..k] && c.outcomes[..k + 1][k] == c.outcomes[k];
  }

  lemma NewsUntouched(c: Cycle, k: nat, j: nat)
    requires DistinctClusters(c.outcomes) && k < |c.outcomes| && j < |NewRecords(c.outcomes[..k], c)|
    ensures Meet(NewRecords(c.outcomes[..k], c)[j], c.outcomes[k], c) == NewRecords(c.outcomes[..k], c)[j]
  {
    hide NewRecords, Meet, NewRecord;
    var source := NewRecordSource(c.outcomes[..k], c, j);
    NewUntouched(c.outcomes[..k][source], c.outcomes[k], c);
  }

  lemma MeetSettled(r: FailureRecord, c: Cycle, k: nat)
    requires DistinctClusters(c.outcomes) && k < |c.outcomes|
    ensures Meet(Settled(r, c, c.outcomes[..k]), c.outcomes[k], c) == Settled(r, c, c.outcomes[..k + 1])
  {
    var front := c.outcomes[..k];
    assert c.outcomes[..k + 1][..k] == front && c.outcomes[..k + 1][k] == c.outcomes[k];
    var found := OutcomeOf(front, r.cluster);
    if found.Some? {
      var i :| 0 <= i < |front| && front[i] == found.value;
      assert c.outcomes[i].cluster != c.outcomes[k].cluster;
    }
  }

  lemma NewUntouched(p: Outcome, o: Outcome, c: Cycle)
    requires p.cluster != o.cluster
    ensures Meet(NewRecord(p, c), o, c) == NewRecord(p, c)
  {
  }

  /** The outcomes pass the checks before anything is changed. */
  method CheckCycle(c: Cycle) returns (ok: bool)
    ensures ok == ValidCycle(c)
  {
    hide IsIdentifier, IsDigest, ValidOutcome;
    if !(IsIdentifier(c.id) && IsDigest(c.environment) && IsDigest(c.grader) && IsDigest(c.skill)) {
      return false;
    }
    var clusters := {};
    for i := 0 to |c.outcomes|
      invariant forall j :: 0 <= j < i ==> ValidOutcome(c.outcomes[j])
      invariant forall j, k :: 0 <= j < k < i ==> c.outcomes[j].cluster != c.outcomes[k].cluster
      invariant forall x :: x in clusters <==> exists j :: 0 <= j < i && c.outcomes[j].cluster == x
    {
      if !ValidOutcome(c.outcomes[i]) || c.outcomes[i].cluster in clusters {
        return false;
      }
      clusters := clusters + {c.outcomes[i].cluster};
    }
    return true;
  }

  /** The records pass the checks before anything is changed. */
  method CheckRecords(records: seq<FailureRecord>, cycle: string) returns (r: Result<()>)
    ensures r.Ok? <==> ValidRecords(records) && forall i :: 0 <= i < |records| ==> !Names(records[i], cycle)
    ensures ValidRecords(records) && r.Err? ==> r == Err(Conflict)
  {
    hide ValidRecord, Names;
    var ids := {};
    var duplicate := false;
    for i := 0 to |records|
      invariant forall j :: 0 <= j < i ==> ValidRecord(records[j]) && !Names(records[j], cycle)
      invariant !duplicate ==> forall j, k :: 0 <= j < k < i ==> records[j].id != records[k].id
      invariant duplicate ==> exists j, k :: 0 <= j < k < i && records[j].id == records[k].id
      invariant forall x :: x in ids <==> exists j :: 0 <= j < i && records[j].id == x
    {
      if !ValidRecord(records[i]) {
        return Err(Invalid);
      }
      if Names(records[i], cycle) {
        return Err(Conflict);
      }
      duplicate := duplicate || records[i].id in ids;
      ids := ids + {records[i].id};
    }
    if |records| > MAX_RECORDS {
      return Err(Invalid);
    }
    if duplicate {
      return Err(Invalid);
    }
    return Ok(());
  }

  class LearnerStateV3 {
    var core: Core
    var records: seq<FailureRecord>
    var marks: seq<Mark>

    ghost function Value(): Data
      reads this
    {
      Data(core, records, marks)
    }

    constructor (core: Core, records: seq<FailureRecord>, marks: seq<Mark>)
      ensures Value() == Data(core, records, marks)
    {
      this.core := core;
      this.records := records;
      this.marks := marks;
    }

    /** Moves open records of another environment or grader to diagnostic. */
    method DriftRecords(c: Cycle)
      modifies this`records
      ensures |records| == |old(records)| && forall i :: 0 <= i < |records| ==> records[i] == Drift(old(records)[i], c)
    {
      for i := 0 to |records|
        invariant |records| == |old(records)|
        invariant forall j :: 0 <= j < i ==> records[j] == Drift(old(records)[j], c)
        invariant forall j :: i <= j < |records| ==> records[j] == old(records)[j]
      {
        if Drifted(records[i], c) {
          records := records[i := records[i].(status := Diagnostic, note := Some(DRIFT_NOTE), retestRelease := None)];
        }
      }
    }

    /** Books one outcome on the open records of its cluster. */
    method MeetRecords(o: Outcome, c: Cycle)
      modifies this`records
      ensures |records| == |old(records)| && forall i :: 0 <= i < |records| ==> records[i] == Meet(old(records)[i], o, c)
    {
      var regression := Regresses(o);
      for i := 0 to |records|
        invariant |records| == |old(records)|
        invariant forall j :: 0 <= j < i ==> records[j] == Meet(old(records)[j], o, c)
        invariant forall j :: i <= j < |records| ==> records[j] == old(records)[j]
      {
        var r := records[i];
        if r.cluster == o.cluster && Open(r) {
          if !o.passed || (regression && r.kind == Some(Regression)) {
            if r.status == RetestDue {
              records := records[i := r.(status := Active, note := Some("retest_failed:" + c.id), retestRelease := None)];
            }
          } else {
            records := records[i := r.(status := Resolved, retestRelease := None, resolution := Some(ResolutionOf(o, c)))];
          }
        }
      }
    }

    /** Reduces one verified cycle. It is all or nothing: an error leaves the records as they were. */
    method ApplyCycle(c: Cycle) returns (r: Result<()>)
      modifies this`records
      ensures r.Ok? <==> Reducible(old(records), c)
      ensures records == if r.Ok? then Reduced(old(records), c) else old(records)
      ensures ValidCycle(c) && ValidRecords(old(records)) && r.Err? ==> r == Err(Conflict)
    {
      hide ValidCycle, ValidRecords, Names, NewRecord, Meet, Drift;
      var cycleOk := CheckCycle(c);
      if !cycleOk {
        return Err(Invalid);
      }
      InCycle(c);
      var recordsOk := CheckRecords(records, c.id);
      if recordsOk.Err? {
        return recordsOk;
      }
      if |records| + Additional(c.outcomes) > MAX_RECORDS {
        return Err(Conflict);
      }
      ghost var before := records;
      DriftRecords(c);
      Unmet(before, c, records);
      for k := 0 to |c.outcomes|
        invariant records == SettledAll(before, c, c.outcomes[..k]) + NewRecords(c.outcomes[..k], c)
      {
        var o := c.outcomes[k];
        ghost var last := records;
        MeetRecords(o, c);
        OutcomeStep(before, c, k, last, records);
        if !o.passed || Regresses(o) {
          records := records + [NewRecord(o, c)];
        }
      }
      assert c.outcomes[..|c.outcomes|] == c.outcomes;
      ReducedValid(before, c);
      if !ValidRecords(records) {
        return Err(Invalid);
      }
      return Ok(());
    }

    // ---- assets, marks and voided releases ----

    /** Gives every family that has none a mark for the release, and moves its active records to retest-due. */
    method MarkRetestDue(families: seq<string>, release: string) returns (r: Result<()>)
      modifies this`records, this`marks
      ensures !IsIdentifier(release) || !AllIdentifiers(families) ==> r.Err?
      ensures r.Err? && (!IsIdentifier(release) || !AllIdentifiers(families)) ==> Value() == old(Value())
      ensures IsIdentifier(release) && AllIdentifiers(families) ==>
                && records == DueAll(old(records), families, release)
                && marks == Marked(old(marks), Ordered(families), release)
                && (r.Ok? <==> (forall i :: 0 <= i < |marks| ==> ValidMark(marks[i])) && ValidRecords(records))
    {
      hide IsIdentifier, ValidRecords, ValidMark, Ordered, HasMark, Due;
      if !IsIdentifier(release) {
        return Err(Invalid);
      }
      for i := 0 to |families|
        invariant forall j :: 0 <= j < i ==> IsIdentifier(families[j])
      {
        if !IsIdentifier(families[i]) {
          return Err(Invalid);
        }
      }
      var bound := Ordered(families);
      OrderedSorted(families);
      NoneDue(records, bound, release);
      for k := 0 to |bound|
        invariant marks == Marked(old(marks), bound[..k], release)
        invariant records == DueAll(old(records), bound[..k], release)
      {
        assert bound[..k + 1][..k] == bound[..k] && bound[..k + 1][k] == bound[k];
        if !HasMark(marks, bound[k], release) {
          marks := marks + [Mark(bound[k], release, false)];
        }
        MarkFamily(bound[k], release);
        DueStep(old(records), bound, k, release, records);
      }
      assert bound[..|bound|] == bound;
      DueSame(old(records), families, bound, release);
      var marksOk := forall i :: 0 <= i < |marks| ==> ValidMark(marks[i]);
      if !marksOk || !ValidRecords(records) {
        return Err(Invalid);
      }
      return Ok(());
    }

    method MarkFamily(family: string, release: string)
      modifies this`records
      ensures |records| == |old(records)|
      ensures forall i :: 0 <= i < |records| ==> records[i] == Due(old(records)[i], [family], release)
    {
      for i := 0 to |records|
        invariant |records| == |old(records)|
        invariant forall j :: 0 <= j < i ==> records[j] == Due(old(records)[j], [family], release)
        invariant forall j :: i <= j < |records| ==> records[j] == old(records)[j]
      {
        if records[i].cluster == family && records[i].status == Active {
          records := records[i := records[i].(status := RetestDue, note := Some("retest_after:" + release),
                                              retestRelease := Some(release))];
        }
      }
    }

    /** Applies an approved asset to the bound families. From a valid state it succeeds exactly when the asset is
        new and valid and the families are; an asset already applied is left alone. */
    method ApplyLearnerAsset(asset: Asset, families: seq<string>) returns (r: Result<bool>)
      modifies this
      ensures r == Ok(true) ==> ValidData(Value()) && Value() == AfterAsset(old(Value()), asset, families)
      ensures r == Ok(false) ==> Value() == old(Value()) && asset in core.applied
      ensures ValidData(old(Value())) ==>
                (r == Ok(true) <==> ValidAsset(asset) && !IsApplied(old(core).applied, asset.release)
                                    && families != [] && AllIdentifiers(families))
      ensures ValidData(old(Value())) ==> (r == Ok(false) <==> ValidAsset(asset) && asset in old(core).applied)
      ensures r.Err? && ValidAsset(asset) && families != [] && !IsApplied(old(core).applied, asset.release)
              && !AllIdentifiers(families) ==>
                Value() == Data(old(core).(skill := SkillAfter(old(core).skill, asset.release, asset.bundle),
                                           applied := SortAssets(old(core).applied + [asset])), old(records), old(marks))
      ensures ValidData(old(Value())) && r.Err? ==>
                (Value() == old(Value()) <==> !(ValidAsset(asset) && families != [] && !IsApplied(old(core).applied, asset.release)
                                                && !AllIdentifiers(families)))
    {
      hide ValidData, ValidAsset, SortAssets, DueAll, Marked, ActiveClusters, Ordered, ValidRecords, IsIdentifier, AllIdentifiers, ValidMark;
      ghost var before := Value();
      if !ValidAsset(asset) {
        return Err(Invalid);
      }
      var at := Applied(core.applied, asset.release);
      if at.Some? {
        if core.applied[at.value] != asset {
          AppliedOnce(before, asset, at.value);
          return Err(Conflict);
        }
        return Ok(false);
      }
      if families == [] {
        return Err(Conflict);
      }
      AssetIdentifier(asset);
      if ValidData(before) && AllIdentifiers(families) {
        AssetKeepsValid(before, asset, families);
        PartsValid(AfterAsset(before, asset, families));
      }
      core := core.(skill := SkillAfter(core.skill, asset.release, asset.bundle),
                    applied := SortAssets(core.applied + [asset]));
      var marked := MarkRetestDue(families, asset.release);
      if marked.Err? {
        return Err(marked.error);
      }
      core := core.(failureClusters := ActiveClusters(records));
      assert Value() == AfterAsset(before, asset, families);
      if !ValidData(Data(core, records, marks)) {
        return Err(Invalid);
      }
      return Ok(true);
    }

    /** One selection consumes the mark of a family for a release, and schedules the family's retests. */
    method ConsumeRetestPriorityMark(family: string, release: string) returns (r: Result<()>)
      modifies this
      ensures r.Ok? ==> Unconsumed(old(marks), family, release).Some? && ValidData(Value())
                        && Value() == AfterConsume(old(Value()), family, release)
      ensures Unconsumed(old(marks), family, release).None? ==> r == Err(Conflict) && Value() == old(Value())
      ensures ValidData(old(Value())) ==> (r.Ok? <==> Unconsumed(old(marks), family, release).Some?)
    {
      hide ValidData, ActiveClusters, Selected, ValidRecords;
      ghost var before := Value();
      var at := Unconsumed(marks, family, release);
      if at.None? {
        return Err(Conflict);
      }
      if ValidData(before) {
        ConsumeKeepsValid(before, family, release);
      }
      marks := marks[at.value := marks[at.value].(consumed := true)];
      SelectRecords(family, release);
      core := core.(failureClusters := ActiveClusters(records));
      assert Value() == AfterConsume(before, family, release);
      if !ValidData(Data(core, records, marks)) {
        return Err(Invalid);
      }
      return Ok(());
    }

    method SelectRecords(family: string, release: string)
      modifies this`records
      ensures records == SelectedAll(old(records), family, release)
    {
      for i := 0 to |records|
        invariant |records| == |old(records)|
        invariant forall j :: 0 <= j < i ==> records[j] == Selected(old(records)[j], family, release)
        invariant forall j :: i <= j < |records| ==> records[j] == old(records)[j]
      {
        if records[i].cluster == family && records[i].status == RetestDue {
          records := records[i := records[i].(status := Active, note := Some("retest_selected:" + release),
                                              retestRelease := None)];
        }
      }
    }

    /** A release that is no longer live returns its retest-due records to active. */
    method VoidRetestDueOfRelease(release: string) returns (r: Result<()>)
      modifies this
      ensures r.Ok? ==> IsIdentifier(release) && ValidData(Value()) && Value() == AfterVoid(old(Value()), release)
      ensures !IsIdentifier(release) ==> r == Err(Invalid) && Value() == old(Value())
      ensures ValidData(old(Value())) ==> (r.Ok? <==> IsIdentifier(release))
    {
      hide ValidData, ActiveClusters, Voided, IsIdentifier;
      ghost var before := Value();
      if !IsIdentifier(release) {
        return Err(Invalid);
      }
      if ValidData(before) {
        VoidKeepsValid(before, release);
      }
      VoidRecords(release);
      core := core.(failureClusters := ActiveClusters(records));
      assert Value() == AfterVoid(before, release);
      if !ValidData(Data(core, records, marks)) {
        return Err(Invalid);
      }
      return Ok(());
    }

    method VoidRecords(release: string)
      modifies this`records
      ensures records == VoidedAll(old(records), release)
    {
      for i := 0 to |records|
        invariant |records| == |old(records)|
        invariant forall j :: 0 <= j < i ==> records[j] == Voided(old(records)[j], release)
        invariant forall j :: i <= j < |records| ==> records[j] == old(records)[j]
      {
        if records[i].status == RetestDue && records[i].retestRelease == Some(release) {
          records := records[i := records[i].(status := Active, note := Some("retest_void:" + release),
                                              retestRelease := None)];
        }
      }
    }
  }

  /** Where a release was applied. */
  function Applied(applied: seq<Asset>, release: string): (r: Option<nat>)
    ensures r.Some? ==> r.value < |applied| && applied[r.value].release == release
    ensures r.Some? <==> IsApplied(applied, release)
  {
    if applied == [] then None
    else if applied[0].release == release then Some(0)
    else
      assert forall i :: 0 < i < |applied| ==> applied[i] == applied[1..][i - 1];
      match Applied(applied[1..], release) case None => None case Some(i) => Some(i + 1)
  }

  lemma AppliedOnce(d: Data, asset: Asset, at: nat)
    requires at < |d.core.applied| && d.core.applied[at].release == asset.release && d.core.applied[at] != asset
    ensures ValidData(d) ==> asset !in d.core.applied
  {
    hide ValidRecords, ValidMarks, ReleasesApplied, ValidRest, ValidAsset, ActiveClusters, IsIdentifier;
  }

  lemma AssetIdentifier(asset: Asset)
    requires ValidAsset(asset)
    ensures IsIdentifier(asset.release)
  {
  }

  lemma PartsValid(d: Data)
    requires ValidData(d)
    ensures (forall i :: 0 <= i < |d.marks| ==> ValidMark(d.marks[i])) && ValidRecords(d.records)
  {
    hide ValidRecords, ValidMark, IsApplied;
  }

  lemma NoneDue(records: seq<FailureRecord>, bound: seq<string>, release: string)
    ensures records == DueAll(records, bound[..0], release)
  {
  }

  lemma DueStep(records: seq<FailureRecord>, bound: seq<string>, k: nat, release: string, after: seq<FailureRecord>)
    requires k < |bound|
    requires |after| == |records|
    requires forall i :: 0 <= i < |after| ==>
               after[i] == Due(DueAll(records, bound[..k], release)[i], [bound[k]], release)
    ensures after == DueAll(records, bound[..k + 1], release)
  {
    assert bound[..k + 1] == bound[..k] + [bound[k]];
  }

  lemma DueSame(records: seq<FailureRecord>, families: seq<string>, bound: seq<string>, release: string)
    requires forall f :: f in families <==> f in bound
    ensures DueAll(records, families, release) == DueAll(records, bound, release)
  {
  }

  lemma Unmet(records: seq<FailureRecord>, c: Cycle, drifted: seq<FailureRecord>)
    requires |drifted| == |records| && forall i :: 0 <= i < |records| ==> drifted[i] == Drift(records[i], c)
    ensures drifted == SettledAll(records, c, c.outcomes[..0]) + NewRecords(c.outcomes[..0], c)
  {
    hide Drift;
  }
}
