/** Failure records: their validity, and what one verified cycle makes of them. */
module Records {
  import opened Wrappers
  import opened Texts

  /** A digest given as text, or the ideal digest of a skill snapshot after an applied asset. */
  datatype Digest = Hex(text: string) | SkillAfter(previous: Digest, release: string, bundle: Digest)

  predicate IsDigest(d: Digest) {
    d.Hex? ==> IsHexDigest(d.text)
  }

  datatype Kind = AbsoluteFailure | Regression

  datatype Status = Active | RetestDue | Resolved | Diagnostic

  /** Ideal record ids: the prefix and the hashed parts. */
  datatype RecordId =
    | FailureId(cluster: string, cycle: string)
    | RegressionId(cluster: string, cycle: string)
    | LegacyId(cluster: string)
    | OtherId(text: string)

  datatype Resolution = Resolution(cycle: string, task: string, execution: string, receipt: Digest, skill: Digest)

  datatype FailureRecord = FailureRecord(
    id: RecordId,
    cluster: string,
    task: Option<string>,
    kind: Option<Kind>,
    status: Status,
    cycle: Option<string>,
    execution: Option<string>,
    receipt: Option<Digest>,
    skill: Digest,
    environment: Digest,
    grader: Digest,
    note: Option<string>,
    retestRelease: Option<string>,
    resolution: Option<Resolution>)

  const LEGACY_NOTE := "legacy_v2_untyped"
  const DRIFT_NOTE := "environment_or_grader_drift"
  const MAX_RECORDS := 10_000

  function FailureRecordId(cluster: string, kind: Kind, cycle: string): RecordId {
    if kind == AbsoluteFailure then FailureId(cluster, cycle) else RegressionId(cluster, cycle)
  }

  predicate IsLegacy(r: FailureRecord) {
    r.note == Some(LEGACY_NOTE)
  }

  predicate ValidResolution(r: Resolution) {
    && IsIdentifier(r.cycle) && IsIdentifier(r.task) && IsIdentifier(r.execution)
    && IsDigest(r.receipt) && IsDigest(r.skill)
  }

  predicate ValidRecord(r: FailureRecord) {
    && (r.id.OtherId? ==> IsIdentifier(r.id.text)) && IsIdentifier(r.cluster)
    && IsDigest(r.skill) && IsDigest(r.environment) && IsDigest(r.grader)
    && (r.note.Some? ==> IsText(r.note.value, 256))
    && if IsLegacy(r) then
         && r.kind.None? && r.task.None? && r.cycle.None? && r.execution.None? && r.receipt.None?
         && r.status == Diagnostic && r.retestRelease.None? && r.resolution.None? && r.id == LegacyId(r.cluster)
       else
         && r.kind.Some? && r.task.Some? && r.cycle.Some? && r.execution.Some? && r.receipt.Some?
         && IsIdentifier(r.task.value) && IsIdentifier(r.cycle.value) && IsIdentifier(r.execution.value)
         && IsDigest(r.receipt.value)
         && r.id == FailureRecordId(r.cluster, r.kind.value, r.cycle.value)
         && (r.retestRelease.Some? <==> r.status == RetestDue)
         && (r.retestRelease.Some? ==> IsIdentifier(r.retestRelease.value))
         && (r.resolution.Some? <==> r.status == Resolved)
         && (r.resolution.Some? ==> ValidResolution(r.resolution.value))
  }

  predicate DistinctIds(records: seq<FailureRecord>) {
    forall i, j :: 0 <= i < j < |records| ==> records[i].id != records[j].id
  }

  predicate ValidRecords(records: seq<FailureRecord>) {
    && |records| <= MAX_RECORDS
    && (forall i :: 0 <= i < |records| ==> ValidRecord(records[i]))
    && DistinctIds(records)
  }

  predicate Open(r: FailureRecord) {
    r.status == Active || r.status == RetestDue
  }

  // ---- one verified cycle ----

  datatype Outcome = Outcome(cluster: string, task: string, passed: bool, gain: int, execution: string, receipt: Digest)

  datatype Cycle = Cycle(id: string, environment: Digest, grader: Digest, skill: Digest, outcomes: seq<Outcome>)

  predicate Regresses(o: Outcome) {
    o.passed && o.gain < 0
  }

  /** The outcome makes a new record. */
  predicate MakesRecord(o: Outcome) {
    !o.passed || o.gain < 0
  }

  predicate ValidOutcome(o: Outcome) {
    IsIdentifier(o.cluster) && IsIdentifier(o.task) && IsIdentifier(o.execution) && IsDigest(o.receipt)
  }

  predicate DistinctClusters(outcomes: seq<Outcome>) {
    forall i, j :: 0 <= i < j < |outcomes| ==> outcomes[i].cluster != outcomes[j].cluster
  }

  predicate ValidCycle(c: Cycle) {
    && IsIdentifier(c.id) && IsDigest(c.environment) && IsDigest(c.grader) && IsDigest(c.skill)
    && (forall i :: 0 <= i < |c.outcomes| ==> ValidOutcome(c.outcomes[i]))
    && DistinctClusters(c.outcomes)
  }

  /** The record already names the cycle. */
  predicate Names(r: FailureRecord, cycle: string) {
    r.cycle == Some(cycle) || (r.resolution.Some? && r.resolution.value.cycle == cycle)
  }

  function Additional(outcomes: seq<Outcome>): (n: nat)
    ensures n <= |outcomes|
  {
    if outcomes == [] then 0
    else Additional(outcomes[..|outcomes| - 1]) + if MakesRecord(outcomes[|outcomes| - 1]) then 1 else 0
  }

  /** The reduction accepts the cycle. */
  predicate Reducible(records: seq<FailureRecord>, c: Cycle) {
    && ValidCycle(c) && ValidRecords(records)
    && (forall i :: 0 <= i < |records| ==> !Names(records[i], c.id))
    && |records| + Additional(c.outcomes) <= MAX_RECORDS
  }

  predicate Drifted(r: FailureRecord, c: Cycle) {
    Open(r) && (r.environment != c.environment || r.grader != c.grader)
  }

  function Drift(r: FailureRecord, c: Cycle): FailureRecord {
    if Drifted(r, c) then r.(status := Diagnostic, note := Some(DRIFT_NOTE), retestRelease := None) else r
  }

  function ResolutionOf(o: Outcome, c: Cycle): Resolution {
    Resolution(c.id, o.task, o.execution, o.receipt, c.skill)
  }

  /** The outcome does not resolve the record. */
  predicate StillFailing(r: FailureRecord, o: Outcome) {
    !o.passed || (Regresses(o) && r.kind == Some(Regression))
  }

  /** What an outcome of its cluster makes of an open record. */
  function Meet(r: FailureRecord, o: Outcome, c: Cycle): FailureRecord {
    if r.cluster != o.cluster || !Open(r) then r
    else if StillFailing(r, o) then
      if r.status == RetestDue then
        r.(status := Active, note := Some("retest_failed:" + c.id), retestRelease := None)
      else r
    else r.(status := Resolved, retestRelease := None, resolution := Some(ResolutionOf(o, c)))
  }

  function NewRecord(o: Outcome, c: Cycle): FailureRecord {
    var kind := if o.passed then Regression else AbsoluteFailure;
    FailureRecord(FailureRecordId(o.cluster, kind, c.id), o.cluster, Some(o.task), Some(kind), Active, Some(c.id),
                  Some(o.execution), Some(o.receipt), c.skill, c.environment, c.grader, None, None, None)
  }

  /** The last outcome of a cluster. */
  function OutcomeOf(outcomes: seq<Outcome>, cluster: string): (r: Option<Outcome>)
    ensures r.Some? ==> r.value in outcomes && r.value.cluster == cluster
    ensures r.None? ==> forall i :: 0 <= i < |outcomes| ==> outcomes[i].cluster != cluster
  {
    if outcomes == [] then None
    else if outcomes[|outcomes| - 1].cluster == cluster then Some(outcomes[|outcomes| - 1])
    else OutcomeOf(outcomes[..|outcomes| - 1], cluster)
  }

  /** One record after the cycle: drift first, then the outcome of its cluster, if there is one. */
  function Settled(r: FailureRecord, c: Cycle, outcomes: seq<Outcome>): FailureRecord {
    match OutcomeOf(outcomes, r.cluster)
    case None => Drift(r, c)
    case Some(o) => Meet(Drift(r, c), o, c)
  }

  function SettledAll(records: seq<FailureRecord>, c: Cycle, outcomes: seq<Outcome>): (r: seq<FailureRecord>)
    ensures |r| == |records| && forall i :: 0 <= i < |r| ==> r[i] == Settled(records[i], c, outcomes)
  {
    seq(|records|, i requires 0 <= i < |records| => Settled(records[i], c, outcomes))
  }

  function NewRecords(outcomes: seq<Outcome>, c: Cycle): (r: seq<FailureRecord>)
    ensures |r| == Additional(outcomes)
  {
    if outcomes == [] then []
    else
      var front, o := NewRecords(outcomes[..|outcomes| - 1], c), outcomes[|outcomes| - 1];
      if MakesRecord(o) then front + [NewRecord(o, c)] else front
  }

  /** The records after a cycle: every old one settled, then the new ones in order. */
  function Reduced(records: seq<FailureRecord>, c: Cycle): seq<FailureRecord> {
    SettledAll(records, c, c.outcomes) + NewRecords(c.outcomes, c)
  }

  // ---- validity is kept ----

  lemma DriftValid(r: FailureRecord, c: Cycle)
    requires ValidRecord(r)
    ensures ValidRecord(Drift(r, c))
  {
    hide IsIdentifier, IsDigest, IsText;
    DriftNoteText();
  }

  lemma DriftNoteText()
    ensures IsText(DRIFT_NOTE, 256) && DRIFT_NOTE != LEGACY_NOTE
  {
    hide Bytes;
    BytesBound(DRIFT_NOTE);
    assert !WhiteSpace(DRIFT_NOTE[0]);
    assert DRIFT_NOTE[0] != LEGACY_NOTE[0];
  }

  lemma MeetValid(r: FailureRecord, o: Outcome, c: Cycle)
    requires ValidRecord(r) && ValidOutcome(o) && IsIdentifier(c.id) && IsDigest(c.skill)
    ensures ValidRecord(Meet(r, o, c))
  {
    hide IsIdentifier, IsDigest, IsText;
    NotedIdentifier("retest_failed:", c.id);
    NotLegacy("retest_failed:", c.id);
  }

  lemma NotLegacy(note: string, id: string)
    requires |note| > 0 && note[0] != 'l'
    ensures note + id != LEGACY_NOTE
  {
    assert (note + id)[0] == note[0] && LEGACY_NOTE[0] == 'l';
  }

  lemma NewValid(o: Outcome, c: Cycle)
    requires ValidOutcome(o) && ValidCycle(c)
    ensures ValidRecord(NewRecord(o, c))
  {
    hide IsIdentifier, IsDigest, IsText;
  }

  lemma SettledValid(r: FailureRecord, c: Cycle)
    requires ValidRecord(r) && ValidCycle(c)
    ensures ValidRecord(Settled(r, c, c.outcomes))
    ensures Settled(r, c, c.outcomes).id == r.id
  {
    hide IsIdentifier, IsDigest, IsText, ValidRecord;
    DriftValid(r, c);
    var found := OutcomeOf(c.outcomes, r.cluster);
    if found.Some? {
      var i :| 0 <= i < |c.outcomes| && c.outcomes[i] == found.value;
      MeetValid(Drift(r, c), found.value, c);
    }
  }

  /** Which outcome a new record comes from. */
  lemma {:induction false} NewRecordSource(outcomes: seq<Outcome>, c: Cycle, i: nat) returns (k: nat)
    requires i < |NewRecords(outcomes, c)|
    ensures k < |outcomes| && MakesRecord(outcomes[k]) && NewRecords(outcomes, c)[i] == NewRecord(outcomes[k], c)
  {
    var n := |outcomes| - 1;
    if i < |NewRecords(outcomes[..n], c)| {
      k := NewRecordSource(outcomes[..n], c, i);
    } else {
      k := n;
    }
  }

  lemma {:induction false} NewRecordsDistinct(outcomes: seq<Outcome>, c: Cycle)
    requires DistinctClusters(outcomes)
    ensures DistinctIds(NewRecords(outcomes, c))
  {
    if outcomes != [] {
      var n := |outcomes| - 1;
      NewRecordsDistinct(outcomes[..n], c);
      var news := NewRecords(outcomes[..n], c);
      forall i | 0 <= i < |news|
        ensures news[i].id != NewRecord(outcomes[n], c).id
      {
        var k := NewRecordSource(outcomes[..n], c, i);
        assert outcomes[k].cluster != outcomes[n].cluster;
      }
    }
  }

  /** A reduction keeps the list valid. */
  lemma ReducedValid(records: seq<FailureRecord>, c: Cycle)
    requires Reducible(records, c)
    ensures ValidRecords(Reduced(records, c))
  {
    hide ValidRecord, ValidCycle, Settled, Names;
    InCycle(c);
    var all := Reduced(records, c);
    NewRecordsDistinct(c.outcomes, c);
    forall i | 0 <= i < |all|
      ensures ValidRecord(all[i])
      ensures i < |records| ==> all[i].id == records[i].id
    {
      if i < |records| {
        SettledValid(records[i], c);
      } else {
        var k := NewRecordSource(c.outcomes, c, i - |records|);
        OutcomeValid(c, k);
        NewValid(c.outcomes[k], c);
      }
    }
    forall i, j | 0 <= i < j < |all|
      ensures all[i].id != all[j].id
    {
      if i < |records| <= j {
        var k := NewRecordSource(c.outcomes, c, j - |records|);
        NewIdIsNew(records[i], c, c.outcomes[k]);
      }
    }
  }

  lemma InCycle(c: Cycle)
    requires ValidCycle(c)
    ensures DistinctClusters(c.outcomes)
  {
  }

  lemma OutcomeValid(c: Cycle, k: nat)
    requires ValidCycle(c) && k < |c.outcomes|
    ensures ValidOutcome(c.outcomes[k])
  {
  }

  /** A record that does not name the cycle has none of its new ids. */
  lemma NewIdIsNew(r: FailureRecord, c: Cycle, o: Outcome)
    requires ValidRecord(r) && !Names(r, c.id)
    ensures r.id != NewRecord(o, c).id
  {
    hide IsIdentifier, IsDigest, IsText;
  }

  /** After a reduction every open record carries the environment and grader of the cycle. */
  lemma ReducedContext(records: seq<FailureRecord>, c: Cycle, i: nat)
    requires i < |Reduced(records, c)| && Open(Reduced(records, c)[i])
    ensures Reduced(records, c)[i].environment == c.environment && Reduced(records, c)[i].grader == c.grader
  {
    if i >= |records| {
      var k := NewRecordSource(c.outcomes, c, i - |records|);
    }
  }

  lemma ResolvedNames(r: FailureRecord, c: Cycle)
    requires ValidRecord(r)
    ensures var s := Settled(r, c, c.outcomes); Names(s, c.id) || Settled(s, c, c.outcomes) == s
  {
    hide IsIdentifier, IsDigest, IsText;
  }

  /** Reducing the same cycle twice conflicts, or the second time changes nothing. */
  lemma ReduceTwice(records: seq<FailureRecord>, c: Cycle)
    requires Reducible(records, c)
    ensures var after := Reduced(records, c);
            || (exists i :: 0 <= i < |after| && Names(after[i], c.id))
            || (Reducible(after, c) && Reduced(after, c) == after)
  {
    hide ValidRecord, ValidCycle, Settled;
    var after := Reduced(records, c);
    ReducedValid(records, c);
    var news := NewRecords(c.outcomes, c);
    if news != [] {
      var k := NewRecordSource(c.outcomes, c, 0);
      assert Names(after[|records|], c.id);
    } else if forall i :: 0 <= i < |after| ==> !Names(after[i], c.id) {
      forall i | 0 <= i < |after|
        ensures Settled(after[i], c, c.outcomes) == after[i]
      {
        ResolvedNames(records[i], c);
      }
    }
  }

  // ---- append-only history ----

  /** What no operation ever changes of a record. */
  predicate SameEvidence(a: FailureRecord, b: FailureRecord) {
    && a.id == b.id && a.cluster == b.cluster && a.task == b.task && a.kind == b.kind && a.cycle == b.cycle
    && a.execution == b.execution && a.receipt == b.receipt && a.skill == b.skill
    && a.environment == b.environment && a.grader == b.grader
  }

  predicate Closed(r: FailureRecord) {
    r.status == Resolved || r.status == Diagnostic
  }

  predicate SameHistory(a: FailureRecord, b: FailureRecord) {
    SameEvidence(a, b) && (Closed(a) ==> b == a)
  }

  /** The later list starts with the earlier records, their evidence and closed records unchanged. */
  predicate AppendOnly(before: seq<FailureRecord>, after: seq<FailureRecord>) {
    |before| <= |after| && forall i :: 0 <= i < |before| ==> SameHistory(before[i], after[i])
  }

  lemma AppendOnlyTransitive(a: seq<FailureRecord>, b: seq<FailureRecord>, c: seq<FailureRecord>)
    requires AppendOnly(a, b) && AppendOnly(b, c)
    ensures AppendOnly(a, c)
  {
    forall i | 0 <= i < |a|
      ensures SameHistory(a[i], c[i])
    {
      assert SameHistory(a[i], b[i]) && SameHistory(b[i], c[i]);
    }
  }

  lemma DriftHistory(r: FailureRecord, c: Cycle)
    ensures SameHistory(r, Drift(r, c))
  {
  }

  lemma MeetHistory(r: FailureRecord, o: Outcome, c: Cycle)
    ensures SameHistory(r, Meet(r, o, c))
  {
  }

  lemma SettledHistory(r: FailureRecord, c: Cycle)
    ensures SameHistory(r, Settled(r, c, c.outcomes))
  {
    hide Drift, Meet;
    DriftHistory(r, c);
    var found := OutcomeOf(c.outcomes, r.cluster);
    if found.Some? {
      MeetHistory(Drift(r, c), found.value, c);
    }
  }

  lemma ReducedAppends(records: seq<FailureRecord>, c: Cycle)
    ensures AppendOnly(records, Reduced(records, c))
  {
    hide Settled, SameHistory;
    forall i | 0 <= i < |records|
      ensures SameHistory(records[i], Reduced(records, c)[i])
    {
      SettledHistory(records[i], c);
    }
  }
}
