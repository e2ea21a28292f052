/** After an accepted delta is replayed, the copy holds what the trusted anchor holds. */
module Restored {
  import opened Wrappers
  import opened Restore
  import opened RestoreReplay

  // ---- folds over the events ----

  function MarksAfter(marks: map<string, Mark>, events: seq<Replayed>): map<string, Mark> {
    if events == [] then marks else MarkMoved(MarksAfter(marks, events[..|events| - 1]), events[|events| - 1])
  }

  function RowsAfter(rows: seq<Row>, events: seq<Replayed>, write: Writer): seq<Row> {
    if events == [] then rows
    else
      var e := events[|events| - 1];
      Upsert(RowsAfter(rows, events[..|events| - 1], write), Row(e.namespace, e.event.source, write(Body(e.event))))
  }

  function JobsOf(events: seq<Replayed>): (r: seq<Job>)
    ensures |r| == |events| && forall i :: 0 <= i < |r| ==> r[i] == JobOf(events[i])
  {
    seq(|events|, i requires 0 <= i < |events| => JobOf(events[i]))
  }

  lemma {:induction false} ReplayTables(t: Tables, events: seq<Replayed>, write: Writer)
    requires ReplayAll(t, events, write).Some?
    ensures var after := ReplayAll(t, events, write).value;
            && after.marks == MarksAfter(t.marks, events) && after.tombstones == RowsAfter(t.tombstones, events, write)
            && after.jobs == t.jobs + JobsOf(events)
  {
    hide JobOf, JobFree, MarkMoved, Upsert, Frontier, Logged;
    if events != [] {
      var n := |events| - 1;
      ReplayTables(t, events[..n], write);
      assert JobsOf(events) == JobsOf(events[..n]) + [JobOf(events[n])];
      assert t.jobs + JobsOf(events) == (t.jobs + JobsOf(events[..n])) + [JobOf(events[n])];
    } else {
      assert t.jobs + JobsOf([]) == t.jobs;
    }
  }

  lemma {:induction false} MarksOfTwo(marks: map<string, Mark>, a: seq<Replayed>, b: seq<Replayed>)
    ensures MarksAfter(marks, a + b) == MarksAfter(MarksAfter(marks, a), b)
    decreases |b|
  {
    hide MarkMoved;
    if b == [] {
      assert a + b == a;
    } else {
      var n := |b| - 1;
      assert (a + b)[..|a + b| - 1] == a + b[..n];
      MarksOfTwo(marks, a, b[..n]);
    }
  }

  /** The events of one namespace move its mark to the last of them, and no other. */
  lemma {:induction false} MarksOfOne(marks: map<string, Mark>, namespace: string, events: seq<Event>)
    requires namespace in marks
    ensures var after := MarksAfter(marks, Tagged(namespace, events));
            after == if events == [] then marks
                     else marks[namespace := Mark(events[|events| - 1].number, events[|events| - 1].digest)]
    decreases |events|
  {
    if events != [] {
      var n := |events| - 1;
      assert Tagged(namespace, events)[..n] == Tagged(namespace, events[..n]);
      MarksOfOne(marks, namespace, events[..n]);
    }
  }

  lemma ReachesLast(sorted: seq<Late>, base: Mark, latest: Mark)
    requires Reaches(sorted, base, latest) && base.number <= latest.number
    ensures sorted == [] ==> base == latest
    ensures sorted != [] ==> var l := sorted[|sorted| - 1].tombstone; Mark(l.number, l.digest) == latest
  {
  }

  lemma EntryReaches(entry: Entry, base: Mark, anchor: Tables, backup: Tables, read: Reader)
    requires EntryAgrees(entry, base, anchor, backup, read)
    ensures entry.namespace in anchor.marks
    ensures entry.events == [] ==> base == anchor.marks[entry.namespace]
    ensures entry.events != [] ==>
              var last := entry.events[|entry.events| - 1];
              Mark(last.number, last.digest) == anchor.marks[entry.namespace]
  {
    hide LateOf, SortLate, RowsAgree, Reaches, EventsOf, DigestBefore;
    var sorted := SortLate(LateOf(anchor.tombstones, entry.namespace, base.number, read));
    ReachesLast(sorted, base, anchor.marks[entry.namespace]);
    EventsOfAre(sorted, base.digest);
    if sorted != [] {
      var n := |sorted| - 1;
      assert entry.events[n] == EventOf(sorted[n], DigestBefore(sorted, base.digest, n));
    }
  }

  /** Every mark is still the base's or already the anchor's, and the anchor's for the given entries. */
  predicate MarksReached(after: map<string, Mark>, entries: seq<Entry>, base: map<string, Mark>, latest: map<string, Mark>) {
    && after.Keys == base.Keys
    && (forall ns :: ns in base ==> after[ns] == base[ns] || (ns in latest && after[ns] == latest[ns]))
    && forall i :: 0 <= i < |entries| ==>
         && entries[i].namespace in base && entries[i].namespace in latest
         && after[entries[i].namespace] == latest[entries[i].namespace]
  }

  lemma MarksStep(before: map<string, Mark>, entries: seq<Entry>, base: map<string, Mark>, latest: map<string, Mark>,
                  after: map<string, Mark>)
    requires entries != [] && MarksReached(before, entries[..|entries| - 1], base, latest)
    requires var ns := entries[|entries| - 1].namespace;
             ns in base && ns in latest && (after == before[ns := latest[ns]] || (after == before && base[ns] == latest[ns]))
    ensures MarksReached(after, entries, base, latest)
  {
    forall i | 0 <= i < |entries|
      ensures entries[i].namespace in base && entries[i].namespace in latest
      ensures after[entries[i].namespace] == latest[entries[i].namespace]
    {
      assert i < |entries| - 1 ==> entries[i] == entries[..|entries| - 1][i];
    }
  }

  /** Replaying the entries brings their marks to the anchor's. */
  lemma {:induction false} MarksReach(entries: seq<Entry>, base: map<string, Mark>, anchor: Tables, backup: Tables, read: Reader)
    requires forall i :: 0 <= i < |entries| ==>
               entries[i].namespace in base
               && EntryAgrees(entries[i], base[entries[i].namespace], anchor, backup, read)
    ensures MarksReached(MarksAfter(base, ReplayOf(entries)), entries, base, anchor.marks)
    decreases |entries|
  {
    hide EntryAgrees, MarksReached;
    if entries != [] {
      var n := |entries| - 1;
      MarksReach(entries[..n], base, anchor, backup, read);
      var before := MarksAfter(base, ReplayOf(entries[..n]));
      var last := entries[n];
      MarksOfTwo(base, ReplayOf(entries[..n]), Tagged(last.namespace, last.events));
      MarksHave(before, entries[..n], base, anchor.marks, last.namespace);
      MarksOfOne(before, last.namespace, last.events);
      EntryReaches(last, base[last.namespace], anchor, backup, read);
      MarksStep(before, entries, base, anchor.marks, MarksAfter(base, ReplayOf(entries)));
    } else {
      NoMarks(base, anchor.marks);
    }
  }

  lemma MarksHave(before: map<string, Mark>, entries: seq<Entry>, base: map<string, Mark>, latest: map<string, Mark>, ns: string)
    requires MarksReached(before, entries, base, latest) && ns in base
    ensures ns in before
  {
  }

  lemma NoMarks(base: map<string, Mark>, latest: map<string, Mark>)
    ensures MarksReached(base, [], base, latest)
  {
  }

  // ---- which entry an event comes from ----

  lemma {:induction false} ReplaySource(entries: seq<Entry>, m: nat) returns (n: nat, k: nat)
    requires m < |ReplayOf(entries)|
    ensures n < |entries| && k < |entries[n].events|
    ensures ReplayOf(entries)[m] == Replayed(entries[n].namespace, entries[n].events[k])
    decreases |entries|
  {
    n := |entries| - 1;
    var front := ReplayOf(entries[..n]);
    if m < |front| {
      n, k := ReplaySource(entries[..n], m);
    } else {
      k := m - |front|;
    }
  }

  lemma {:induction false} ReplayHas(entries: seq<Entry>, n: nat, k: nat) returns (m: nat)
    requires n < |entries| && k < |entries[n].events|
    ensures m < |ReplayOf(entries)| && ReplayOf(entries)[m] == Replayed(entries[n].namespace, entries[n].events[k])
    decreases |entries|
  {
    var last := |entries| - 1;
    if n < last {
      m := ReplayHas(entries[..last], n, k);
    } else {
      m := |ReplayOf(entries[..last])| + k;
    }
  }

  /** Every event is a tombstone of the anchor. */
  predicate FromAnchor(e: Replayed, anchor: seq<Row>, read: Reader) {
    exists i :: 0 <= i < |anchor| && Tells(e, anchor[i], read)
  }

  predicate Tells(e: Replayed, row: Row, read: Reader) {
    At(row, e.namespace, e.event.source) && read(row.raw) == Some(Body(e.event))
  }

  lemma EventsFromAnchor(delta: Delta, manifest: string, base: map<string, Mark>, anchor: Tables, backup: Tables,
                         read: Reader, m: nat)
    requires Accepted(delta, manifest, base, anchor, backup, read) && m < |ReplayOf(delta.entries)|
    ensures FromAnchor(ReplayOf(delta.entries)[m], anchor.tombstones, read)
  {
    hide EntryAgrees, EntryShape;
    var n, k := ReplaySource(delta.entries, m);
    var entry := delta.entries[n];
    var i := EventRow(entry, base[entry.namespace], anchor, backup, read, k);
    assert Tells(ReplayOf(delta.entries)[m], anchor.tombstones[i], read);
  }

  lemma SameKeySameRow(rows: seq<Row>, i: nat, j: nat)
    requires DistinctRows(rows) && i < |rows| && j < |rows| && At(rows[j], rows[i].namespace, rows[i].id)
    ensures i == j
  {
  }

  /** An anchor row is kept by the events so far once one of them told it, or if the copy had it. */
  lemma {:induction false} RowKept(rows: seq<Row>, events: seq<Replayed>, anchor: seq<Row>, i: nat, read: Reader, write: Writer)
    requires DistinctRows(anchor) && i < |anchor| && forall t :: read(write(t)) == Some(t)
    requires forall m :: 0 <= m < |events| ==> FromAnchor(events[m], anchor, read)
    requires Kept(anchor[i], rows, read) || exists m :: 0 <= m < |events| && Tells(events[m], anchor[i], read)
    ensures Kept(anchor[i], RowsAfter(rows, events, write), read)
    decreases |events|
  {
    hide DistinctRows;
    if events != [] {
      var n := |events| - 1;
      var e := events[n];
      FindUpsert(RowsAfter(rows, events[..n], write), Row(e.namespace, e.event.source, write(Body(e.event))),
                 anchor[i].namespace, anchor[i].id);
      if At(anchor[i], e.namespace, e.event.source) {
        assert FromAnchor(e, anchor, read);
        var j :| 0 <= j < |anchor| && Tells(e, anchor[j], read);
        SameKeySameRow(anchor, i, j);
      } else {
        if exists m :: 0 <= m < |events| && Tells(events[m], anchor[i], read) {
          var m :| 0 <= m < |events| && Tells(events[m], anchor[i], read);
          assert events[..n][m] == events[m];
        }
        RowKept(rows, events[..n], anchor, i, read, write);
      }
    }
  }

  // ---- the restored copy ----

  /** The copy that is restored: the backup's watermarks and tombstones. */
  predicate CopyOf(t: Tables, base: map<string, Mark>, backup: Tables) {
    t.marks == base && t.tombstones == backup.tombstones
  }

  lemma EntryFor(delta: Delta, manifest: string, base: map<string, Mark>, anchor: Tables, backup: Tables, read: Reader,
                 namespace: string) returns (n: nat)
    requires Accepted(delta, manifest, base, anchor, backup, read) && namespace in base
    ensures n < |delta.entries| && delta.entries[n].namespace == namespace
    ensures EntryAgrees(delta.entries[n], base[namespace], anchor, backup, read)
  {
    hide EntryAgrees, EntryShape;
    assert namespace in Namespaces(delta.entries);
    n :| 0 <= n < |delta.entries| && delta.entries[n].namespace == namespace;
  }

  lemma RowIsKept(delta: Delta, manifest: string, base: map<string, Mark>, anchor: Tables, backup: Tables, read: Reader,
                  write: Writer, i: nat)
    requires Accepted(delta, manifest, base, anchor, backup, read) && DistinctRows(anchor.tombstones)
    requires i < |anchor.tombstones| && anchor.tombstones[i].namespace in base
    requires forall t :: read(write(t)) == Some(t)
    ensures Kept(anchor.tombstones[i], RowsAfter(backup.tombstones, ReplayOf(delta.entries), write), read)
  {
    hide EntryAgrees, EntryShape, Kept, DistinctRows, Namespaces;
    var row := anchor.tombstones[i];
    var events := ReplayOf(delta.entries);
    forall m | 0 <= m < |events|
      ensures FromAnchor(events[m], anchor.tombstones, read)
    {
      EventsFromAnchor(delta, manifest, base, anchor, backup, read, m);
    }
    var n := EntryFor(delta, manifest, base, anchor, backup, read, row.namespace);
    EntryRowAgrees(delta.entries[n], base[row.namespace], anchor, backup, read, i);
    if read(row.raw).value.number > base[row.namespace].number {
      var k := RowEvent(delta.entries[n], base[row.namespace], anchor, backup, read, i);
      var m := ReplayHas(delta.entries, n, k);
      assert Tells(events[m], row, read);
    }
    RowKept(backup.tombstones, events, anchor.tombstones, i, read, write);
  }

  lemma EntryRowAgrees(entry: Entry, base: Mark, anchor: Tables, backup: Tables, read: Reader, i: nat)
    requires EntryAgrees(entry, base, anchor, backup, read) && i < |anchor.tombstones|
    requires anchor.tombstones[i].namespace == entry.namespace
    ensures read(anchor.tombstones[i].raw).Some?
    ensures read(anchor.tombstones[i].raw).value.number <= base.number ==> Kept(anchor.tombstones[i], backup.tombstones, read)
  {
    hide LateOf, SortLate, Kept, Reaches, EventsOf;
    assert RowAgrees(anchor.tombstones[i], entry.namespace, base.number, backup.tombstones, read);
  }

  /** No event names this row. */
  predicate Unnamed(events: seq<Replayed>, namespace: string, id: string) {
    forall m :: 0 <= m < |events| ==> !(events[m].namespace == namespace && events[m].event.source == id)
  }

  lemma {:induction false} RowUnnamed(rows: seq<Row>, events: seq<Replayed>, namespace: string, id: string, write: Writer)
    requires Unnamed(events, namespace, id)
    ensures Find(RowsAfter(rows, events, write), namespace, id) == Find(rows, namespace, id)
    decreases |events|
  {
    if events != [] {
      var n := |events| - 1;
      var e := events[n];
      FindUpsert(RowsAfter(rows, events[..n], write), Row(e.namespace, e.event.source, write(Body(e.event))), namespace, id);
      RowUnnamed(rows, events[..n], namespace, id, write);
    }
  }

  predicate DistinctIds(jobs: seq<Job>) {
    forall m, q :: 0 <= m < q < |jobs| ==> jobs[m].id != jobs[q].id
  }

  lemma JobsDiffer(events: seq<Replayed>, base: map<string, Mark>)
    requires EventsApart(events, base)
    ensures DistinctIds(JobsOf(events))
  {
  }

  lemma EntriesApart(entries: seq<Entry>)
    requires |Namespaces(entries)| == |entries|
    ensures forall i, j :: 0 <= i < j < |entries| ==> entries[i].namespace != entries[j].namespace
  {
    forall i, j | 0 <= i < j < |entries|
      ensures entries[i].namespace != entries[j].namespace
    {
      NamespacesApart(entries, i, j);
    }
  }

  /** After an accepted delta was replayed into the copy: every watermark is the anchor's, every tombstone of the anchor
      is there with equal fields, rows that no event names are as before, and the cleanup jobs are the old ones and one
      pending job for each event, in order, under ids of their own. */
  lemma RestoredMatchesAnchor(delta: Delta, manifest: string, base: map<string, Mark>, anchor: Tables, backup: Tables,
                              copy: Tables, read: Reader, write: Writer)
    requires Accepted(delta, manifest, base, anchor, backup, read) && CopyOf(copy, base, backup)
    requires DistinctRows(anchor.tombstones) && forall t :: read(write(t)) == Some(t)
    requires ReplayAll(copy, ReplayOf(delta.entries), write).Some?
    ensures var after := ReplayAll(copy, ReplayOf(delta.entries), write).value;
            && after.marks.Keys == base.Keys
            && (forall ns :: ns in base ==> ns in anchor.marks && after.marks[ns] == anchor.marks[ns])
            && (forall i :: 0 <= i < |anchor.tombstones| && anchor.tombstones[i].namespace in base ==>
                  Kept(anchor.tombstones[i], after.tombstones, read))
            && (forall ns, id :: Unnamed(ReplayOf(delta.entries), ns, id) ==>
                  Find(after.tombstones, ns, id) == Find(copy.tombstones, ns, id))
            && after.jobs == copy.jobs + JobsOf(ReplayOf(delta.entries))
            && DistinctIds(JobsOf(ReplayOf(delta.entries)))
  {
    hide EntryAgrees, EntryShape, Kept, DistinctRows, ReplayAll, MarksAfter, RowsAfter, JobsOf, DistinctIds, Unnamed;
    var events := ReplayOf(delta.entries);
    var after := ReplayAll(copy, events, write).value;
    ReplayTables(copy, events, write);
    MarksReach(delta.entries, base, anchor, backup, read);
    EntriesApart(delta.entries);
    EventsAreApart(delta.entries, base, anchor, backup, read);
    JobsDiffer(events, base);
    forall ns, id | Unnamed(events, ns, id)
      ensures Find(RowsAfter(copy.tombstones, events, write), ns, id) == Find(copy.tombstones, ns, id)
    {
      RowUnnamed(copy.tombstones, events, ns, id, write);
    }
    forall ns | ns in base
      ensures ns in anchor.marks && after.marks[ns] == anchor.marks[ns]
    {
      var n := EntryFor(delta, manifest, base, anchor, backup, read, ns);
    }
    forall i | 0 <= i < |anchor.tombstones| && anchor.tombstones[i].namespace in base
      ensures Kept(anchor.tombstones[i], after.tombstones, read)
    {
      RowIsKept(delta, manifest, base, anchor, backup, read, write, i);
    }
  }

  // ---- the replay succeeds ----

  lemma CountWith(s: set<string>, x: string)
    ensures |s + {x}| == if x in s then |s| else |s| + 1
  {
    if x in s {
      assert s + {x} == s;
    }
  }

  lemma {:induction false} NamespacesCount(entries: seq<Entry>)
    ensures |Namespaces(entries)| <= |entries|
  {
    if entries == [] {
      assert Namespaces(entries) == {};
    } else {
      hide Namespaces;
      NamespacesCount(entries[..|entries| - 1]);
      NamespacesLast(entries);
      CountWith(Namespaces(entries[..|entries| - 1]), entries[|entries| - 1].namespace);
    }
  }

  /** As many namespaces as entries: no two entries share one. */
  lemma {:induction false} NamespacesApart(entries: seq<Entry>, i: nat, j: nat)
    requires i < j < |entries| && |Namespaces(entries)| == |entries|
    ensures entries[i].namespace != entries[j].namespace
    decreases |entries|
  {
    hide Namespaces;
    var n := |entries| - 1;
    NamespacesLast(entries);
    NamespacesCount(entries[..n]);
    CountWith(Namespaces(entries[..n]), entries[n].namespace);
    if j < n {
      NamespacesApart(entries[..n], i, j);
    } else {
      NamespaceIn(entries[..n], i);
    }
  }

  /** No job of the copy is for a revocation after the backup, and ideal job ids tell their job. */
  predicate NoLaterJobs(jobs: seq<Job>, base: map<string, Mark>) {
    forall i :: 0 <= i < |jobs| ==>
      && (jobs[i].namespace in base ==> jobs[i].number <= base[jobs[i].namespace].number)
      && (jobs[i].id.JobFor? ==> jobs[i].id.number == jobs[i].number)
  }

  /** Events of an accepted delta are distinct by namespace and number, and after the base. */
  predicate EventsApart(events: seq<Replayed>, base: map<string, Mark>) {
    && (forall m :: 0 <= m < |events| ==>
          events[m].namespace in base && events[m].event.number > base[events[m].namespace].number)
    && forall m, q :: 0 <= m < q < |events| ==>
         events[m].namespace != events[q].namespace || events[m].event.number != events[q].event.number
  }

  lemma {:induction false} EventsAreApart(entries: seq<Entry>, base: map<string, Mark>, anchor: Tables, backup: Tables, read: Reader)
    requires forall i, j :: 0 <= i < j < |entries| ==> entries[i].namespace != entries[j].namespace
    requires forall i :: 0 <= i < |entries| ==>
               entries[i].namespace in base
               && EntryAgrees(entries[i], base[entries[i].namespace], anchor, backup, read)
    ensures EventsApart(ReplayOf(entries), base)
    decreases |entries|
  {
    hide EntryAgrees;
    if entries != [] {
      var n := |entries| - 1;
      var last := entries[n];
      var front, more := ReplayOf(entries[..n]), Tagged(last.namespace, last.events);
      EventsAreApart(entries[..n], base, anchor, backup, read);
      forall k | 0 <= k < |last.events|
        ensures last.events[k].number == base[last.namespace].number + 1 + k
      {
        var i := EventRow(last, base[last.namespace], anchor, backup, read, k);
      }
      forall m | 0 <= m < |front|
        ensures front[m].namespace != last.namespace
      {
        var h, k := ReplaySource(entries[..n], m);
        assert entries[h].namespace != entries[n].namespace;
      }
      var all := front + more;
      assert forall m :: |front| <= m < |all| ==> all[m] == more[m - |front|];
    }
  }

  lemma JobsDoNotCollide(jobs: seq<Job>, events: seq<Replayed>, base: map<string, Mark>, m: nat)
    requires NoLaterJobs(jobs, base) && EventsApart(events, base) && m < |events|
    ensures JobFree(jobs + JobsOf(events[..m]), JobOf(events[m]))
  {
    var all := jobs + JobsOf(events[..m]);
    forall i | 0 <= i < |all|
      ensures !Collides(all[i], JobOf(events[m]))
    {
      if i >= |jobs| {
        var q := i - |jobs|;
        assert all[i] == JobOf(events[q]);
      }
    }
  }

  lemma {:induction false} ReplaySucceeds(t: Tables, events: seq<Replayed>, write: Writer, base: map<string, Mark>, m: nat)
    requires NoLaterJobs(t.jobs, base) && EventsApart(events, base) && m <= |events|
    ensures ReplayAll(t, events[..m], write).Some?
    decreases m
  {
    hide NoLaterJobs, EventsApart, JobFree, JobOf, JobsOf, MarkMoved, Upsert, Frontier, Logged;
    if m > 0 {
      ReplaySucceeds(t, events, write, base, m - 1);
      ReplayTables(t, events[..m - 1], write);
      JobsDoNotCollide(t.jobs, events, base, m - 1);
      assert events[..m][..m - 1] == events[..m - 1];
    }
  }

  /** A copy without cleanup jobs for later revocations takes every accepted delta. */
  lemma AcceptedReplays(delta: Delta, manifest: string, base: map<string, Mark>, anchor: Tables, backup: Tables,
                        copy: Tables, read: Reader, write: Writer)
    requires Accepted(delta, manifest, base, anchor, backup, read) && NoLaterJobs(copy.jobs, base)
    ensures ReplayAll(copy, ReplayOf(delta.entries), write).Some?
  {
    hide EntryAgrees, EntryShape, NoLaterJobs, EventsApart, ReplayAll, Namespaces;
    KeysCount(base);
    EntriesApart(delta.entries);
    EventsAreApart(delta.entries, base, anchor, backup, read);
    var events := ReplayOf(delta.entries);
    ReplaySucceeds(copy, events, write, base, |events|);
    assert events[..|events|] == events;
  }

  lemma KeysCount(base: map<string, Mark>)
    ensures |base.Keys| == |base|
  {
  }

  // ---- which backups can be restored ----

  const KNOWN_MIGRATIONS: seq<nat> := [1, 2, 4, 5, 6, 7]
  const ROOT_BUDGET_MIGRATION := 5

  /** The migrations a backup lacks, in order. */
  method MissingMigrations(versions: seq<nat>) returns (r: Result<seq<nat>>)
    ensures r.Ok? <==> versions <= KNOWN_MIGRATIONS && ROOT_BUDGET_MIGRATION in versions
    ensures r.Ok? ==> versions + r.value == KNOWN_MIGRATIONS
  {
    if versions == [] || |versions| > |KNOWN_MIGRATIONS| || versions != KNOWN_MIGRATIONS[..|versions|] {
      return Err(Invalid);
    }
    var last := versions[|versions| - 1];
    if last < ROOT_BUDGET_MIGRATION {
      NotYet(versions);
      return Err(Invalid);
    }
    assert versions[3] == 5;
    return Ok(KNOWN_MIGRATIONS[|versions|..]);
  }

  lemma NotYet(versions: seq<nat>)
    requires versions != [] && versions <= KNOWN_MIGRATIONS && versions[|versions| - 1] < ROOT_BUDGET_MIGRATION
    ensures ROOT_BUDGET_MIGRATION !in versions
  {
    forall i | 0 <= i < |versions|
      ensures versions[i] < 5
    {
      assert versions[i] == KNOWN_MIGRATIONS[i] && versions[|versions| - 1] == KNOWN_MIGRATIONS[|versions| - 1];
    }
  }
}
