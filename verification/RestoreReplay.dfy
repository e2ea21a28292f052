/** Replaying accepted revocations into the restored copy, and what the copy holds afterwards. */
module RestoreReplay {
  import opened Wrappers
  import opened Restore

  const OWNER_SCANS := ["__budget_scan", "__world_scan"]

  /** The tombstone an event stands for. */
  function Body(e: Event): Tombstone {
    Tombstone(e.source, TOMBSTONE_SCHEMA, e.kind, e.reason, e.number, e.digest, e.created)
  }

  function IdOf(e: Replayed): JobId {
    JobFor(e.namespace, e.event.kind, e.event.source, e.event.number, e.event.digest)
  }

  function JobOf(e: Replayed): Job {
    Job(e.namespace, IdOf(e), e.event.kind, e.event.source, e.event.number, e.event.digest, Pending, e.event.created)
  }

  /** The job breaks a key of the jobs table. */
  predicate Collides(a: Job, b: Job) {
    a.namespace == b.namespace && (a.id == b.id || (a.kind == b.kind && a.source == b.source && a.number == b.number))
  }

  predicate JobFree(jobs: seq<Job>, job: Job) {
    forall i :: 0 <= i < |jobs| ==> !Collides(jobs[i], job)
  }

  function Frontier(e: Replayed): seq<Node> {
    [Node(e.namespace, IdOf(e), OWNER_SCANS[0], e.event.source), Node(e.namespace, IdOf(e), OWNER_SCANS[1], e.event.source),
     Node(e.namespace, IdOf(e), e.event.kind, e.event.source)]
  }

  function Logged(e: Replayed): LogEntry {
    LogEntry(e.namespace, IdOf(e), e.event.kind, e.event.source, "logical_block_restored", e.event.created)
  }

  function MarkMoved(marks: map<string, Mark>, e: Replayed): map<string, Mark> {
    if e.namespace in marks then marks[e.namespace := Mark(e.event.number, e.event.digest)] else marks
  }

  /** One event replayed; none when its cleanup job already exists. */
  function ReplayOne(t: Tables, e: Replayed, write: Writer): Option<Tables> {
    if !JobFree(t.jobs, JobOf(e)) then None
    else
      Some(Tables(Upsert(t.tombstones, Row(e.namespace, e.event.source, write(Body(e.event)))),
                  MarkMoved(t.marks, e),
                  t.jobs + [JobOf(e)],
                  t.frontier + Frontier(e),
                  t.log + [Logged(e)],
                  t.facts))
  }

  function ReplayAll(t: Tables, events: seq<Replayed>, write: Writer): Option<Tables> {
    if events == [] then Some(t)
    else
      var before := ReplayAll(t, events[..|events| - 1], write);
      if before.None? then None else ReplayOne(before.value, events[|events| - 1], write)
  }

  lemma {:induction false} ReplayFails(t: Tables, events: seq<Replayed>, write: Writer, m: nat)
    requires m <= |events| && ReplayAll(t, events[..m], write).None?
    ensures ReplayAll(t, events, write).None?
    decreases |events|
  {
    hide ReplayOne;
    if m < |events| {
      assert events[..|events| - 1][..m] == events[..m];
      ReplayFails(t, events[..|events| - 1], write, m);
    } else {
      assert events[..m] == events;
    }
  }

  class Database {
    var tombstones: seq<Row>
    var marks: map<string, Mark>
    var jobs: seq<Job>
    var frontier: seq<Node>
    var log: seq<LogEntry>
    const facts: string

    ghost function Value(): Tables
      reads this
    {
      Tables(tombstones, marks, jobs, frontier, log, facts)
    }

    constructor (t: Tables)
      ensures Value() == t
    {
      tombstones, marks, jobs, frontier, log, facts := t.tombstones, t.marks, t.jobs, t.frontier, t.log, t.facts;
    }

    /** The statements for one event; a key that already exists stops them at the job. */
    method ReplayEvent(e: Replayed, write: Writer) returns (ok: bool)
      modifies this
      ensures ok <==> ReplayOne(old(Value()), e, write).Some?
      ensures ok ==> ReplayOne(old(Value()), e, write) == Some(Value())
    {
      tombstones := Upsert(tombstones, Row(e.namespace, e.event.source, write(Body(e.event))));
      if e.namespace in marks {
        marks := marks[e.namespace := Mark(e.event.number, e.event.digest)];
      }
      if !JobFree(jobs, JobOf(e)) {
        return false;
      }
      jobs := jobs + [JobOf(e)];
      var kinds := OWNER_SCANS + [e.event.kind];
      ghost var before := frontier;
      for i := 0 to 3
        invariant frontier == before + Frontier(e)[..i]
        invariant tombstones == Upsert(old(tombstones), Row(e.namespace, e.event.source, write(Body(e.event))))
        invariant marks == MarkMoved(old(marks), e) && jobs == old(jobs) + [JobOf(e)] && log == old(log)
      {
        assert Frontier(e)[..i + 1] == Frontier(e)[..i] + [Node(e.namespace, IdOf(e), kinds[i], e.event.source)];
        frontier := frontier + [Node(e.namespace, IdOf(e), kinds[i], e.event.source)];
      }
      assert Frontier(e)[..3] == Frontier(e);
      log := log + [Logged(e)];
      return true;
    }

    /** Replays all events in one transaction: all of them, or none. */
    method ReplayDelta(events: seq<Replayed>, write: Writer) returns (r: Result<()>)
      modifies this
      ensures r.Ok? <==> ReplayAll(old(Value()), events, write).Some?
      ensures Value() == if r.Ok? then ReplayAll(old(Value()), events, write).value else old(Value())
    {
      hide ReplayOne;
      var saved := (tombstones, marks, jobs, frontier, log);
      for i := 0 to |events|
        invariant ReplayAll(old(Value()), events[..i], write) == Some(Value())
      {
        assert events[..i + 1][..i] == events[..i] && events[..i + 1][i] == events[i];
        var ok := ReplayEvent(events[i], write);
        if !ok {
          ReplayFails(old(Value()), events, write, i + 1);
          tombstones, marks, jobs, frontier, log := saved.0, saved.1, saved.2, saved.3, saved.4;
          return Err(Conflict);
        }
      }
      assert events[..|events|] == events;
      return Ok(());
    }
  }

  // ---- what an accepted delta says about its events ----

  lemma {:induction false} LateMembers(rows: seq<Row>, namespace: string, base: nat, read: Reader)
    ensures forall l :: l in LateOf(rows, namespace, base, read) <==>
              exists i :: 0 <= i < |rows| && IsLate(rows[i], namespace, base, read, l)
  {
    if rows != [] {
      var n := |rows| - 1;
      LateMembers(rows[..n], namespace, base, read);
      assert rows == rows[..n] + [rows[n]];
      forall l
        ensures l in LateOf(rows, namespace, base, read) <==>
                exists i :: 0 <= i < |rows| && IsLate(rows[i], namespace, base, read, l)
      {
        if exists i :: 0 <= i < n && IsLate(rows[..n][i], namespace, base, read, l) {
          var i :| 0 <= i < n && IsLate(rows[..n][i], namespace, base, read, l);
          assert IsLate(rows[i], namespace, base, read, l);
        }
        if exists i :: 0 <= i < |rows| && IsLate(rows[i], namespace, base, read, l) {
          var i :| 0 <= i < |rows| && IsLate(rows[i], namespace, base, read, l);
          if i < n {
            assert IsLate(rows[..n][i], namespace, base, read, l);
          }
        }
      }
    }
  }

  predicate IsLate(row: Row, namespace: string, base: nat, read: Reader, l: Late) {
    row.namespace == namespace && read(row.raw) == Some(l.tombstone) && l.raw == row.raw && l.tombstone.number > base
  }

  lemma {:induction false} SortMembers(late: seq<Late>)
    ensures forall l :: l in SortLate(late) <==> l in late
  {
    if late != [] {
      var n := |late| - 1;
      SortMembers(late[..n]);
      assert late == late[..n] + [late[n]];
      var front := SortLate(late[..n]);
      var i := Place(front, late[n].tombstone.number);
      assert front == front[..i] + front[i..];
    }
  }

  /** The tombstones of the anchor that an entry's events bring over. */
  lemma EventRow(entry: Entry, base: Mark, anchor: Tables, backup: Tables, read: Reader, k: nat) returns (i: nat)
    requires EntryAgrees(entry, base, anchor, backup, read) && k < |entry.events|
    ensures i < |anchor.tombstones| && At(anchor.tombstones[i], entry.namespace, entry.events[k].source)
    ensures read(anchor.tombstones[i].raw) == Some(Body(entry.events[k]))
    ensures entry.events[k].number == base.number + 1 + k
  {
    hide LateOf, SortLate, Kept;
    var late := LateOf(anchor.tombstones, entry.namespace, base.number, read);
    LateMembers(anchor.tombstones, entry.namespace, base.number, read);
    SortMembers(late);
    var l := SortLate(late)[k];
    assert l in late;
    i :| 0 <= i < |anchor.tombstones| && IsLate(anchor.tombstones[i], entry.namespace, base.number, read, l);
    assert RowAgrees(anchor.tombstones[i], entry.namespace, base.number, backup.tombstones, read);
  }

  lemma RowEvent(entry: Entry, base: Mark, anchor: Tables, backup: Tables, read: Reader, i: nat) returns (k: nat)
    requires EntryAgrees(entry, base, anchor, backup, read) && i < |anchor.tombstones|
    requires anchor.tombstones[i].namespace == entry.namespace
    requires read(anchor.tombstones[i].raw).Some? && read(anchor.tombstones[i].raw).value.number > base.number
    ensures k < |entry.events| && read(anchor.tombstones[i].raw) == Some(Body(entry.events[k]))
    ensures At(anchor.tombstones[i], entry.namespace, entry.events[k].source)
  {
    hide LateOf, SortLate, Kept;
    var row := anchor.tombstones[i];
    var late := LateOf(anchor.tombstones, entry.namespace, base.number, read);
    LateMembers(anchor.tombstones, entry.namespace, base.number, read);
    SortMembers(late);
    var l := Late(read(row.raw).value, row.raw);
    assert IsLate(row, entry.namespace, base.number, read, l);
    assert l in late;
    assert l in SortLate(late);
    k :| 0 <= k < |SortLate(late)| && SortLate(late)[k] == l;
    assert RowAgrees(row, entry.namespace, base.number, backup.tombstones, read);
  }
}
