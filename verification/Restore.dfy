/** Anchored restore: a revocation delta checked against a trusted control plane, then replayed into the copy. */
module Restore {
  import opened Wrappers
  import opened Texts

  /** Ideal digests: given as text, or the hash of a tombstone's text or of a manifest. */
  datatype Digest = Hex(text: string) | TombstoneHash(raw: string) | ManifestHash(raw: string)

  predicate DigestFormat(d: Digest) {
    d.Hex? ==> IsHexDigest(d.text)
  }

  // ---- databases ----

  datatype Tombstone = Tombstone(
    id: string,
    schema: string,
    kind: string,
    reason: string,
    number: nat,
    digest: Digest,
    created: nat)

  const TOMBSTONE_SCHEMA := "rsia.revoke_tombstone.v1"
  const DELTA_SCHEMA := "rsia.revoke_delta.v1"

  /** Reads a text that is an object with exactly the fields of a tombstone. */
  type Reader = string -> Option<Tombstone>

  /** Writes a tombstone as JSON. */
  type Writer = Tombstone -> string

  datatype Row = Row(namespace: string, id: string, raw: string)

  datatype Mark = Mark(number: nat, digest: Digest)

  /** Ideal job ids; they bind everything that is hashed. */
  datatype JobId = JobFor(namespace: string, kind: string, source: string, number: nat, digest: Digest) | OtherJob(text: string)

  datatype State = Pending | Running | Complete | Failed

  datatype Job = Job(
    namespace: string,
    id: JobId,
    kind: string,
    source: string,
    number: nat,
    digest: Digest,
    state: State,
    created: nat)

  datatype Node = Node(namespace: string, job: JobId, kind: string, id: string)

  datatype LogEntry = LogEntry(namespace: string, job: JobId, kind: string, id: string, event: string, at: nat)

  /** The tables the restore reads and writes; `facts` stands for everything that may not have been consumed since. */
  datatype Tables = Tables(
    tombstones: seq<Row>,
    marks: map<string, Mark>,
    jobs: seq<Job>,
    frontier: seq<Node>,
    log: seq<LogEntry>,
    facts: string)

  predicate At(row: Row, namespace: string, id: string) {
    row.namespace == namespace && row.id == id
  }

  function Find(rows: seq<Row>, namespace: string, id: string): Option<Row> {
    if rows == [] then None
    else if At(rows[0], namespace, id) then Some(rows[0])
    else Find(rows[1..], namespace, id)
  }

  /** The primary key of the table. */
  predicate DistinctRows(rows: seq<Row>) {
    forall i, j :: 0 <= i < j < |rows| ==> !At(rows[j], rows[i].namespace, rows[i].id)
  }

  /** Inserts a row, or replaces the body of the row with that key. */
  function Upsert(rows: seq<Row>, row: Row): seq<Row> {
    if rows == [] then [row]
    else if At(rows[0], row.namespace, row.id) then [row] + rows[1..]
    else [rows[0]] + Upsert(rows[1..], row)
  }

  lemma {:induction false} FindUpsert(rows: seq<Row>, row: Row, namespace: string, id: string)
    ensures Find(Upsert(rows, row), namespace, id) ==
            if At(row, namespace, id) then Some(row) else Find(rows, namespace, id)
  {
    if rows != [] {
      FindUpsert(rows[1..], row, namespace, id);
    }
  }

  // ---- the delta ----

  datatype Event = Event(
    number: nat,
    previous: Digest,
    digest: Digest,
    kind: string,
    source: string,
    tombstone: Digest,
    reason: string,
    created: nat)

  datatype Entry = Entry(namespace: string, base: Mark, events: seq<Event>, latest: Mark)

  datatype Delta = Delta(schema: string, manifest: Digest, entries: seq<Entry>)

  datatype Replayed = Replayed(namespace: string, event: Event)

  predicate KnownKind(kind: string) {
    kind == "run" || kind == "artifact"
  }

  predicate EventShape(e: Event) {
    && e.number >= 1 && DigestFormat(e.previous) && DigestFormat(e.digest) && KnownKind(e.kind) && e.source != ""
    && DigestFormat(e.tombstone) && e.reason != ""
  }

  predicate EntryShape(e: Entry) {
    && e.namespace != "" && DigestFormat(e.base.digest) && DigestFormat(e.latest.digest)
    && forall i :: 0 <= i < |e.events| ==> EventShape(e.events[i])
  }

  // ---- what the anchor says happened ----

  /** A row the trusted control plane may hold: a readable tombstone under its own id. */
  predicate Trusted(row: Row, read: Reader) {
    var t := read(row.raw);
    t.Some? && t.value.schema == TOMBSTONE_SCHEMA && t.value.id == row.id && KnownKind(t.value.kind)
  }

  /** A revocation after the backup, with the text it is stored as. */
  datatype Late = Late(tombstone: Tombstone, raw: string)

  /** The rows of a namespace are readable, and those up to the base are in the backup with equal fields. */
  predicate RowsAgree(rows: seq<Row>, namespace: string, base: nat, backup: seq<Row>, read: Reader) {
    forall i :: 0 <= i < |rows| ==> RowAgrees(rows[i], namespace, base, backup, read)
  }

  predicate RowAgrees(row: Row, namespace: string, base: nat, backup: seq<Row>, read: Reader) {
    row.namespace == namespace ==>
      Trusted(row, read) && (read(row.raw).value.number <= base ==> Kept(row, backup, read))
  }

  /** The database holds the tombstone of the row, with equal fields. */
  predicate Kept(row: Row, tables: seq<Row>, read: Reader) {
    var found := Find(tables, row.namespace, row.id);
    found.Some? && read(found.value.raw) == read(row.raw)
  }

  /** The tombstones of a namespace after the backup, in table order. */
  function LateOf(rows: seq<Row>, namespace: string, base: nat, read: Reader): seq<Late> {
    if rows == [] then []
    else
      var front, row := LateOf(rows[..|rows| - 1], namespace, base, read), rows[|rows| - 1];
      if row.namespace == namespace && read(row.raw).Some? && read(row.raw).value.number > base
      then front + [Late(read(row.raw).value, row.raw)] else front
  }

  function Place(sorted: seq<Late>, number: nat): (i: nat)
    ensures i <= |sorted|
  {
    if sorted == [] then 0
    else if number < sorted[|sorted| - 1].tombstone.number then Place(sorted[..|sorted| - 1], number)
    else |sorted|
  }

  /** Stable sort by sequence number. */
  function SortLate(late: seq<Late>): (r: seq<Late>)
    ensures |r| == |late|
  {
    if late == [] then []
    else
      var front, last := SortLate(late[..|late| - 1]), late[|late| - 1];
      var i := Place(front, last.tombstone.number);
      front[..i] + [last] + front[i..]
  }

  function EventOf(l: Late, previous: Digest): Event {
    Event(l.tombstone.number, previous, l.tombstone.digest, l.tombstone.kind, l.tombstone.id, TombstoneHash(l.raw),
          l.tombstone.reason, l.tombstone.created)
  }

  /** The digest before the n-th revocation. */
  function DigestBefore(sorted: seq<Late>, base: Digest, n: nat): Digest
    requires n <= |sorted|
  {
    if n == 0 then base else sorted[n - 1].tombstone.digest
  }

  /** The events of the revocations, each linked to the digest before it. */
  function EventsOf(sorted: seq<Late>, base: Digest): seq<Event> {
    seq(|sorted|, i requires 0 <= i < |sorted| => EventOf(sorted[i], DigestBefore(sorted, base, i)))
  }

  lemma EventsOfAre(sorted: seq<Late>, base: Digest)
    ensures |EventsOf(sorted, base)| == |sorted|
    ensures forall i :: 0 <= i < |sorted| ==> EventsOf(sorted, base)[i] == EventOf(sorted[i], DigestBefore(sorted, base, i))
  {
  }

  /** Sequence numbers without a gap after the base, up to the latest, whose digest is the last one. */
  predicate Reaches(sorted: seq<Late>, base: Mark, latest: Mark) {
    && |sorted| == latest.number - base.number
    && (forall i :: 0 <= i < |sorted| ==> sorted[i].tombstone.number == base.number + 1 + i)
    && DigestBefore(sorted, base.digest, |sorted|) == latest.digest
  }

  /** What the anchor expects of an entry. */
  predicate EntryAgrees(entry: Entry, base: Mark, anchor: Tables, backup: Tables, read: Reader) {
    && entry.namespace in anchor.marks
    && var latest := anchor.marks[entry.namespace];
       var sorted := SortLate(LateOf(anchor.tombstones, entry.namespace, base.number, read));
       && base.number <= latest.number && entry.base == base && entry.latest == latest
       && RowsAgree(anchor.tombstones, entry.namespace, base.number, backup.tombstones, read)
       && Reaches(sorted, base, latest) && entry.events == EventsOf(sorted, base.digest)
  }

  function Namespaces(entries: seq<Entry>): set<string> {
    set i | 0 <= i < |entries| :: entries[i].namespace
  }

  /** The delta is bound to the backup, and brings it exactly to the anchor. */
  predicate Accepted(delta: Delta, manifest: string, base: map<string, Mark>, anchor: Tables, backup: Tables, read: Reader) {
    && delta.schema == DELTA_SCHEMA && delta.manifest == ManifestHash(manifest)
    && (forall i :: 0 <= i < |delta.entries| ==> EntryShape(delta.entries[i]))
    && |delta.entries| == |base| && Namespaces(delta.entries) == base.Keys
    && anchor.facts == backup.facts
    && forall i :: 0 <= i < |delta.entries| ==>
         delta.entries[i].namespace in base
         && EntryAgrees(delta.entries[i], base[delta.entries[i].namespace], anchor, backup, read)
  }

  function Tagged(namespace: string, events: seq<Event>): (r: seq<Replayed>)
    ensures |r| == |events| && forall i :: 0 <= i < |r| ==> r[i] == Replayed(namespace, events[i])
  {
    seq(|events|, i requires 0 <= i < |events| => Replayed(namespace, events[i]))
  }

  /** All events, entry after entry. */
  function ReplayOf(entries: seq<Entry>): seq<Replayed> {
    if entries == [] then []
    else
      var last := entries[|entries| - 1];
      ReplayOf(entries[..|entries| - 1]) + Tagged(last.namespace, last.events)
  }

  // ---- verifying ----

  method CollectLate(anchor: Tables, backup: Tables, namespace: string, base: nat, read: Reader)
    returns (ok: bool, late: seq<Late>)
    ensures ok <==> RowsAgree(anchor.tombstones, namespace, base, backup.tombstones, read)
    ensures ok ==> late == LateOf(anchor.tombstones, namespace, base, read)
  {
    hide Kept;
    var rows := anchor.tombstones;
    late := [];
    for i := 0 to |rows|
      invariant late == LateOf(rows[..i], namespace, base, read)
      invariant forall j :: 0 <= j < i ==> RowAgrees(rows[j], namespace, base, backup.tombstones, read)
    {
      assert rows[..i + 1][..i] == rows[..i] && rows[..i + 1][i] == rows[i];
      if rows[i].namespace == namespace {
        if !Trusted(rows[i], read) {
          assert !RowAgrees(rows[i], namespace, base, backup.tombstones, read);
          return false, [];
        }
        var t := read(rows[i].raw).value;
        if t.number <= base {
          if !Kept(rows[i], backup.tombstones, read) {
            assert !RowAgrees(rows[i], namespace, base, backup.tombstones, read);
            return false, [];
          }
        } else {
          late := late + [Late(t, rows[i].raw)];
        }
      }
    }
    assert rows[..|rows|] == rows;
    return true, late;
  }

  /** Links the revocations into events, and tells whether they reach the latest mark without a gap. */
  method LinkEvents(sorted: seq<Late>, base: Mark, latest: Mark) returns (expected: seq<Event>, reaches: bool)
    ensures expected == EventsOf(sorted, base.digest)
    ensures reaches <==> Reaches(sorted, base, latest)
  {
    hide EventOf, DigestBefore, EventsOf, Reaches;
    EventsOfAre(sorted, base.digest);
    expected := [];
    var previous := base.digest;
    var gapless := true;
    LinkStart(sorted, base);
    for i := 0 to |sorted|
      invariant expected == EventsOf(sorted, base.digest)[..i] && previous == DigestBefore(sorted, base.digest, i)
      invariant gapless <==> Gapless(sorted, base, i)
    {
      LinkStep(sorted, base, i);
      expected := expected + [EventOf(sorted[i], previous)];
      gapless := gapless && sorted[i].tombstone.number == base.number + 1 + i;
      previous := sorted[i].tombstone.digest;
    }
    LinkEnd(sorted, base, latest);
    reaches := gapless && |sorted| == latest.number - base.number && previous == latest.digest;
  }

  predicate Gapless(sorted: seq<Late>, base: Mark, n: nat)
    requires n <= |sorted|
  {
    forall j :: 0 <= j < n ==> sorted[j].tombstone.number == base.number + 1 + j
  }

  lemma LinkStart(sorted: seq<Late>, base: Mark)
    ensures EventsOf(sorted, base.digest)[..0] == [] && DigestBefore(sorted, base.digest, 0) == base.digest
    ensures Gapless(sorted, base, 0)
  {
  }

  lemma LinkStep(sorted: seq<Late>, base: Mark, i: nat)
    requires i < |sorted|
    ensures EventsOf(sorted, base.digest)[..i + 1] ==
            EventsOf(sorted, base.digest)[..i] + [EventOf(sorted[i], DigestBefore(sorted, base.digest, i))]
    ensures DigestBefore(sorted, base.digest, i + 1) == sorted[i].tombstone.digest
    ensures Gapless(sorted, base, i + 1) <==> Gapless(sorted, base, i) && sorted[i].tombstone.number == base.number + 1 + i
  {
    hide EventOf, EventsOf;
    EventsOfAre(sorted, base.digest);
    TakeOne(EventsOf(sorted, base.digest), i);
    assert EventsOf(sorted, base.digest)[i] == EventOf(sorted[i], DigestBefore(sorted, base.digest, i));
  }

  lemma TakeOne<T>(s: seq<T>, i: nat)
    requires i < |s|
    ensures s[..i + 1] == s[..i] + [s[i]]
  {
  }

  lemma LinkEnd(sorted: seq<Late>, base: Mark, latest: Mark)
    ensures EventsOf(sorted, base.digest)[..|sorted|] == EventsOf(sorted, base.digest)
    ensures Reaches(sorted, base, latest) <==>
            && |sorted| == latest.number - base.number && Gapless(sorted, base, |sorted|)
            && DigestBefore(sorted, base.digest, |sorted|) == latest.digest
  {
    hide EventsOf, DigestBefore;
    EventsOfAre(sorted, base.digest);
  }

  method VerifyEntry(entry: Entry, base: Mark, anchor: Tables, backup: Tables, read: Reader) returns (ok: bool)
    ensures ok <==> EntryAgrees(entry, base, anchor, backup, read)
  {
    hide RowsAgree, LateOf, SortLate, EventsOf, Reaches;
    if entry.namespace !in anchor.marks {
      return false;
    }
    var latest := anchor.marks[entry.namespace];
    if latest.number < base.number || (latest.number == base.number && latest.digest != base.digest) {
      StaleAnchor(entry, base, anchor, backup, read);
      return false;
    }
    if entry.base != base || entry.latest != latest {
      return false;
    }
    var agree, late := CollectLate(anchor, backup, entry.namespace, base.number, read);
    if !agree {
      return false;
    }
    var expected, reaches := LinkEvents(SortLate(late), base, latest);
    ok := reaches && entry.events == expected;
  }

  lemma NamespaceIn(entries: seq<Entry>, i: nat)
    requires i < |entries|
    ensures entries[i].namespace in Namespaces(entries)
  {
  }

  lemma NamespacesLast(entries: seq<Entry>)
    requires entries != []
    ensures Namespaces(entries) == Namespaces(entries[..|entries| - 1]) + {entries[|entries| - 1].namespace}
  {
    var n := |entries| - 1;
    forall ns
      ensures ns in Namespaces(entries) <==> ns in Namespaces(entries[..n]) + {entries[n].namespace}
    {
      if ns in Namespaces(entries) {
        var i :| 0 <= i < |entries| && entries[i].namespace == ns;
        if i < n {
          assert entries[..n][i].namespace == ns;
        }
      }
      if ns in Namespaces(entries[..n]) {
        var i :| 0 <= i < n && entries[..n][i].namespace == ns;
        assert entries[i].namespace == ns;
      }
    }
  }

  /** The marks of the entries' namespaces. */
  function LatestOf(entries: seq<Entry>, marks: map<string, Mark>): map<string, Mark> {
    if entries == [] then map[]
    else
      var ns := entries[|entries| - 1].namespace;
      var front := LatestOf(entries[..|entries| - 1], marks);
      if ns in marks then front[ns := marks[ns]] else front
  }

  lemma {:induction false} LatestIs(entries: seq<Entry>, marks: map<string, Mark>)
    ensures forall ns :: ns in LatestOf(entries, marks) <==> ns in Namespaces(entries) && ns in marks
    ensures forall ns :: ns in LatestOf(entries, marks) ==> LatestOf(entries, marks)[ns] == marks[ns]
  {
    if entries == [] {
      assert Namespaces(entries) == {};
    } else {
      hide Namespaces;
      LatestIs(entries[..|entries| - 1], marks);
      NamespacesLast(entries);
    }
  }

  lemma AgreedMark(entry: Entry, base: Mark, anchor: Tables, backup: Tables, read: Reader)
    requires EntryAgrees(entry, base, anchor, backup, read)
    ensures entry.namespace in anchor.marks
  {
    hide RowsAgree, LateOf, SortLate;
  }

  lemma AllAgreed(entries: seq<Entry>, base: map<string, Mark>, anchor: Tables, backup: Tables, read: Reader)
    requires forall i :: 0 <= i < |entries| ==>
               entries[i].namespace in base && EntryAgrees(entries[i], base[entries[i].namespace], anchor, backup, read)
    ensures Namespaces(entries) <= anchor.marks.Keys
  {
    hide EntryAgrees;
    forall i | 0 <= i < |entries|
      ensures entries[i].namespace in anchor.marks
    {
      AgreedMark(entries[i], base[entries[i].namespace], anchor, backup, read);
    }
  }

  lemma StaleAnchor(entry: Entry, base: Mark, anchor: Tables, backup: Tables, read: Reader)
    requires entry.namespace in anchor.marks
    requires var latest := anchor.marks[entry.namespace];
             latest.number < base.number || (latest.number == base.number && latest.digest != base.digest)
    ensures !EntryAgrees(entry, base, anchor, backup, read)
  {
    hide RowsAgree, LateOf, SortLate;
  }

  /** What a successful verification reports: the events to replay, and the anchor's watermarks of the backup's namespaces. */
  datatype Verified = Verified(events: seq<Replayed>, watermarks: map<string, Mark>)

  /** Checks a delta against the trusted anchor and lists the events to replay. */
  method VerifyDelta(delta: Delta, manifest: string, base: map<string, Mark>, anchor: Tables, backup: Tables, read: Reader)
    returns (r: Result<Verified>)
    ensures r.Ok? <==> Accepted(delta, manifest, base, anchor, backup, read)
    ensures r.Ok? ==> r.value.events == ReplayOf(delta.entries)
    ensures r.Ok? ==> r.value.watermarks.Keys == base.Keys
                      && forall ns :: ns in base ==> ns in anchor.marks && r.value.watermarks[ns] == anchor.marks[ns]
  {
    hide EntryAgrees, EntryShape, Namespaces;
    if delta.schema != DELTA_SCHEMA || delta.manifest != ManifestHash(manifest) {
      return Err(Invalid);
    }
    for i := 0 to |delta.entries|
      invariant forall j :: 0 <= j < i ==> EntryShape(delta.entries[j])
    {
      if !EntryShape(delta.entries[i]) {
        return Err(Invalid);
      }
    }
    if |delta.entries| != |base| || Namespaces(delta.entries) != base.Keys {
      return Err(Invalid);
    }
    if anchor.facts != backup.facts {
      return Err(Invalid);
    }
    var replay: seq<Replayed> := [];
    var latest: map<string, Mark> := map[];
    for i := 0 to |delta.entries|
      invariant replay == ReplayOf(delta.entries[..i])
      invariant latest == LatestOf(delta.entries[..i], anchor.marks)
      invariant forall j :: 0 <= j < i ==>
                  delta.entries[j].namespace in base
                  && EntryAgrees(delta.entries[j], base[delta.entries[j].namespace], anchor, backup, read)
    {
      var entry := delta.entries[i];
      NamespaceIn(delta.entries, i);
      var ok := VerifyEntry(entry, base[entry.namespace], anchor, backup, read);
      if !ok {
        return Err(Invalid);
      }
      assert delta.entries[..i + 1][..i] == delta.entries[..i] && delta.entries[..i + 1][i] == entry;
      AgreedMark(entry, base[entry.namespace], anchor, backup, read);
      latest := latest[entry.namespace := anchor.marks[entry.namespace]];
      replay := replay + Tagged(entry.namespace, entry.events);
    }
    assert delta.entries[..|delta.entries|] == delta.entries;
    AllAgreed(delta.entries, base, anchor, backup, read);
    LatestIs(delta.entries, anchor.marks);
    return Ok(Verified(replay, latest));
  }
}
