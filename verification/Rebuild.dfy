/** Rebuilding a value from an arena: finished children are taken out of a table by their one parent. */
module Rebuild {
  import opened Wrappers
  import opened Json
  import opened Cursor
  import opened Arenas
  import opened Render

  /** A serde value; its numbers are the texts serde writes for them. */
  type SerdeValue = Json<string>

  /** The value below an index. */
  function ValueAt(nodes: seq<Node<Number>>, id: nat): SerdeValue
    requires ChildrenBefore(nodes) && id < |nodes|
    decreases id, 1, 0
  {
    match nodes[id]
    case NullNode => Null
    case BoolNode(b) => Bool(b)
    case StringNode(s) => Str(s)
    case NumberNode(n) => Num(n.text)
    case ArrayNode(_) => Arr(ValuesAt(nodes, id, Children(nodes[id])))
    case ObjectNode(keys, _) => Obj(keys, ValuesAt(nodes, id, Children(nodes[id])))
  }

  function ValuesAt(nodes: seq<Node<Number>>, bound: nat, ids: seq<nat>): (r: seq<SerdeValue>)
    requires ChildrenBefore(nodes) && bound < |nodes| && forall i :: 0 <= i < |ids| ==> ids[i] < bound
    ensures |r| == |ids| && forall i :: 0 <= i < |ids| ==> r[i] == ValueAt(nodes, ids[i])
    decreases bound, 0, |ids|
  {
    if ids == [] then [] else [ValueAt(nodes, ids[0])] + ValuesAt(nodes, bound, ids[1..])
  }

  lemma {:induction false} ValueAtDenotes(nodes: seq<Node<Number>>, id: nat, t: Json<Number>)
    requires ChildrenBefore(nodes) && Denotes(nodes, id, t)
    ensures ValueAt(nodes, id) == MapNum(t, WireText)
    decreases t
  {
    match t
    case Arr(items) =>
      forall i | 0 <= i < |items|
        ensures ValueAt(nodes, Children(nodes[id])[i]) == MapNum(items[i], WireText)
      {
        ValueAtDenotes(nodes, Children(nodes[id])[i], items[i]);
      }
    case Obj(_, values) =>
      forall i | 0 <= i < |values|
        ensures ValueAt(nodes, Children(nodes[id])[i]) == MapNum(values[i], WireText)
      {
        ValueAtDenotes(nodes, Children(nodes[id])[i], values[i]);
      }
    case _ =>
  }

  // ---- one parent ----

  predicate SingleParents(nodes: seq<Node<Number>>) {
    ChildrenBefore(nodes) && forall id :: 0 <= id < |nodes| ==> Refs(nodes)[id] <= 1
  }

  lemma OwnedSingle(arena: Arena<Number>)
    requires Owned(arena)
    ensures SingleParents(arena.nodes)
  {
  }

  lemma RefsLast<N>(nodes: seq<Node<N>>)
    requires nodes != []
    ensures Refs(nodes) == Refs(nodes[..|nodes| - 1]) + multiset(Children(nodes[|nodes| - 1]))
  {
  }

  lemma {:induction false} RefsHold<N>(nodes: seq<Node<N>>, a: nat, c: nat)
    requires a < |nodes|
    ensures multiset(Children(nodes[a]))[c] <= Refs(nodes)[c]
    decreases |nodes|
  {
    hide Refs, Children;
    var n := |nodes| - 1;
    RefsLast(nodes);
    if a < n {
      RefsHold(nodes[..n], a, c);
    }
  }

  lemma {:induction false} RefsCover<N>(nodes: seq<Node<N>>, a: nat, b: nat, c: nat)
    requires a < b < |nodes|
    ensures multiset(Children(nodes[a]))[c] + multiset(Children(nodes[b]))[c] <= Refs(nodes)[c]
    decreases |nodes|
  {
    hide Refs, Children;
    var n := |nodes| - 1;
    RefsLast(nodes);
    if b < n {
      RefsCover(nodes[..n], a, b, c);
    } else {
      RefsHold(nodes[..n], a, c);
    }
  }

  lemma TwoParents(nodes: seq<Node<Number>>, a: nat, b: nat, c: nat)
    requires a < b < |nodes| && c in Children(nodes[a]) && c in Children(nodes[b])
    ensures Refs(nodes)[c] >= 2
  {
    hide Refs;
    RefsCover(nodes, a, b, c);
    assert multiset(Children(nodes[a]))[c] >= 1 && multiset(Children(nodes[b]))[c] >= 1;
  }

  lemma OneParent(nodes: seq<Node<Number>>, a: nat, b: nat, c: nat)
    requires SingleParents(nodes) && a < |nodes| && b < |nodes| && c in Children(nodes[a]) && c in Children(nodes[b])
    ensures a == b
  {
    hide Refs;
    assert c < |nodes| by {
      var j :| 0 <= j < |Children(nodes[a])| && Children(nodes[a])[j] == c;
    }
    if a < b {
      TwoParents(nodes, a, b, c);
    } else if b < a {
      TwoParents(nodes, b, a, c);
    }
  }

  lemma Twice(ids: seq<nat>, i: nat, j: nat)
    requires i < j < |ids| && ids[i] == ids[j]
    ensures multiset(ids)[ids[i]] >= 2
  {
    assert ids == ids[..j] + ids[j..] && ids[i] == ids[..j][i] && ids[j] == ids[j..][0];
    assert multiset(ids[..j])[ids[i]] >= 1 && multiset(ids[j..])[ids[i]] >= 1;
  }

  lemma DistinctChildren(nodes: seq<Node<Number>>, a: nat, i: nat, j: nat)
    requires SingleParents(nodes) && a < |nodes| && i < j < |Children(nodes[a])|
    ensures Children(nodes[a])[i] != Children(nodes[a])[j]
  {
    hide Refs;
    var ids := Children(nodes[a]);
    RefsHold(nodes, a, ids[i]);
    if ids[i] == ids[j] {
      Twice(ids, i, j);
    }
  }

  // ---- the job stack ----

  datatype Task = Task(id: nat, ready: bool)

  predicate InBounds(nodes: seq<Node<Number>>, jobs: seq<Task>, root: nat) {
    && root < |nodes|
    && (forall p :: 0 <= p < |jobs| ==> jobs[p].id <= root)
    && (jobs != [] ==> jobs[0].id == root)
  }

  predicate DistinctTasks(jobs: seq<Task>) {
    forall p, q :: 0 <= p < q < |jobs| ==> jobs[p].id != jobs[q].id
  }

  /** Task q is an opened parent of task p. */
  predicate ParentOf(nodes: seq<Node<Number>>, jobs: seq<Task>, q: nat, p: nat)
    requires q < |jobs| && p < |jobs|
  {
    jobs[q].ready && jobs[q].id < |nodes| && jobs[p].id in Children(nodes[jobs[q].id])
  }

  /** Every task but the first was pushed for an opened parent below it. */
  predicate Parented(nodes: seq<Node<Number>>, jobs: seq<Task>) {
    forall p :: 0 < p < |jobs| ==> HasParent(nodes, jobs, p)
  }

  predicate HasParent(nodes: seq<Node<Number>>, jobs: seq<Task>, p: nat)
    requires p < |jobs|
  {
    exists q :: 0 <= q < p && ParentOf(nodes, jobs, q, p)
  }

  predicate Above(jobs: seq<Task>, p: nat, c: nat) {
    exists q :: p < q < |jobs| && jobs[q].id == c
  }

  predicate Present(values: seq<Option<SerdeValue>>, c: nat) {
    c < |values| && values[c].Some?
  }

  /** A child of an opened task is finished, or still stands above the task. */
  predicate Awaited(nodes: seq<Node<Number>>, jobs: seq<Task>, values: seq<Option<SerdeValue>>)
    requires forall p :: 0 <= p < |jobs| ==> jobs[p].id < |nodes|
  {
    forall p, c :: 0 <= p < |jobs| && jobs[p].ready && c in Children(nodes[jobs[p].id]) ==>
      Present(values, c) || Above(jobs, p, c)
  }

  ghost predicate Sound(nodes: seq<Node<Number>>, values: seq<Option<SerdeValue>>)
    requires ChildrenBefore(nodes)
  {
    |values| == |nodes| && forall k :: 0 <= k < |values| && values[k].Some? ==> values[k].value == ValueAt(nodes, k)
  }

  ghost predicate Working(nodes: seq<Node<Number>>, root: nat, jobs: seq<Task>, values: seq<Option<SerdeValue>>) {
    && SingleParents(nodes) && InBounds(nodes, jobs, root) && DistinctTasks(jobs) && Parented(nodes, jobs)
    && Sound(nodes, values) && Awaited(nodes, jobs, values)
    && (jobs == [] ==> Present(values, root))
  }

  function ChildTasks(ids: seq<nat>): seq<Task> {
    seq(|ids|, i requires 0 <= i < |ids| => Task(ids[|ids| - 1 - i], false))
  }

  /** What opening the last task leaves to do. */
  function Opened(jobs: seq<Task>, ids: seq<nat>): (r: seq<Task>)
    requires jobs != []
    ensures |r| == |jobs| + |ids|
    ensures forall p :: 0 <= p < |jobs| - 1 ==> r[p] == jobs[p]
    ensures r[|jobs| - 1] == Task(jobs[|jobs| - 1].id, true)
    ensures forall p :: |jobs| <= p < |r| ==> r[p] == Task(ids[|r| - 1 - p], false)
  {
    jobs[..|jobs| - 1] + [Task(jobs[|jobs| - 1].id, true)] + ChildTasks(ids)
  }

  /** The children of a task that is only now opened are not in the stack yet. */
  lemma ChildrenAbsent(nodes: seq<Node<Number>>, root: nat, jobs: seq<Task>, p: nat, j: nat)
    requires SingleParents(nodes) && InBounds(nodes, jobs, root) && DistinctTasks(jobs) && Parented(nodes, jobs)
    requires p < |jobs| && !jobs[|jobs| - 1].ready && j < |Children(nodes[jobs[|jobs| - 1].id])|
    ensures jobs[p].id != Children(nodes[jobs[|jobs| - 1].id])[j]
  {
    hide Refs;
    var id := jobs[|jobs| - 1].id;
    var c := Children(nodes[id])[j];
    assert c < id;
    if jobs[p].id == c {
      assert HasParent(nodes, jobs, p);
      var q :| 0 <= q < p && ParentOf(nodes, jobs, q, p);
      OneParent(nodes, jobs[q].id, id, c);
    }
  }

  lemma OpenedDistinct(nodes: seq<Node<Number>>, root: nat, jobs: seq<Task>, p: nat, q: nat)
    requires SingleParents(nodes) && InBounds(nodes, jobs, root) && DistinctTasks(jobs) && Parented(nodes, jobs)
    requires jobs != [] && !jobs[|jobs| - 1].ready
    requires p < q < |jobs| + |Children(nodes[jobs[|jobs| - 1].id])|
    ensures var more := Opened(jobs, Children(nodes[jobs[|jobs| - 1].id])); more[p].id != more[q].id
  {
    hide Refs, Children, SingleParents, Parented, Opened;
    var id := jobs[|jobs| - 1].id;
    var ids := Children(nodes[id]);
    var more := Opened(jobs, ids);
    if p >= |jobs| {
      DistinctChildren(nodes, id, |more| - 1 - q, |more| - 1 - p);
    } else if q >= |jobs| {
      ChildrenAbsent(nodes, root, jobs, p, |more| - 1 - q);
    }
  }

  lemma OpenedParented(nodes: seq<Node<Number>>, jobs: seq<Task>, p: nat)
    requires jobs != [] && !jobs[|jobs| - 1].ready && jobs[|jobs| - 1].id < |nodes| && Parented(nodes, jobs)
    requires 0 < p < |jobs| + |Children(nodes[jobs[|jobs| - 1].id])|
    ensures var more := Opened(jobs, Children(nodes[jobs[|jobs| - 1].id]));
            HasParent(nodes, more, p)
  {
    hide Opened, Children;
    var n := |jobs| - 1;
    var more := Opened(jobs, Children(nodes[jobs[n].id]));
    if p <= n {
      assert HasParent(nodes, jobs, p);
      var q :| 0 <= q < p && ParentOf(nodes, jobs, q, p);
      assert ParentOf(nodes, more, q, p);
    } else {
      assert ParentOf(nodes, more, n, p);
    }
  }

  lemma OpenedAwaited(nodes: seq<Node<Number>>, jobs: seq<Task>, values: seq<Option<SerdeValue>>, p: nat, c: nat)
    requires (forall p :: 0 <= p < |jobs| ==> jobs[p].id < |nodes|) && Awaited(nodes, jobs, values)
    requires p < |jobs| && !jobs[|jobs| - 1].ready && c in Children(nodes[jobs[p].id])
    requires p < |jobs| - 1 ==> jobs[p].ready
    ensures Present(values, c) || Above(Opened(jobs, Children(nodes[jobs[|jobs| - 1].id])), p, c)
  {
    hide Opened, Children;
    var n := |jobs| - 1;
    var ids := Children(nodes[jobs[n].id]);
    var more := Opened(jobs, ids);
    if p < n {
      if Above(jobs, p, c) {
        var q :| p < q < |jobs| && jobs[q].id == c;
        assert more[q].id == c;
      }
    } else {
      var j :| 0 <= j < |ids| && ids[j] == c;
      assert more[|more| - 1 - j].id == c;
    }
  }

  /** Opening a task keeps the stack in order. */
  lemma OpenedWorks(nodes: seq<Node<Number>>, root: nat, jobs: seq<Task>, values: seq<Option<SerdeValue>>)
    requires Working(nodes, root, jobs, values) && jobs != [] && !jobs[|jobs| - 1].ready
    ensures Working(nodes, root, Opened(jobs, Children(nodes[jobs[|jobs| - 1].id])), values)
  {
    hide Sound, Refs, HasParent, Above, Present, Opened, Children;
    var n := |jobs| - 1;
    var ids := Children(nodes[jobs[n].id]);
    var more := Opened(jobs, ids);
    forall p | 0 <= p < |more|
      ensures more[p].id <= root
    {
      assert p > n ==> ids[|more| - 1 - p] < jobs[n].id;
    }
    forall p, q | 0 <= p < q < |more|
      ensures more[p].id != more[q].id
    {
      OpenedDistinct(nodes, root, jobs, p, q);
    }
    forall p | 0 < p < |more|
      ensures HasParent(nodes, more, p)
    {
      OpenedParented(nodes, jobs, p);
    }
    forall p, c | 0 <= p < |more| && more[p].ready && c in Children(nodes[more[p].id])
      ensures Present(values, c) || Above(more, p, c)
    {
      OpenedAwaited(nodes, jobs, values, p, c);
    }
  }

  /** When the last task is finished, all its children are there. */
  lemma ChildrenReady(nodes: seq<Node<Number>>, root: nat, jobs: seq<Task>, values: seq<Option<SerdeValue>>, j: nat)
    requires Working(nodes, root, jobs, values) && jobs != [] && jobs[|jobs| - 1].ready
    requires j < |Children(nodes[jobs[|jobs| - 1].id])|
    ensures var c := Children(nodes[jobs[|jobs| - 1].id])[j];
            c < |values| && values[c].Some? && values[c].value == ValueAt(nodes, c)
  {
    hide Refs, ValueAt;
    var c := Children(nodes[jobs[|jobs| - 1].id])[j];
    assert !Above(jobs, |jobs| - 1, c);
  }

  /** What finishing a node leaves: the node is there, its children are taken. */
  predicate Finished(nodes: seq<Node<Number>>, id: nat, values: seq<Option<SerdeValue>>, after: seq<Option<SerdeValue>>)
    requires ChildrenBefore(nodes) && id < |nodes|
  {
    && |after| == |values| == |nodes| && after[id] == Some(ValueAt(nodes, id))
    && forall k :: 0 <= k < |values| && k != id ==> after[k] == if k in Children(nodes[id]) then None else values[k]
  }

  lemma FinishedAwaited(nodes: seq<Node<Number>>, root: nat, jobs: seq<Task>, values: seq<Option<SerdeValue>>,
                        after: seq<Option<SerdeValue>>, p: nat, c: nat)
    requires SingleParents(nodes) && InBounds(nodes, jobs, root) && DistinctTasks(jobs) && Awaited(nodes, jobs, values)
    requires p < |jobs| - 1 && jobs[p].ready && c in Children(nodes[jobs[p].id])
    requires Finished(nodes, jobs[|jobs| - 1].id, values, after)
    ensures Present(after, c) || Above(jobs[..|jobs| - 1], p, c)
  {
    hide Refs, ValueAt, Children;
    var n := |jobs| - 1;
    var id := jobs[n].id;
    if c in Children(nodes[id]) {
      OneParent(nodes, jobs[p].id, id, c);
    } else if Above(jobs, p, c) {
      var q :| p < q < |jobs| && jobs[q].id == c;
      if q < n {
        assert jobs[..n][q].id == c;
      }
    }
  }

  lemma FinishedParented(nodes: seq<Node<Number>>, jobs: seq<Task>)
    requires jobs != [] && Parented(nodes, jobs)
    ensures Parented(nodes, jobs[..|jobs| - 1])
  {
    hide Children;
    var rest := jobs[..|jobs| - 1];
    forall p | 0 < p < |rest|
      ensures HasParent(nodes, rest, p)
    {
      assert HasParent(nodes, jobs, p);
      var q :| 0 <= q < p && ParentOf(nodes, jobs, q, p);
      assert ParentOf(nodes, rest, q, p);
    }
  }

  /** Finishing the last task keeps the rest of the stack in order. */
  lemma FinishedWorks(nodes: seq<Node<Number>>, root: nat, jobs: seq<Task>, values: seq<Option<SerdeValue>>,
                      after: seq<Option<SerdeValue>>)
    requires Working(nodes, root, jobs, values) && jobs != [] && jobs[|jobs| - 1].ready
    requires Finished(nodes, jobs[|jobs| - 1].id, values, after)
    ensures Working(nodes, root, jobs[..|jobs| - 1], after)
  {
    hide Refs, Parented, ValueAt, Children, Above;
    var n := |jobs| - 1;
    var rest := jobs[..n];
    FinishedParented(nodes, jobs);
    forall p, c | 0 <= p < |rest| && rest[p].ready && c in Children(nodes[rest[p].id])
      ensures Present(after, c) || Above(rest, p, c)
    {
      FinishedAwaited(nodes, root, jobs, values, after, p, c);
    }
  }

  // ---- the loop ----

  /** Tasks left, counting those that opening them will add. */
  function Work(nodes: seq<Node<Number>>, jobs: seq<Task>): nat
    requires ChildrenBefore(nodes) && forall p :: 0 <= p < |jobs| ==> jobs[p].id < |nodes|
  {
    if jobs == [] then 0
    else
      var last := jobs[|jobs| - 1];
      Work(nodes, jobs[..|jobs| - 1]) + if last.ready then 1 else 2 * Nodes(ValueAt(nodes, last.id))
  }

  lemma ChildTasksFront(jobs: seq<Task>, ids: seq<nat>)
    requires ids != []
    ensures var all := jobs + ChildTasks(ids);
            all[..|all| - 1] == jobs + ChildTasks(ids[1..]) && all[|all| - 1] == Task(ids[0], false)
  {
  }

  lemma ValuesAtTail(nodes: seq<Node<Number>>, bound: nat, ids: seq<nat>)
    requires ChildrenBefore(nodes) && bound < |nodes| && (forall i :: 0 <= i < |ids| ==> ids[i] < bound) && ids != []
    ensures ValuesAt(nodes, bound, ids) == [ValueAt(nodes, ids[0])] + ValuesAt(nodes, bound, ids[1..])
    ensures NodesAll(ValuesAt(nodes, bound, ids)) == Nodes(ValueAt(nodes, ids[0])) + NodesAll(ValuesAt(nodes, bound, ids[1..]))
  {
    hide ValueAt, Nodes;
    assert ValuesAt(nodes, bound, ids)[1..] == ValuesAt(nodes, bound, ids[1..]);
  }

  lemma {:induction false} ChildWork(nodes: seq<Node<Number>>, bound: nat, jobs: seq<Task>, ids: seq<nat>)
    requires ChildrenBefore(nodes) && bound < |nodes| && forall i :: 0 <= i < |ids| ==> ids[i] < bound
    requires forall p :: 0 <= p < |jobs| ==> jobs[p].id < |nodes|
    ensures forall p :: 0 <= p < |jobs + ChildTasks(ids)| ==> (jobs + ChildTasks(ids))[p].id < |nodes|
    ensures Work(nodes, jobs + ChildTasks(ids)) == Work(nodes, jobs) + 2 * NodesAll(ValuesAt(nodes, bound, ids))
    decreases |ids|
  {
    hide ValueAt, Nodes, NodesAll, ValuesAt, ChildrenBefore;
    if ids == [] {
      assert jobs + ChildTasks(ids) == jobs;
      NoValues(nodes, bound);
    } else {
      ChildTasksFront(jobs, ids);
      ChildWork(nodes, bound, jobs, ids[1..]);
      ValuesAtTail(nodes, bound, ids);
    }
  }

  lemma NoValues(nodes: seq<Node<Number>>, bound: nat)
    requires ChildrenBefore(nodes) && bound < |nodes|
    ensures NodesAll(ValuesAt(nodes, bound, [])) == 0
  {
  }

  lemma NodesAtLeast(nodes: seq<Node<Number>>, id: nat)
    requires ChildrenBefore(nodes) && id < |nodes|
    ensures Nodes(ValueAt(nodes, id)) == 1 + NodesAll(ValuesAt(nodes, id, Children(nodes[id])))
  {
  }

  lemma OpenedWork(nodes: seq<Node<Number>>, jobs: seq<Task>)
    requires ChildrenBefore(nodes) && forall p :: 0 <= p < |jobs| ==> jobs[p].id < |nodes|
    requires jobs != [] && !jobs[|jobs| - 1].ready
    ensures var more := Opened(jobs, Children(nodes[jobs[|jobs| - 1].id]));
            (forall p :: 0 <= p < |more| ==> more[p].id < |nodes|) && Work(nodes, more) < Work(nodes, jobs)
  {
    hide ValueAt, Nodes, NodesAll, Children;
    var id := jobs[|jobs| - 1].id;
    var front := jobs[..|jobs| - 1] + [Task(id, true)];
    assert front[..|front| - 1] == jobs[..|jobs| - 1];
    NodesAtLeast(nodes, id);
    ChildWork(nodes, id, front, Children(nodes[id]));
  }

  /** Takes the children of a node out of the table. */
  method TakeChildren(nodes: seq<Node<Number>>, id: nat, values: seq<Option<SerdeValue>>)
    returns (r: Result<seq<SerdeValue>>, after: seq<Option<SerdeValue>>)
    requires SingleParents(nodes) && id < |nodes| == |values|
    requires forall j :: 0 <= j < |Children(nodes[id])| ==>
               var c := Children(nodes[id])[j]; values[c] == Some(ValueAt(nodes, c))
    ensures r == Ok(ValuesAt(nodes, id, Children(nodes[id])))
    ensures |after| == |values|
    ensures forall k :: 0 <= k < |values| ==> after[k] == if k in Children(nodes[id]) then None else values[k]
  {
    hide Refs, ValueAt, Children, SingleParents;
    InSingle(nodes);
    var ids := Children(nodes[id]);
    var taken: seq<SerdeValue> := [];
    after := values;
    for j := 0 to |ids|
      invariant |taken| == j && |after| == |values|
      invariant forall i :: 0 <= i < j ==> taken[i] == ValueAt(nodes, ids[i])
      invariant forall k :: 0 <= k < |values| ==> after[k] == if k in ids[..j] then None else values[k]
    {
      forall i | 0 <= i < j
        ensures ids[i] != ids[j]
      {
        DistinctChildren(nodes, id, i, j);
      }
      if after[ids[j]].None? {
        return Err(Invalid), after;
      }
      taken := taken + [after[ids[j]].value];
      after := after[ids[j] := None];
      assert ids[..j + 1] == ids[..j] + [ids[j]];
    }
    assert ids[..|ids|] == ids;
    assert taken == ValuesAt(nodes, id, ids);
    return Ok(taken), after;
  }

  lemma InSingle(nodes: seq<Node<Number>>)
    requires SingleParents(nodes)
    ensures ChildrenBefore(nodes)
  {
  }

  /** The value of a finished node, whose children are in the table. */
  method FinishNode(nodes: seq<Node<Number>>, id: nat, values: seq<Option<SerdeValue>>)
    returns (r: Result<SerdeValue>, after: seq<Option<SerdeValue>>)
    requires SingleParents(nodes) && id < |nodes| == |values|
    requires forall j :: 0 <= j < |Children(nodes[id])| ==>
               var c := Children(nodes[id])[j]; values[c] == Some(ValueAt(nodes, c))
    ensures r == Ok(ValueAt(nodes, id))
    ensures |after| == |values|
    ensures forall k :: 0 <= k < |values| ==> after[k] == if k in Children(nodes[id]) then None else values[k]
  {
    hide Refs;
    var taken;
    taken, after := TakeChildren(nodes, id, values);
    if taken.Err? {
      return Err(Invalid), after;
    }
    r := Ok(match nodes[id]
            case NullNode => Null
            case BoolNode(b) => Bool(b)
            case StringNode(s) => Str(s)
            case NumberNode(n) => Num(n.text)
            case ArrayNode(_) => Arr(taken.value)
            case ObjectNode(keys, _) => Obj(keys, taken.value));
  }

  lemma Begins(nodes: seq<Node<Number>>, root: nat, values: seq<Option<SerdeValue>>)
    requires SingleParents(nodes) && root < |nodes| == |values|
    requires forall k :: 0 <= k < |values| ==> values[k].None?
    ensures Working(nodes, root, [Task(root, false)], values)
  {
  }

  lemma InWorking(nodes: seq<Node<Number>>, root: nat, jobs: seq<Task>, values: seq<Option<SerdeValue>>)
    requires Working(nodes, root, jobs, values)
    ensures SingleParents(nodes) && ChildrenBefore(nodes) && root < |nodes| == |values|
    ensures forall p :: 0 <= p < |jobs| ==> jobs[p].id < |nodes|
    ensures jobs == [] ==> values[root] == Some(ValueAt(nodes, root))
  {
    hide ValueAt, Refs;
  }

  /** Rebuilds the value below an index. No child is ever missing, so it never fails. */
  method ReviewedTreeValue(nodes: seq<Node<Number>>, root: nat, ghost t: Json<Number>) returns (r: Result<SerdeValue>)
    requires SingleParents(nodes) && Denotes(nodes, root, t)
    ensures r == Ok(MapNum(t, WireText))
  {
    hide Working, SingleParents, ChildrenBefore, Denotes, ValueAt, Children, Refs, Work, Opened;
    DenotesInside(nodes, root, t);
    var values: seq<Option<SerdeValue>> := seq(|nodes|, _ => None);
    var jobs := [Task(root, false)];
    Begins(nodes, root, values);
    InWorking(nodes, root, jobs, values);
    while jobs != []
      invariant Working(nodes, root, jobs, values)
      invariant |values| == |nodes| && ChildrenBefore(nodes)
      invariant forall p :: 0 <= p < |jobs| ==> jobs[p].id < |nodes|
      decreases Work(nodes, jobs)
    {
      var n := |jobs| - 1;
      var id := jobs[n].id;
      if !jobs[n].ready {
        OpenedWorks(nodes, root, jobs, values);
        OpenedWork(nodes, jobs);
        jobs := Opened(jobs, Children(nodes[id]));
      } else {
        forall j | 0 <= j < |Children(nodes[id])|
          ensures var c := Children(nodes[id])[j]; c < |values| && values[c] == Some(ValueAt(nodes, c))
        {
          ChildrenReady(nodes, root, jobs, values, j);
        }
        var value, after := FinishNode(nodes, id, values);
        if value.Err? {
          return value;
        }
        after := after[id := Some(value.value)];
        FinishedWorks(nodes, root, jobs, values, after);
        FinishedWork(nodes, jobs);
        jobs, values := jobs[..n], after;
      }
      InWorking(nodes, root, jobs, values);
    }
    InWorking(nodes, root, jobs, values);
    ValueAtDenotes(nodes, root, t);
    if values[root].None? {
      return Err(Invalid);
    }
    return Ok(values[root].value);
  }

  lemma FinishedWork(nodes: seq<Node<Number>>, jobs: seq<Task>)
    requires ChildrenBefore(nodes) && forall p :: 0 <= p < |jobs| ==> jobs[p].id < |nodes|
    requires jobs != [] && jobs[|jobs| - 1].ready
    ensures Work(nodes, jobs[..|jobs| - 1]) < Work(nodes, jobs)
  {
  }

  lemma DenotesInside(nodes: seq<Node<Number>>, id: nat, t: Json<Number>)
    requires SingleParents(nodes) && Denotes(nodes, id, t)
    ensures id < |nodes| && ChildrenBefore(nodes)
  {
  }
}
