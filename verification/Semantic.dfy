/** The comparison-only copy of a value: renumbered nodes, and equality of two such copies. */
module Semantic {
  import opened Wrappers
  import opened Numbers
  import opened Json
  import opened Cursor
  import opened Arenas

  function DecimalPart(n: Number): Decimal {
    n.decimal
  }

  /** A node with its children renumbered and its number reduced to the exact decimal. */
  function Renamed(node: Node<Number>, ids: map<nat, nat>): Node<Decimal>
    requires forall j :: 0 <= j < |Children(node)| ==> Children(node)[j] in ids
  {
    match node
    case NullNode => NullNode
    case BoolNode(b) => BoolNode(b)
    case StringNode(s) => StringNode(s)
    case NumberNode(n) => NumberNode(n.decimal)
    case ArrayNode(_) => ArrayNode(RenamedIds(Children(node), ids))
    case ObjectNode(keys, _) => ObjectNode(keys, RenamedIds(Children(node), ids))
  }

  function RenamedIds(was: seq<nat>, ids: map<nat, nat>): (r: seq<nat>)
    requires forall j :: 0 <= j < |was| ==> was[j] in ids
  {
    seq(|was|, j requires 0 <= j < |was| => ids[was[j]])
  }

  /** Every numbered node's children are numbered, or still waiting. */
  ghost predicate Closed(nodes: seq<Node<Number>>, ids: map<nat, nat>, work: seq<nat>) {
    forall id, j :: id in ids && id < |nodes| && 0 <= j < |Children(nodes[id])| ==>
      Children(nodes[id])[j] in ids || Children(nodes[id])[j] in work
  }

  ghost predicate Numbering(nodes: seq<Node<Number>>, ids: map<nat, nat>) {
    && (forall id :: id in ids ==> id < |nodes| && ids[id] < |ids|)
    && (forall a, b :: a in ids && b in ids && ids[a] == ids[b] ==> a == b)
  }

  lemma {:induction false} IdsBounded(ids: set<nat>, n: nat)
    requires forall id :: id in ids ==> id < n
    ensures |ids| <= n
  {
    if n > 0 {
      var rest := ids - {n - 1};
      assert forall id :: id in rest ==> id < n - 1;
      IdsBounded(rest, n - 1);
    } else {
      assert ids == {};
    }
  }

  /** Numbers the nodes below the root in the order a work list meets them. */
  method NumberNodes(nodes: seq<Node<Number>>, root: nat) returns (ids: map<nat, nat>)
    requires ChildrenBefore(nodes) && root < |nodes|
    ensures root in ids && Numbering(nodes, ids) && Closed(nodes, ids, [])
  {
    ids := map[];
    var work: seq<nat> := [root];
    while work != []
      invariant forall i :: 0 <= i < |work| ==> work[i] < |nodes|
      invariant root in ids || root in work
      invariant Numbering(nodes, ids) && Closed(nodes, ids, work)
      invariant |ids| <= |nodes|
      decreases |nodes| - |ids|, |work|
    {
      var id := work[|work| - 1];
      ghost var before := work;
      work := work[..|work| - 1];
      assert forall w :: w in before ==> w == id || w in work;
      if id !in ids {
        ghost var numbered := ids;
        ids := ids[id := |ids|];
        IdsBounded(ids.Keys, |nodes|);
        ghost var rest := work;
        work := work + Children(nodes[id]);
        assert forall w :: w in rest ==> w in work;
        assert forall j :: 0 <= j < |Children(nodes[id])| ==> Children(nodes[id])[j] in work;
      }
    }
  }

  method CopyNodes(nodes: seq<Node<Number>>, ids: map<nat, nat>) returns (copy: seq<Node<Decimal>>)
    requires Numbering(nodes, ids) && Closed(nodes, ids, [])
    ensures |copy| == |ids|
    ensures forall id :: id in ids && id < |nodes| ==> copy[ids[id]] == Renamed(nodes[id], ids)
  {
    copy := seq(|ids|, _ => NullNode);
    for at := 0 to |nodes|
      invariant |copy| == |ids|
      invariant forall id :: id in ids && id < at ==> copy[ids[id]] == Renamed(nodes[id], ids)
    {
      if at in ids {
        copy := copy[ids[at] := Renamed(nodes[at], ids)];
      }
    }
  }

  lemma RenamedNode(nodes: seq<Node<Number>>, ids: map<nat, nat>, id: nat)
    requires Closed(nodes, ids, []) && id in ids && id < |nodes|
    ensures forall j :: 0 <= j < |Children(nodes[id])| ==> Children(nodes[id])[j] in ids
    ensures var node := Renamed(nodes[id], ids);
            && |Children(node)| == |Children(nodes[id])|
            && (forall j :: 0 <= j < |Children(node)| ==> Children(node)[j] == ids[Children(nodes[id])[j]])
            && (node.ArrayNode? <==> nodes[id].ArrayNode?) && (node.ObjectNode? <==> nodes[id].ObjectNode?)
            && (node.ObjectNode? ==> node.keys == nodes[id].keys)
  {
  }

  lemma {:induction false} CopyDenotes(nodes: seq<Node<Number>>, ids: map<nat, nat>, copy: seq<Node<Decimal>>, id: nat,
                                       t: Json<Number>)
    requires Numbering(nodes, ids) && Closed(nodes, ids, []) && |copy| == |ids|
    requires forall i :: i in ids && i < |nodes| ==> copy[ids[i]] == Renamed(nodes[i], ids)
    requires id in ids && Denotes(nodes, id, t)
    ensures Denotes(copy, ids[id], MapNum(t, DecimalPart))
    decreases t
  {
    hide Numbering, Closed, RenamedIds;
    RenamedNode(nodes, ids, id);
    NumberingBound(nodes, ids, id);
    match t
    case Arr(items) =>
      forall i | 0 <= i < |items|
        ensures Denotes(copy, ids[Children(nodes[id])[i]], MapNum(items[i], DecimalPart))
      {
        CopyDenotes(nodes, ids, copy, nodes[id].ids[i], items[i]);
      }
    case Obj(_, values) =>
      forall i | 0 <= i < |values|
        ensures Denotes(copy, ids[Children(nodes[id])[i]], MapNum(values[i], DecimalPart))
      {
        CopyDenotes(nodes, ids, copy, nodes[id].ids[i], values[i]);
      }
    case _ =>
  }

  lemma NumberingBound(nodes: seq<Node<Number>>, ids: map<nat, nat>, id: nat)
    requires Numbering(nodes, ids) && id in ids
    ensures id < |nodes| && ids[id] < |ids|
  {
  }

  /** The renumbered copy denotes the same value, with exact decimals for its numbers. */
  method SemanticCopy(nodes: seq<Node<Number>>, root: nat, ghost t: Json<Number>) returns (r: Arena<Decimal>)
    requires ChildrenBefore(nodes) && Denotes(nodes, root, t)
    ensures Denotes(r.nodes, r.root, MapNum(t, DecimalPart))
  {
    var ids := NumberNodes(nodes, root);
    var copy := CopyNodes(nodes, ids);
    CopyDenotes(nodes, ids, copy, root, t);
    return Arena(copy, ids[root]);
  }

  // ---- equality ----

  /** The pairs still to compare denote the values listed on either side. */
  ghost predicate PairsStand<N>(a: seq<Node<N>>, b: seq<Node<N>>, pending: seq<(nat, nat)>,
                                left: seq<Json<N>>, right: seq<Json<N>>) {
    && |pending| == |left| == |right|
    && forall i :: 0 <= i < |pending| ==> Denotes(a, pending[i].0, left[i]) && Denotes(b, pending[i].1, right[i])
  }

  function Zip(a: seq<nat>, b: seq<nat>): seq<(nat, nat)>
    requires |a| == |b|
  {
    seq(|a|, i requires 0 <= i < |a| => (a[i], b[i]))
  }

  /** The values directly inside a container. */
  function Parts<N>(t: Json<N>): seq<Json<N>> {
    match t
    case Arr(items) => items
    case Obj(_, values) => values
    case _ => []
  }

  lemma {:induction false} NodesAllAppend<N>(a: seq<Json<N>>, b: seq<Json<N>>)
    ensures NodesAll(a + b) == NodesAll(a) + NodesAll(b)
  {
    if a == [] {
      assert a + b == b;
    } else {
      assert (a + b)[1..] == a[1..] + b;
      NodesAllAppend(a[1..], b);
    }
  }

  lemma NodesAllLast<N>(a: seq<Json<N>>)
    requires a != []
    ensures NodesAll(a) == NodesAll(a[..|a| - 1]) + Nodes(a[|a| - 1])
  {
    var last := [a[|a| - 1]];
    assert a == a[..|a| - 1] + last;
    NodesAllAppend(a[..|a| - 1], last);
    assert NodesAll(last[1..]) == 0;
  }

  lemma SplitLast<T>(a: seq<T>, b: seq<T>)
    requires |a| == |b| != 0
    ensures a == b <==> a[..|a| - 1] == b[..|b| - 1] && a[|a| - 1] == b[|b| - 1]
  {
    assert a == a[..|a| - 1] + [a[|a| - 1]];
    assert b == b[..|b| - 1] + [b[|b| - 1]];
  }

  lemma AppendEqual<T>(a: seq<T>, b: seq<T>, c: seq<T>, d: seq<T>)
    requires |a| == |b| && |c| == |d|
    ensures a + c == b + d <==> a == b && c == d
  {
    assert (a + c)[..|a|] == a && (b + d)[..|b|] == b;
    assert (a + c)[|a|..] == c && (b + d)[|b|..] == d;
  }

  predicate SameLeaf<N(==)>(x: Node<N>, y: Node<N>) {
    x == y && !x.ArrayNode? && !x.ObjectNode?
  }

  /** Two containers of one kind and size: what is compared next decides. */
  predicate SameFrame<N>(x: Node<N>, y: Node<N>) {
    || (x.ArrayNode? && y.ArrayNode? && |x.ids| == |y.ids|)
    || (x.ObjectNode? && y.ObjectNode? && |x.ids| == |y.ids| && x.keys == y.keys)
  }

  lemma NodesEqual<N>(a: seq<Node<N>>, b: seq<Node<N>>, i: nat, j: nat, x: Json<N>, y: Json<N>)
    requires Denotes(a, i, x) && Denotes(b, j, y)
    ensures x == y <==> SameLeaf(a[i], b[j]) || (SameFrame(a[i], b[j]) && Parts(x) == Parts(y))
  {
    match x
    case Arr(_) =>
    case Obj(_, _) =>
    case _ =>
  }

  lemma FrameParts<N>(a: seq<Node<N>>, b: seq<Node<N>>, i: nat, j: nat, x: Json<N>, y: Json<N>)
    requires Denotes(a, i, x) && Denotes(b, j, y) && SameFrame(a[i], b[j])
    ensures |a[i].ids| == |Parts(x)| == |Parts(y)|
    ensures PairsStand(a, b, Zip(a[i].ids, b[j].ids), Parts(x), Parts(y))
  {
  }

  lemma PartNodes<N>(x: Json<N>)
    ensures Nodes(x) >= 1 + NodesAll(Parts(x))
  {
  }

  lemma PairsAppend<N>(a: seq<Node<N>>, b: seq<Node<N>>, pending: seq<(nat, nat)>, left: seq<Json<N>>, right: seq<Json<N>>,
                       more: seq<(nat, nat)>, xs: seq<Json<N>>, ys: seq<Json<N>>)
    requires PairsStand(a, b, pending, left, right) && PairsStand(a, b, more, xs, ys)
    ensures PairsStand(a, b, pending + more, left + xs, right + ys)
  {
    hide Denotes;
  }

  /** Compares two copies structurally: true exactly when they denote the same value. */
  method SameValue<N(==)>(a: Arena<N>, b: Arena<N>, ghost t: Json<N>, ghost u: Json<N>) returns (same: bool)
    requires Denotes(a.nodes, a.root, t) && Denotes(b.nodes, b.root, u)
    ensures same <==> t == u
  {
    hide Denotes, Nodes, Parts, NodesAll;
    var pending := [(a.root, b.root)];
    ghost var left, right := [t], [u];
    while pending != []
      invariant PairsStand(a.nodes, b.nodes, pending, left, right)
      invariant t == u <==> left == right
      decreases NodesAll(left)
    {
      var n := |pending| - 1;
      var (i, j) := pending[n];
      ghost var x, y := left[n], right[n];
      SplitLast(left, right);
      NodesAllLast(left);
      NodesEqual(a.nodes, b.nodes, i, j, x, y);
      PartNodes(x);
      pending, left, right := pending[..n], left[..n], right[..n];
      InArena(a.nodes, i, x);
      InArena(b.nodes, j, y);
      var p, q := a.nodes[i], b.nodes[j];
      if SameLeaf(p, q) {
      } else if SameFrame(p, q) {
        FrameParts(a.nodes, b.nodes, i, j, x, y);
        NodesAllAppend(left, Parts(x));
        AppendEqual(left, right, Parts(x), Parts(y));
        PairsAppend(a.nodes, b.nodes, pending, left, right, Zip(p.ids, q.ids), Parts(x), Parts(y));
        pending, left, right := pending + Zip(p.ids, q.ids), left + Parts(x), right + Parts(y);
      } else {
        return false;
      }
    }
    return true;
  }

  lemma InArena<N>(nodes: seq<Node<N>>, id: nat, t: Json<N>)
    requires Denotes(nodes, id, t)
    ensures id < |nodes|
  {
  }
}
