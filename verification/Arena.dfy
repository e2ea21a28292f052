/** Values stored as arenas of nodes: what an index denotes, and who refers to it. */
module Arenas {
  import opened Json
  import opened Cursor

  datatype Arena<+N> = Arena(nodes: seq<Node<N>>, root: nat)

  function Children<N>(node: Node<N>): seq<nat> {
    if node.ArrayNode? || node.ObjectNode? then node.ids else []
  }

  /** The index denotes the value. */
  predicate Denotes<N(==)>(nodes: seq<Node<N>>, id: nat, t: Json<N>)
    decreases t
  {
    && id < |nodes|
    && match t
       case Null => nodes[id].NullNode?
       case Bool(b) => nodes[id] == BoolNode(b)
       case Str(s) => nodes[id] == StringNode(s)
       case Num(n) => nodes[id] == NumberNode(n)
       case Arr(items) =>
         && nodes[id].ArrayNode? && |nodes[id].ids| == |items|
         && forall i :: 0 <= i < |items| ==> Denotes(nodes, nodes[id].ids[i], items[i])
       case Obj(keys, values) =>
         && nodes[id].ObjectNode? && nodes[id].keys == keys && |nodes[id].ids| == |values|
         && forall i :: 0 <= i < |values| ==> Denotes(nodes, nodes[id].ids[i], values[i])
  }

  /** An index denotes at most one value. */
  lemma {:induction false} DenotesUnique<N>(nodes: seq<Node<N>>, id: nat, t: Json<N>, u: Json<N>)
    requires Denotes(nodes, id, t) && Denotes(nodes, id, u)
    ensures t == u
    decreases t
  {
    match t
    case Arr(items) =>
      forall i | 0 <= i < |items|
        ensures items[i] == u.items[i]
      {
        DenotesUnique(nodes, nodes[id].ids[i], items[i], u.items[i]);
      }
    case Obj(_, values) =>
      forall i | 0 <= i < |values|
        ensures values[i] == u.values[i]
      {
        DenotesUnique(nodes, nodes[id].ids[i], values[i], u.values[i]);
      }
    case _ =>
  }

  /** Adding nodes changes no meaning. */
  lemma {:induction false} DenotesGrows<N>(nodes: seq<Node<N>>, more: seq<Node<N>>, id: nat, t: Json<N>)
    requires Denotes(nodes, id, t) && nodes <= more
    ensures Denotes(more, id, t)
    decreases t
  {
    match t
    case Arr(items) =>
      forall i | 0 <= i < |items|
        ensures Denotes(more, more[id].ids[i], items[i])
      {
        DenotesGrows(nodes, more, nodes[id].ids[i], items[i]);
      }
    case Obj(_, values) =>
      forall i | 0 <= i < |values|
        ensures Denotes(more, more[id].ids[i], values[i])
      {
        DenotesGrows(nodes, more, nodes[id].ids[i], values[i]);
      }
    case _ =>
  }

  // ---- ownership ----

  predicate ChildrenBefore<N>(nodes: seq<Node<N>>) {
    forall i, j :: 0 <= i < |nodes| && 0 <= j < |Children(nodes[i])| ==> Children(nodes[i])[j] < i
  }

  /** All references of the arena, with multiplicity. */
  function Refs<N>(nodes: seq<Node<N>>): multiset<nat> {
    if nodes == [] then multiset{} else Refs(nodes[..|nodes| - 1]) + multiset(Children(nodes[|nodes| - 1]))
  }

  /** Every index below n, once. */
  function Ids(n: nat): multiset<nat> {
    if n == 0 then multiset{} else Ids(n - 1) + multiset{n - 1}
  }

  lemma {:induction false} IdsOnce(n: nat, id: nat)
    ensures Ids(n)[id] == if id < n then 1 else 0
  {
    if n > 0 {
      IdsOnce(n - 1, id);
    }
  }

  /** The root is nobody's child, and every other node is the child of exactly one place. */
  predicate Owned<N>(arena: Arena<N>) {
    && ChildrenBefore(arena.nodes)
    && arena.root < |arena.nodes|
    && forall id :: 0 <= id < |arena.nodes| ==> Refs(arena.nodes)[id] == if id == arena.root then 0 else 1
  }

  lemma RefsAdd<N>(nodes: seq<Node<N>>, node: Node<N>)
    ensures Refs(nodes + [node]) == Refs(nodes) + multiset(Children(node))
  {
    assert (nodes + [node])[..|nodes|] == nodes;
  }

  lemma OwnedFromIds<N>(arena: Arena<N>)
    requires ChildrenBefore(arena.nodes)
    requires Refs(arena.nodes) + multiset{arena.root} == Ids(|arena.nodes|)
    ensures Owned(arena)
  {
    IdsOnce(|arena.nodes|, arena.root);
    assert (Refs(arena.nodes) + multiset{arena.root})[arena.root] >= 1;
    forall id | 0 <= id < |arena.nodes|
      ensures Refs(arena.nodes)[id] == if id == arena.root then 0 else 1
    {
      IdsOnce(|arena.nodes|, id);
      assert (Refs(arena.nodes) + multiset{arena.root})[id] == 1;
    }
  }
}
