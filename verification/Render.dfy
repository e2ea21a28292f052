/** The compact printers: a stack of jobs instead of recursion, with an optional byte limit. */
module Render {
  import opened Wrappers
  import opened Numbers
  import opened Strings
  import opened Json
  import opened Cursor
  import opened Arenas
  import Limits

  datatype Job = NodeJob(id: nat) | RawJob(text: string) | KeyJob(key: string)

  /** The compact text of a value whose numbers print as f says. */
  function TextOf<N>(t: Json<N>, f: N -> string): string
    requires Shaped(t)
  {
    MapShaped(t, f);
    Print(MapNum(t, f))
  }

  /** What is still printed for one job; t is the value a node job stands for. */
  ghost function JobText<N>(job: Job, t: Json<N>, f: N -> string): string {
    match job
    case NodeJob(_) => if Shaped(t) then TextOf(t, f) else ""
    case RawJob(text) => text
    case KeyJob(key) => Quote(key)
  }

  ghost predicate JobsStand<N>(nodes: seq<Node<N>>, jobs: seq<Job>, values: seq<Json<N>>) {
    && |jobs| == |values|
    && forall i :: 0 <= i < |jobs| && jobs[i].NodeJob? ==> Denotes(nodes, jobs[i].id, values[i]) && Shaped(values[i])
  }

  /** What is still printed: the last job comes first. */
  ghost function Pending<N>(jobs: seq<Job>, values: seq<Json<N>>, f: N -> string): string
    requires |jobs| == |values|
  {
    if jobs == [] then ""
    else
      var n := |jobs| - 1;
      JobText(jobs[n], values[n], f) + Pending(jobs[..n], values[..n], f)
  }

  lemma PendingPush<N>(jobs: seq<Job>, values: seq<Json<N>>, f: N -> string, job: Job, t: Json<N>)
    requires |jobs| == |values|
    ensures Pending(jobs + [job], values + [t], f) == JobText(job, t, f) + Pending(jobs, values, f)
  {
    hide JobText;
    assert (jobs + [job])[..|jobs|] == jobs && (values + [t])[..|values|] == values;
  }

  lemma JobsPush<N>(nodes: seq<Node<N>>, jobs: seq<Job>, values: seq<Json<N>>, job: Job, t: Json<N>)
    requires JobsStand(nodes, jobs, values)
    requires job.NodeJob? ==> Denotes(nodes, job.id, t) && Shaped(t)
    ensures JobsStand(nodes, jobs + [job], values + [t])
  {
    hide Denotes, Shaped;
  }

  function Lead(i: nat, n: nat): string {
    if 0 < i < n then "," else ""
  }

  lemma JoinStep(pieces: seq<string>, i: nat, tail: string)
    requires i < |pieces|
    ensures Join(pieces[i..]) + tail == pieces[i] + (Lead(i + 1, |pieces|) + (Join(pieces[i + 1..]) + tail))
  {
    var all := pieces[i..];
    assert all[1..] == pieces[i + 1..];
    if i + 1 < |pieces| {
      assert Join(all) == all[0] + "," + Join(all[1..]);
      assert (all[0] + "," + Join(all[1..])) + tail == all[0] + ("," + (Join(all[1..]) + tail));
    } else {
      assert Join(all) == pieces[i];
      assert "" + ("" + tail) == tail;
    }
  }

  /** Pushes the jobs of an array's items, so that they come off in order with commas between them. */
  method PushItems<N>(nodes: seq<Node<N>>, jobs: seq<Job>, ghost values: seq<Json<N>>, ids: seq<nat>, ghost items: seq<Json<N>>,
                      ghost pieces: seq<string>, ghost f: N -> string)
    returns (more: seq<Job>, ghost moreValues: seq<Json<N>>)
    requires JobsStand(nodes, jobs, values) && |ids| == |items| == |pieces|
    requires forall i :: 0 <= i < |items| ==> Denotes(nodes, ids[i], items[i]) && Shaped(items[i])
    requires forall i :: 0 <= i < |items| ==> pieces[i] == JobText(NodeJob(ids[i]), items[i], f)
    ensures JobsStand(nodes, more, moreValues)
    ensures Pending(more, moreValues, f) == Join(pieces) + ("]" + Pending(jobs, values, f))
  {
    hide Denotes, Shaped, Pending, JobText, JobsStand, Join;
    SameLength(nodes, jobs, values);
    ghost var tail := "]" + Pending(jobs, values, f);
    more, moreValues := jobs + [RawJob("]")], values + [Null];
    RawPush(nodes, jobs, values, f, "]");
    JoinNothing(pieces, tail);
    var i := |ids|;
    while i > 0
      invariant 0 <= i <= |ids|
      invariant JobsStand(nodes, more, moreValues) && |more| == |moreValues|
      invariant Pending(more, moreValues, f) == Lead(i, |ids|) + (Join(pieces[i..]) + tail)
    {
      i := i - 1;
      JoinStep(pieces, i, tail);
      NodePush(nodes, more, moreValues, f, ids[i], items[i]);
      more, moreValues := more + [NodeJob(ids[i])], moreValues + [items[i]];
      if i > 0 {
        RawPush(nodes, more, moreValues, f, ",");
        more, moreValues := more + [RawJob(",")], moreValues + [Null];
      }
    }
    assert pieces[0..] == pieces;
    NoLead(Join(pieces) + tail);
  }

  lemma SameLength<N>(nodes: seq<Node<N>>, jobs: seq<Job>, values: seq<Json<N>>)
    requires JobsStand(nodes, jobs, values)
    ensures |jobs| == |values|
  {
  }

  lemma NoLead(s: string)
    ensures "" + s == s
  {
  }

  lemma JoinNothing(pieces: seq<string>, tail: string)
    ensures Lead(|pieces|, |pieces|) + (Join(pieces[|pieces|..]) + tail) == tail
  {
  }

  lemma RawPush<N>(nodes: seq<Node<N>>, jobs: seq<Job>, values: seq<Json<N>>, f: N -> string, text: string)
    requires JobsStand(nodes, jobs, values)
    ensures |jobs| == |values|
    ensures JobsStand(nodes, jobs + [RawJob(text)], values + [Null])
    ensures |jobs + [RawJob(text)]| == |values + [Null]|
    ensures Pending(jobs + [RawJob(text)], values + [Null], f) == text + Pending(jobs, values, f)
  {
    hide Denotes, Shaped, Pending;
    JobsPush(nodes, jobs, values, RawJob(text), Null);
    PendingPush(jobs, values, f, RawJob(text), Null);
  }

  lemma KeyPush<N>(nodes: seq<Node<N>>, jobs: seq<Job>, values: seq<Json<N>>, f: N -> string, key: string)
    requires JobsStand(nodes, jobs, values)
    ensures |jobs| == |values|
    ensures JobsStand(nodes, jobs + [KeyJob(key)], values + [Null])
    ensures |jobs + [KeyJob(key)]| == |values + [Null]|
    ensures Pending(jobs + [KeyJob(key)], values + [Null], f) == Quote(key) + Pending(jobs, values, f)
  {
    hide Denotes, Shaped, Pending, Quote;
    JobsPush(nodes, jobs, values, KeyJob(key), Null);
    PendingPush(jobs, values, f, KeyJob(key), Null);
  }

  lemma NodePush<N>(nodes: seq<Node<N>>, jobs: seq<Job>, values: seq<Json<N>>, f: N -> string, id: nat, t: Json<N>)
    requires JobsStand(nodes, jobs, values) && Denotes(nodes, id, t) && Shaped(t)
    ensures |jobs| == |values|
    ensures JobsStand(nodes, jobs + [NodeJob(id)], values + [t])
    ensures |jobs + [NodeJob(id)]| == |values + [t]|
    ensures Pending(jobs + [NodeJob(id)], values + [t], f) == JobText(NodeJob(id), t, f) + Pending(jobs, values, f)
  {
    hide Denotes, Shaped, Pending, JobText;
    JobsPush(nodes, jobs, values, NodeJob(id), t);
    PendingPush(jobs, values, f, NodeJob(id), t);
  }

  lemma Regroup(key: string, text: string, tail: string)
    ensures (key + ":" + text) + tail == key + (":" + (text + tail))
  {
    assert (key + ":" + text) + tail == key + (":" + (text + tail));
  }

  /** Pushes the jobs of an object's fields: key, colon and value, commas between fields. */
  method PushFields<N>(nodes: seq<Node<N>>, jobs: seq<Job>, ghost values: seq<Json<N>>, keys: seq<string>, ids: seq<nat>,
                       ghost items: seq<Json<N>>, ghost pieces: seq<string>, ghost f: N -> string)
    returns (more: seq<Job>, ghost moreValues: seq<Json<N>>)
    requires JobsStand(nodes, jobs, values) && |ids| == |items| == |pieces| == |keys|
    requires forall i :: 0 <= i < |items| ==> Denotes(nodes, ids[i], items[i]) && Shaped(items[i])
    requires forall i :: 0 <= i < |items| ==>
               pieces[i] == Quote(keys[i]) + ":" + JobText(NodeJob(ids[i]), items[i], f)
    ensures JobsStand(nodes, more, moreValues)
    ensures Pending(more, moreValues, f) == Join(pieces) + ("}" + Pending(jobs, values, f))
  {
    hide Denotes, Shaped, Pending, JobText, JobsStand, Join, Quote;
    SameLength(nodes, jobs, values);
    ghost var tail := "}" + Pending(jobs, values, f);
    more, moreValues := jobs + [RawJob("}")], values + [Null];
    RawPush(nodes, jobs, values, f, "}");
    JoinNothing(pieces, tail);
    var i := |ids|;
    while i > 0
      invariant 0 <= i <= |ids|
      invariant JobsStand(nodes, more, moreValues) && |more| == |moreValues|
      invariant Pending(more, moreValues, f) == Lead(i, |ids|) + (Join(pieces[i..]) + tail)
    {
      ghost var below := Pending(more, moreValues, f);
      i := i - 1;
      JoinStep(pieces, i, tail);
      Regroup(Quote(keys[i]), JobText(NodeJob(ids[i]), items[i], f), below);
      NodePush(nodes, more, moreValues, f, ids[i], items[i]);
      more, moreValues := more + [NodeJob(ids[i])], moreValues + [items[i]];
      RawPush(nodes, more, moreValues, f, ":");
      more, moreValues := more + [RawJob(":")], moreValues + [Null];
      KeyPush(nodes, more, moreValues, f, keys[i]);
      more, moreValues := more + [KeyJob(keys[i])], moreValues + [Null];
      if i > 0 {
        RawPush(nodes, more, moreValues, f, ",");
        more, moreValues := more + [RawJob(",")], moreValues + [Null];
      }
    }
    assert pieces[0..] == pieces;
    NoLead(Join(pieces) + tail);
  }

  // ---- the loop ----

  /** The text of a node that is no container. */
  function LeafText<N>(node: Node<N>, f: N -> string): string {
    match node
    case NullNode => "null"
    case BoolNode(b) => if b then "true" else "false"
    case StringNode(s) => Quote(s)
    case NumberNode(n) => f(n)
    case _ => ""
  }

  lemma LeafPrints<N>(nodes: seq<Node<N>>, id: nat, t: Json<N>, f: N -> string)
    requires Denotes(nodes, id, t) && Shaped(t)
    ensures id < |nodes|
    ensures !nodes[id].ArrayNode? && !nodes[id].ObjectNode? ==> TextOf(t, f) == LeafText(nodes[id], f)
  {
    hide Quote;
  }

  ghost function Pieces<N>(t: Json<N>, f: N -> string): (r: seq<string>)
    requires Shaped(t)
  {
    match t
    case Arr(items) =>
      MapShaped(t, f);
      Texts(MapNums(items, f))
    case Obj(keys, values) =>
      MapShaped(t, f);
      Fields(keys, Texts(MapNums(values, f)))
    case _ => []
  }

  lemma ArrayPrints<N>(nodes: seq<Node<N>>, id: nat, t: Json<N>, f: N -> string)
    requires Denotes(nodes, id, t) && Shaped(t) && nodes[id].ArrayNode?
    ensures t.Arr? && |nodes[id].ids| == |t.items| == |Pieces(t, f)|
    ensures forall i :: 0 <= i < |t.items| ==> Denotes(nodes, nodes[id].ids[i], t.items[i]) && Shaped(t.items[i])
    ensures forall i :: 0 <= i < |t.items| ==> Pieces(t, f)[i] == JobText(NodeJob(nodes[id].ids[i]), t.items[i], f)
    ensures forall rest: string :: TextOf(t, f) + rest == "[" + (Join(Pieces(t, f)) + ("]" + rest))
  {
    hide Join;
    MapShaped(t, f);
    assert forall rest: string, body: string :: ("[" + body + "]") + rest == "[" + (body + ("]" + rest));
  }

  lemma ObjectPrints<N>(nodes: seq<Node<N>>, id: nat, t: Json<N>, f: N -> string)
    requires Denotes(nodes, id, t) && Shaped(t) && nodes[id].ObjectNode?
    ensures t.Obj? && nodes[id].keys == t.keys && |t.keys| == |nodes[id].ids| == |t.values| == |Pieces(t, f)|
    ensures forall i :: 0 <= i < |t.values| ==> Denotes(nodes, nodes[id].ids[i], t.values[i]) && Shaped(t.values[i])
    ensures forall i :: 0 <= i < |t.values| ==>
              Pieces(t, f)[i] == Quote(t.keys[i]) + ":" + JobText(NodeJob(nodes[id].ids[i]), t.values[i], f)
    ensures forall rest: string :: TextOf(t, f) + rest == "{" + (Join(Pieces(t, f)) + ("}" + rest))
  {
    hide Join, Quote, Sorted;
    MapShaped(t, f);
    assert forall rest: string, body: string :: ("{" + body + "}") + rest == "{" + (body + ("}" + rest));
  }

  /** The bytes allowed for a text, if they are limited. */
  predicate WithinLimit(s: string, limit: Option<nat>) {
    limit.None? || Bytes(s) <= limit.value
  }

  /** Appends to the text unless that exceeds the limit. */
  method Append(out: string, s: string, limit: Option<nat>) returns (r: Result<string>)
    ensures r == if WithinLimit(out + s, limit) then Ok(out + s) else Err(Resource)
  {
    if limit.Some? {
      BytesConcat(out, s);
      if Bytes(out) + Bytes(s) > limit.value {
        return Err(Resource);
      }
    }
    return Ok(out + s);
  }

  lemma LimitPrefix(s: string, rest: string, limit: Option<nat>)
    requires WithinLimit(s + rest, limit)
    ensures WithinLimit(s, limit)
  {
    BytesConcat(s, rest);
  }

  lemma Associates(out: string, s: string, rest: string)
    ensures (out + s) + rest == out + (s + rest)
  {
  }

  lemma JobsPop<N>(nodes: seq<Node<N>>, jobs: seq<Job>, values: seq<Json<N>>, f: N -> string)
    requires JobsStand(nodes, jobs, values) && jobs != []
    ensures var n := |jobs| - 1;
            && |values| == |jobs|
            && JobsStand(nodes, jobs[..n], values[..n])
            && Pending(jobs, values, f) == JobText(jobs[n], values[n], f) + Pending(jobs[..n], values[..n], f)
            && (jobs[n].NodeJob? ==> Denotes(nodes, jobs[n].id, values[n]) && Shaped(values[n]))
  {
    hide Denotes, Shaped, JobText;
  }

  /** Prints one node job: a leaf appends its text, a container its bracket and leaves the rest as jobs. */
  method RenderNode<N>(nodes: seq<Node<N>>, jobs: seq<Job>, ghost values: seq<Json<N>>, id: nat, ghost t: Json<N>,
                       f: N -> string) returns (head: string, more: seq<Job>, ghost moreValues: seq<Json<N>>)
    requires JobsStand(nodes, jobs, values) && Denotes(nodes, id, t) && Shaped(t)
    ensures |jobs| == |values| && JobsStand(nodes, more, moreValues) && |more| == |moreValues|
    ensures TextOf(t, f) + Pending(jobs, values, f) == head + Pending(more, moreValues, f)
    ensures head != "" || more == jobs
  {
    hide Denotes, Shaped, Pending, JobText, JobsStand, Join, Quote, TextOf, Pieces, LeafText;
    SameLength(nodes, jobs, values);
    LeafPrints(nodes, id, t, f);
    match nodes[id]
    case ArrayNode(ids) =>
      ArrayPrints(nodes, id, t, f);
      more, moreValues := PushItems(nodes, jobs, values, ids, t.items, Pieces(t, f), f);
      SameLength(nodes, more, moreValues);
      head := "[";
    case ObjectNode(keys, ids) =>
      ObjectPrints(nodes, id, t, f);
      more, moreValues := PushFields(nodes, jobs, values, keys, ids, t.values, Pieces(t, f), f);
      SameLength(nodes, more, moreValues);
      head := "{";
    case _ =>
      head, more, moreValues := LeafText(nodes[id], f), jobs, values;
  }

  /** Prints the value an index denotes; fails exactly when its text exceeds the limit. */
  method Render<N>(nodes: seq<Node<N>>, root: nat, f: N -> string, limit: Option<nat>, ghost t: Json<N>)
    returns (r: Result<string>)
    requires Denotes(nodes, root, t) && Shaped(t)
    ensures r == if WithinLimit(TextOf(t, f), limit) then Ok(TextOf(t, f)) else Err(Resource)
  {
    hide Denotes, Shaped, Pending, JobsStand, Quote, TextOf, WithinLimit;
    var jobs: seq<Job> := [NodeJob(root)];
    ghost var values := [t];
    var out := "";
    Start(nodes, root, t, f, limit);
    while jobs != []
      invariant JobsStand(nodes, jobs, values) && |jobs| == |values|
      invariant out + Pending(jobs, values, f) == TextOf(t, f)
      invariant WithinLimit(out, limit)
      decreases |Pending(jobs, values, f)|, |jobs|
    {
      JobsPop(nodes, jobs, values, f);
      var n := |jobs| - 1;
      var job := jobs[n];
      var head: string;
      var rest := jobs[..n];
      ghost var restValues := values[..n];
      match job {
        case RawJob(text) =>
          head := text;
        case KeyJob(key) =>
          head := Quote(key);
        case NodeJob(id) =>
          head, rest, restValues := RenderNode(nodes, rest, restValues, id, values[n], f);
      }
      Associates(out, head, Pending(rest, restValues, f));
      var appended := Append(out, head, limit);
      if WithinLimit(TextOf(t, f), limit) {
        LimitPrefix(out + head, Pending(rest, restValues, f), limit);
      }
      if appended.Err? {
        return appended;
      }
      jobs, values, out := rest, restValues, appended.value;
    }
    Finish(values, out, f);
    return Ok(out);
  }

  lemma Finish<N>(values: seq<Json<N>>, out: string, f: N -> string)
    requires values == []
    ensures out + Pending([], values, f) == out
  {
  }

  lemma Start<N>(nodes: seq<Node<N>>, root: nat, t: Json<N>, f: N -> string, limit: Option<nat>)
    requires Denotes(nodes, root, t) && Shaped(t)
    ensures JobsStand(nodes, [NodeJob(root)], [t])
    ensures "" + Pending([NodeJob(root)], [t], f) == TextOf(t, f)
    ensures WithinLimit("", limit)
  {
    hide TextOf;
    assert [NodeJob(root)][..0] == [] && [t][..0] == [];
    assert Pending([], [t][..0], f) == "";
  }

  // ---- the two printers ----

  function WireText(n: Number): string {
    n.text
  }

  /** The comparison form of a copy, if it stays within the size of a default. */
  method ComparisonUtf8(a: Arena<Decimal>, ghost t: Json<Decimal>) returns (r: Result<string>)
    requires Denotes(a.nodes, a.root, t) && Shaped(t)
    ensures r == if Bytes(ComparisonText(t)) <= Limits.MAX_DEFAULT then Ok(ComparisonText(t)) else Err(Resource)
  {
    hide Denotes, Shaped, Print, Bytes;
    r := Render(a.nodes, a.root, ComparisonToken, Some(Limits.MAX_DEFAULT), t);
  }

  /** The wire form of a value of the second pass: its numbers as serde writes them. */
  method TypedWireUtf8(nodes: seq<Node<Number>>, root: nat, ghost t: Json<Number>) returns (r: Result<string>)
    requires Denotes(nodes, root, t) && Shaped(t)
    ensures r == Ok(TextOf(t, WireText))
  {
    hide Denotes, Shaped, TextOf;
    r := Render(nodes, root, WireText, None, t);
  }
}
