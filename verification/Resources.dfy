/** The size counters over serde values and serde event streams: both count the comparison form. */
module Resources {
  import opened Wrappers
  import opened Numbers
  import opened Strings
  import opened Json
  import opened RoundTrip
  import opened Rebuild
  import opened Semantic
  import opened Limits

  /** Containers open no deeper than allowed. */
  predicate DepthOk<N>(t: Json<N>, depth: nat) {
    match t
    case Arr(items) => depth < MAX_DEPTH && forall i :: 0 <= i < |items| ==> DepthOk(items[i], depth + 1)
    case Obj(_, values) => depth < MAX_DEPTH && forall i :: 0 <= i < |values| ==> DepthOk(values[i], depth + 1)
    case _ => true
  }

  /** The values the counters let pass. */
  predicate Modest(t: SerdeValue, depth: nat) {
    AllNum(t, GoodToken) && DepthOk(t, depth) && Size(t) <= MAX_DEFAULT
  }

  // ---- sizes dominate what is inside ----

  lemma CanonizeNonempty(token: string)
    ensures Bytes(Canonize(token)) >= 1
  {
    hide ReviewedDecimal;
    if ReviewedDecimal(token).Ok? {
      DecimalCanonical(token);
    }
    assert Canonize(token) != "";
  }

  /** Every node of a value takes at least a byte. */
  lemma {:induction false} NodesWithinSize(t: SerdeValue)
    ensures Nodes(t) <= Size(t)
    decreases t, 1
  {
    hide Canonize, Bytes;
    match t
    case Str(s) => QuoteBytes(s);
    case Num(n) => CanonizeNonempty(n);
    case Arr(items) => NodesWithinSizes(items);
    case Obj(_, values) => NodesWithinSizes(values);
    case _ =>
  }

  lemma {:induction false} NodesWithinSizes(ts: seq<SerdeValue>)
    ensures NodesAll(ts) <= Sizes(ts) && |ts| <= Sizes(ts)
    decreases ts, 0
  {
    if ts != [] {
      NodesWithinSize(ts[0]);
      NodesPositive(ts[0]);
      NodesWithinSizes(ts[1..]);
    }
  }

  lemma NodesPositive<N>(t: Json<N>)
    ensures Nodes(t) >= 1
  {
  }

  lemma {:induction false} SizeInside(ts: seq<SerdeValue>, i: nat)
    requires i < |ts|
    ensures Size(ts[i]) <= Sizes(ts)
  {
    if i > 0 {
      SizeInside(ts[1..], i - 1);
    }
  }

  lemma PartSize(t: SerdeValue, i: nat)
    requires i < |Parts(t)|
    ensures Size(Parts(t)[i]) <= Size(t)
  {
    SizeInside(Parts(t), i);
  }

  /** A modest value is admitted wherever it stands, whatever names its keys have. */
  lemma {:induction false} ModestAdmitted(t: SerdeValue, depth: nat, budgeted: bool, standard: bool)
    requires Shaped(t) && DepthOk(t, depth) && Size(t) <= MAX_DEFAULT
    ensures Admitted(t, depth, budgeted, standard)
    decreases t
  {
    hide Size;
    match t
    case Arr(items) =>
      forall i | 0 <= i < |items|
        ensures Admitted(items[i], depth + 1, budgeted, false)
      {
        PartSize(t, i);
        ModestAdmitted(items[i], depth + 1, budgeted, false);
      }
    case Obj(keys, values) =>
      forall i | 0 <= i < |values|
        ensures Admitted(values[i], depth + 1, budgeted || (standard && keys[i] == "value"), keys[i] == "default")
      {
        PartSize(t, i);
        ModestAdmitted(values[i], depth + 1, budgeted || (standard && keys[i] == "value"), keys[i] == "default");
      }
    case _ =>
  }

  /** An admitted value keeps the depth limit, wherever it is put no deeper. */
  lemma {:induction false} AdmittedDepth(t: SerdeValue, depth: nat, budgeted: bool, standard: bool, at: nat)
    requires Admitted(t, depth, budgeted, standard) && at <= depth
    ensures DepthOk(t, at)
    decreases t
  {
    hide Size;
    match t
    case Arr(items) =>
      forall i | 0 <= i < |items|
        ensures DepthOk(items[i], at + 1)
      {
        AdmittedDepth(items[i], depth + 1, budgeted, false, at + 1);
      }
    case Obj(keys, values) =>
      forall i | 0 <= i < |values|
        ensures DepthOk(values[i], at + 1)
      {
        AdmittedDepth(values[i], depth + 1, budgeted || (standard && keys[i] == "value"), keys[i] == "default", at + 1);
      }
    case _ =>
  }

  // ---- the work-list counter ----

  datatype Visit = Visit(value: SerdeValue, depth: nat)

  function VisitedSizes(pending: seq<Visit>): nat {
    if pending == [] then 0 else VisitedSizes(pending[..|pending| - 1]) + Size(pending[|pending| - 1].value)
  }

  function VisitedNodes(pending: seq<Visit>): nat {
    if pending == [] then 0 else VisitedNodes(pending[..|pending| - 1]) + Nodes(pending[|pending| - 1].value)
  }

  predicate VisitOk(v: Visit) {
    Shaped(v.value) && AllNum(v.value, GoodToken) && DepthOk(v.value, v.depth)
  }

  predicate VisitsOk(pending: seq<Visit>) {
    forall i :: 0 <= i < |pending| ==> VisitOk(pending[i])
  }

  function ChildVisits(values: seq<SerdeValue>, depth: nat): (r: seq<Visit>)
    ensures |r| == |values| && forall i :: 0 <= i < |values| ==> r[i] == Visit(values[i], depth)
  {
    seq(|values|, i requires 0 <= i < |values| => Visit(values[i], depth))
  }

  lemma {:induction false} VisitedChildren(pending: seq<Visit>, values: seq<SerdeValue>, depth: nat)
    ensures VisitedSizes(pending + ChildVisits(values, depth)) == VisitedSizes(pending) + Sizes(values)
    ensures VisitedNodes(pending + ChildVisits(values, depth)) == VisitedNodes(pending) + NodesAll(values)
    decreases |values|
  {
    hide Size, Nodes;
    var all := pending + ChildVisits(values, depth);
    if values == [] {
      assert all == pending;
    } else {
      var first := [Visit(values[0], depth)];
      assert all == (pending + first) + ChildVisits(values[1..], depth);
      VisitedChildren(pending + first, values[1..], depth);
      assert (pending + first)[..|pending|] == pending;
    }
  }

  lemma ChildVisitsOk(t: SerdeValue, depth: nat)
    requires Shaped(t) && (t.Arr? || t.Obj?)
    ensures VisitOk(Visit(t, depth)) <==> depth < MAX_DEPTH && VisitsOk(ChildVisits(Parts(t), depth + 1))
  {
    hide GoodToken;
    var parts := Parts(t);
    var visits := ChildVisits(parts, depth + 1);
    if VisitsOk(visits) {
      forall i | 0 <= i < |parts|
        ensures AllNum(parts[i], GoodToken) && DepthOk(parts[i], depth + 1)
      {
        assert VisitOk(visits[i]);
      }
    }
  }

  lemma VisitsOkAppend(a: seq<Visit>, b: seq<Visit>)
    ensures VisitsOk(a + b) <==> VisitsOk(a) && VisitsOk(b)
  {
    hide VisitOk;
    if VisitsOk(a + b) {
      forall i | 0 <= i < |a| ensures VisitOk(a[i]) { assert (a + b)[i] == a[i]; }
      forall i | 0 <= i < |b| ensures VisitOk(b[i]) { assert (a + b)[|a| + i] == b[i]; }
    }
  }

  lemma VisitsOkLast(pending: seq<Visit>)
    requires pending != []
    ensures VisitsOk(pending) <==> VisitsOk(pending[..|pending| - 1]) && VisitOk(pending[|pending| - 1])
  {
    hide VisitOk;
    var n := |pending| - 1;
    assert pending == pending[..n] + [pending[n]];
    VisitsOkAppend(pending[..n], [pending[n]]);
    assert [pending[n]][0] == pending[n];
  }

  /** Bytes a node adds by itself. */
  function OwnSize(t: SerdeValue): nat {
    match t
    case Arr(items) => 2 + Commas(|items|)
    case Obj(keys, values) => 2 + KeySizes(keys) + Commas(|values|)
    case _ => Size(t)
  }

  /** Keys of an object, summed one by one until they exceed the limit. */
  method CountFields(keys: seq<string>) returns (r: Result<nat>)
    ensures r == if 2 + KeySizes(keys) + Commas(|keys|) <= MAX_DEFAULT || keys == []
                 then Ok(2 + KeySizes(keys) + Commas(|keys|)) else Err(Resource)
  {
    hide StringJsonLen;
    var fields := 2 + Commas(|keys|);
    for i := 0 to |keys|
      invariant fields + KeySizes(keys[i..]) == 2 + Commas(|keys|) + KeySizes(keys)
      invariant i > 0 ==> fields <= MAX_DEFAULT
    {
      assert keys[i..][1..] == keys[i + 1..];
      fields := fields + StringJsonLen(keys[i]) + 1;
      if fields > MAX_DEFAULT {
        return Err(Resource);
      }
    }
    return Ok(fields);
  }

  /** What one node adds, and the visits it leaves. */
  method Charge(v: Visit, pending: seq<Visit>) returns (r: Result<nat>, more: seq<Visit>)
    requires Shaped(v.value)
    ensures r.Ok? ==> r.value == OwnSize(v.value) && more == pending + ChildVisits(Parts(v.value), v.depth + 1)
    ensures r.Ok? ==> (VisitOk(v) <==> VisitsOk(ChildVisits(Parts(v.value), v.depth + 1)))
    ensures r.Err? ==> !VisitOk(v) || Size(v.value) > MAX_DEFAULT
  {
    hide StringJsonLen, VisitsOk, Sizes, KeySizes, GoodToken;
    more := pending;
    match v.value
    case Num(n) =>
      NumberVisit(v);
      if ReviewedDecimal(n).Err? {
        return Err(Invalid), more;
      }
      return Ok(Bytes(Canonize(n))), more + [];
    case Arr(items) =>
      ChildVisitsOk(v.value, v.depth);
      NodesWithinSizes(items);
      if v.depth >= MAX_DEPTH {
        return Err(Resource), more;
      }
      if |items| > MAX_DEFAULT {
        return Err(Resource), more;
      }
      return Ok(2 + Commas(|items|)), more + ChildVisits(items, v.depth + 1);
    case Obj(keys, values) =>
      ChildVisitsOk(v.value, v.depth);
      NodesWithinSizes(values);
      if v.depth >= MAX_DEPTH {
        return Err(Resource), more;
      }
      if |values| > MAX_DEFAULT {
        return Err(Resource), more;
      }
      r := CountFields(keys);
      more := more + ChildVisits(values, v.depth + 1);
    case _ =>
      NoVisits(v);
      return Ok(OwnSize(v.value)), more + [];
  }

  lemma NumberVisit(v: Visit)
    requires v.value.Num?
    ensures VisitOk(v) <==> ReviewedDecimal(v.value.n).Ok?
    ensures VisitsOk([]) && ChildVisits(Parts(v.value), v.depth + 1) == []
  {
  }

  lemma NoVisits(v: Visit)
    requires !v.value.Num? && !v.value.Arr? && !v.value.Obj?
    ensures VisitOk(v)
    ensures VisitsOk([]) && ChildVisits(Parts(v.value), v.depth + 1) == []
  {
  }

  lemma OwnAndParts(t: SerdeValue)
    ensures Size(t) == OwnSize(t) + Sizes(Parts(t))
    ensures Nodes(t) == 1 + NodesAll(Parts(t))
  {
  }

  /** Passes exactly the values within the limits of a default. */
  method ReviewedValueResources(value: SerdeValue) returns (r: Result<()>)
    requires Shaped(value)
    ensures r.Ok? <==> Modest(value, 0)
  {
    hide Size, Nodes, Shaped, VisitOk, VisitsOk, AllNum, DepthOk, GoodToken, Parts, OwnSize;
    var pending := [Visit(value, 0)];
    var nodes: nat, size: nat := 0, 0;
    Alone(value);
    NodesWithinSize(value);
    while pending != []
      invariant forall i :: 0 <= i < |pending| ==> Shaped(pending[i].value)
      invariant size + VisitedSizes(pending) == Size(value) && nodes + VisitedNodes(pending) == Nodes(value)
      invariant VisitsOk(pending) <==> AllNum(value, GoodToken) && DepthOk(value, 0)
      invariant size <= MAX_DEFAULT
      decreases VisitedNodes(pending)
    {
      var n := |pending| - 1;
      var v := pending[n];
      VisitsOkLast(pending);
      OwnAndParts(v.value);
      nodes := nodes + 1;
      if nodes > MAX_NODES {
        return Err(Resource);
      }
      var extra, more := Charge(v, pending[..n]);
      if extra.Err? {
        return Err(extra.error);
      }
      VisitsOkAppend(pending[..n], ChildVisits(Parts(v.value), v.depth + 1));
      VisitedChildren(pending[..n], Parts(v.value), v.depth + 1);
      PartsShaped(v.value);
      pending := more;
      size := size + extra.value;
      if size > MAX_DEFAULT {
        return Err(Resource);
      }
    }
    Nothing();
    return Ok(());
  }

  lemma PartsShaped<N>(t: Json<N>)
    requires Shaped(t)
    ensures forall i :: 0 <= i < |Parts(t)| ==> Shaped(Parts(t)[i])
  {
  }

  lemma Alone(value: SerdeValue)
    requires Shaped(value)
    ensures VisitedSizes([Visit(value, 0)]) == Size(value) && VisitedNodes([Visit(value, 0)]) == Nodes(value)
    ensures VisitsOk([Visit(value, 0)]) <==> AllNum(value, GoodToken) && DepthOk(value, 0)
  {
    hide Size, Nodes, GoodToken, Shaped, AllNum, DepthOk;
    var one := [Visit(value, 0)];
    assert one[..0] == [] && one[0] == Visit(value, 0);
    assert VisitedSizes(one[..0]) == 0 && VisitedNodes(one[..0]) == 0;
  }

  lemma Nothing()
    ensures VisitsOk([]) && VisitedSizes([]) == 0
  {
  }
}
