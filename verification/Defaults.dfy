/** Reviewed defaults: reading them out of an arena, writing them on the wire, and reading them back. */
module Defaults {
  import opened Wrappers
  import opened Numbers
  import opened Json
  import opened Grammar
  import opened RoundTrip
  import opened Cursor
  import opened Arenas
  import opened Limits
  import opened Reader
  import opened Semantic
  import opened Render

  datatype ValueType = BoolType | IntegerType | StringType | EnumType | StringListType | ObjectType | OpaqueType

  /** A typed default: its wire text, its comparison copy, and its comparison text. */
  datatype Typed = Typed(wire: string, semantic: Arena<Decimal>, comparison: string)

  datatype Default = NoDefault | UnknownDefault | ValueDefault(typed: Typed)

  // ---- fields of objects ----

  function Position(keys: seq<string>, key: string): (r: Option<nat>)
    ensures r.Some? ==> r.value < |keys| && keys[r.value] == key
    ensures r.None? ==> key !in keys
  {
    if keys == [] then None
    else if keys[0] == key then Some(0)
    else match Position(keys[1..], key) case None => None case Some(i) => Some(i + 1)
  }

  function FieldOf<N>(t: Json<N>, key: string): (r: Option<Json<N>>)
    ensures r.Some? ==> t.Obj? && r.value in t.values
  {
    if !t.Obj? || Position(t.keys, key).None? || Position(t.keys, key).value >= |t.values| then None
    else Some(t.values[Position(t.keys, key).value])
  }

  function Kind<N>(t: Json<N>): Option<string> {
    var kind := FieldOf(t, "kind");
    if kind.Some? && kind.value.Str? then Some(kind.value.s) else None
  }

  // ---- which values a type takes ----

  /** The number is one serde stores as an integer: it is printed without fraction and exponent. */
  predicate StoredInteger(n: Number) {
    IntegerToken(n.text)
  }

  predicate Typable(v: Json<Number>, ty: ValueType, choices: seq<string>) {
    match ty
    case BoolType => v.Bool?
    case IntegerType => v.Num? && v.n.integer && StoredInteger(v.n)
    case StringType => v.Str?
    case EnumType => v.Str? && v.s in choices
    case StringListType => v.Arr? && forall i :: 0 <= i < |v.items| ==> v.items[i].Str?
    case ObjectType => v.Obj?
    case OpaqueType => false
  }

  /** The object states a default of this type. */
  predicate Allowed(t: Json<Number>, ty: ValueType, choices: seq<string>)
    requires Shaped(t)
  {
    && t.Obj? && Kind(t).Some?
    && if Kind(t).value == "none" || Kind(t).value == "unknown" then |t.keys| == 1
       else
         && Kind(t).value == "value" && |t.keys| == 2 && FieldOf(t, "value").Some?
         && Typable(FieldOf(t, "value").value, ty, choices)
         && ComparisonSize(t) <= MAX_DEFAULT
  }

  function ComparisonSize(t: Json<Number>): nat
    requires Shaped(t) && FieldOf(t, "value").Some?
  {
    MapShaped(FieldOf(t, "value").value, DecimalPart);
    Bytes(ComparisonText(MapNum(FieldOf(t, "value").value, DecimalPart)))
  }

  /** The typed default stands for the value. */
  ghost predicate TypedStands(typed: Typed, v: Json<Number>) {
    && Shaped(v) && Shaped(MapNum(v, DecimalPart))
    && typed.wire == TextOf(v, WireText)
    && Denotes(typed.semantic.nodes, typed.semantic.root, MapNum(v, DecimalPart))
    && typed.comparison == ComparisonText(MapNum(v, DecimalPart))
  }

  ghost predicate Stands(d: Default, t: Json<Number>) {
    match d
    case NoDefault => Kind(t) == Some("none")
    case UnknownDefault => Kind(t) == Some("unknown")
    case ValueDefault(typed) =>
      Kind(t) == Some("value") && FieldOf(t, "value").Some? && TypedStands(typed, FieldOf(t, "value").value)
  }

  // ---- reading a default ----

  lemma LessChain(choices: seq<string>, i: nat, j: nat)
    requires Sorted(choices) && i < j < |choices|
    ensures Less(choices[i], choices[j]) && choices[i] != choices[j]
  {
    LessTotal(choices[i], choices[j]);
  }

  method BinarySearch(choices: seq<string>, v: string) returns (found: bool)
    requires Sorted(choices)
    ensures found <==> v in choices
  {
    hide Sorted, Less;
    var low, high := 0, |choices|;
    while low < high
      invariant 0 <= low <= high <= |choices|
      invariant forall i :: 0 <= i < low || high <= i < |choices| ==> choices[i] != v
    {
      var mid := (low + high) / 2;
      if choices[mid] == v {
        return true;
      }
      Beyond(choices, mid, v);
      if Less(choices[mid], v) {
        low := mid + 1;
      } else {
        high := mid;
      }
    }
    return false;
  }

  lemma Beyond(choices: seq<string>, mid: nat, v: string)
    requires Sorted(choices) && mid < |choices| && choices[mid] != v
    ensures Less(choices[mid], v) ==> forall i :: 0 <= i <= mid ==> choices[i] != v
    ensures !Less(choices[mid], v) ==> forall i :: mid <= i < |choices| ==> choices[i] != v
  {
    hide Less;
    LessTotal(choices[mid], v);
    forall i | 0 <= i < |choices|
      ensures Less(choices[mid], v) && i <= mid ==> choices[i] != v
      ensures !Less(choices[mid], v) && mid <= i ==> choices[i] != v
    {
      if i < mid {
        LessChain(choices, i, mid);
      } else if mid < i {
        LessChain(choices, mid, i);
      }
    }
  }

  /** The node fits the type, decided on the arena. */
  method TypeFits(nodes: seq<Node<Number>>, id: nat, ty: ValueType, choices: seq<string>, ghost v: Json<Number>)
    returns (ok: bool)
    requires Denotes(nodes, id, v) && Sorted(choices)
    ensures ok == Typable(v, ty, choices)
  {
    hide Sorted, IntegerToken;
    match ty
    case BoolType => ok := nodes[id].BoolNode?;
    case IntegerType => ok := nodes[id].NumberNode? && nodes[id].n.integer && StoredInteger(nodes[id].n);
    case StringType => ok := nodes[id].StringNode?;
    case EnumType =>
      ok := nodes[id].StringNode?;
      if ok {
        ok := BinarySearch(choices, nodes[id].s);
      }
    case StringListType =>
      if !nodes[id].ArrayNode? {
        return false;
      }
      var ids := nodes[id].ids;
      for i := 0 to |ids|
        invariant forall j :: 0 <= j < i ==> v.items[j].Str?
      {
        assert Denotes(nodes, ids[i], v.items[i]);
        if !nodes[ids[i]].StringNode? {
          return false;
        }
      }
      ok := true;
    case ObjectType => ok := nodes[id].ObjectNode?;
    case OpaqueType => ok := false;
  }

  lemma ObjectParts(nodes: seq<Node<Number>>, id: nat, t: Json<Number>)
    requires Denotes(nodes, id, t) && Shaped(t)
    ensures id < |nodes| && (nodes[id].ObjectNode? <==> t.Obj?)
    ensures t.Obj? ==> nodes[id].keys == t.keys && |t.keys| == |t.values| == |nodes[id].ids|
    ensures t.Obj? ==> forall i :: 0 <= i < |t.values| ==> Denotes(nodes, nodes[id].ids[i], t.values[i]) && Shaped(t.values[i])
  {
    hide Sorted;
  }

  lemma NodeString(nodes: seq<Node<Number>>, id: nat, t: Json<Number>)
    requires Denotes(nodes, id, t)
    ensures id < |nodes| && (nodes[id].StringNode? <==> t.Str?) && (t.Str? ==> nodes[id].s == t.s)
  {
  }

  /** The kind of a default object, read from the arena. */
  method ReadKind(nodes: seq<Node<Number>>, id: nat, ghost t: Json<Number>) returns (kind: Option<string>)
    requires Denotes(nodes, id, t) && Shaped(t)
    ensures id < |nodes|
    ensures kind == Kind(t)
    ensures kind.Some? ==> t.Obj? && nodes[id].ObjectNode?
  {
    hide Denotes, Shaped;
    ObjectParts(nodes, id, t);
    if !nodes[id].ObjectNode? {
      return None;
    }
    var at := Position(nodes[id].keys, "kind");
    if at.None? {
      return None;
    }
    var field := nodes[id].ids[at.value];
    NodeString(nodes, field, t.values[at.value]);
    if !nodes[field].StringNode? {
      return None;
    }
    return Some(nodes[field].s);
  }

  /** The comparison copy, comparison text and wire text of a value. */
  method TypedDefault(nodes: seq<Node<Number>>, id: nat, ghost v: Json<Number>) returns (r: Result<Typed>)
    requires ChildrenBefore(nodes) && Denotes(nodes, id, v) && Shaped(v)
    ensures Shaped(MapNum(v, DecimalPart))
    ensures r.Ok? <==> Bytes(ComparisonText(MapNum(v, DecimalPart))) <= MAX_DEFAULT
    ensures r.Ok? ==> TypedStands(r.value, v)
  {
    hide Denotes, Shaped, Bytes, ComparisonText, TextOf;
    MapShaped(v, DecimalPart);
    var semantic := SemanticCopy(nodes, id, v);
    var comparison := ComparisonUtf8(semantic, MapNum(v, DecimalPart));
    if comparison.Err? {
      return Err(comparison.error);
    }
    var wire := TypedWireUtf8(nodes, id, v);
    return Ok(Typed(wire.value, semantic, comparison.value));
  }

  /** Reads the default an object states. */
  method ReviewedDefault(nodes: seq<Node<Number>>, id: nat, ty: ValueType, choices: seq<string>, ghost t: Json<Number>)
    returns (r: Result<Default>)
    requires ChildrenBefore(nodes) && Denotes(nodes, id, t) && Shaped(t) && Sorted(choices)
    ensures r.Ok? <==> Allowed(t, ty, choices)
    ensures r.Ok? ==> Stands(r.value, t)
  {
    hide Denotes, Shaped, Sorted, ComparisonText, Typable, TypedStands, Bytes;
    var kind := ReadKind(nodes, id, t);
    ObjectParts(nodes, id, t);
    if kind.None? {
      return Err(Invalid);
    }
    var keys, ids := nodes[id].keys, nodes[id].ids;
    if kind.value == "none" || kind.value == "unknown" {
      if |keys| != 1 {
        return Err(Invalid);
      }
      return Ok(if kind.value == "none" then NoDefault else UnknownDefault);
    }
    if kind.value != "value" || |keys| != 2 {
      return Err(Invalid);
    }
    var at := Position(keys, "value");
    if at.None? {
      return Err(Invalid);
    }
    var value := ids[at.value];
    var fits := TypeFits(nodes, value, ty, choices, t.values[at.value]);
    if !fits {
      return Err(Invalid);
    }
    var typed := TypedDefault(nodes, value, t.values[at.value]);
    if typed.Err? {
      return Err(typed.error);
    }
    return Ok(ValueDefault(typed.value));
  }

  /** Two defaults are the same: both absent, both unknown, or the same value. */
  method ReviewedDefaultsSameValue(a: Default, b: Default, ghost t: Json<Number>, ghost u: Json<Number>) returns (same: bool)
    requires Stands(a, t) && Stands(b, u)
    ensures same <==> Kind(t) == Kind(u) && (Kind(t) == Some("value") ==> SameMeaning(t, u))
  {
    hide Shaped, ComparisonText, TextOf;
    if a.NoDefault? || a.UnknownDefault? || b.NoDefault? || b.UnknownDefault? {
      return a == b;
    }
    same := SameValue(a.typed.semantic, b.typed.semantic, MapNum(FieldOf(t, "value").value, DecimalPart),
                      MapNum(FieldOf(u, "value").value, DecimalPart));
  }

  predicate SameMeaning(t: Json<Number>, u: Json<Number>) {
    && FieldOf(t, "value").Some? && FieldOf(u, "value").Some?
    && MapNum(FieldOf(t, "value").value, DecimalPart) == MapNum(FieldOf(u, "value").value, DecimalPart)
  }

  // ---- comparison texts decide equality ----

  lemma {:induction false} ComparisonNumbers(t: Json<Decimal>)
    requires AllNum(t, Canonical)
    ensures AllNum(MapNum(t, ComparisonToken), GoodToken)
    ensures MapNum(MapNum(t, ComparisonToken), DecimalOfToken) == t
    decreases t
  {
    hide Canonical, ComparisonToken, ReviewedDecimal;
    match t
    case Num(n) => ComparisonTokenRoundTrip(n);
    case Arr(items) =>
      forall i | 0 <= i < |items|
        ensures AllNum(MapNum(items[i], ComparisonToken), GoodToken)
        ensures MapNum(MapNum(items[i], ComparisonToken), DecimalOfToken) == items[i]
      {
        ComparisonNumbers(items[i]);
      }
    case Obj(_, values) =>
      forall i | 0 <= i < |values|
        ensures AllNum(MapNum(values[i], ComparisonToken), GoodToken)
        ensures MapNum(MapNum(values[i], ComparisonToken), DecimalOfToken) == values[i]
      {
        ComparisonNumbers(values[i]);
      }
    case _ =>
  }

  /** Two meanings are equal exactly when their comparison texts are. */
  lemma ComparisonTextDecides(t: Json<Decimal>, u: Json<Decimal>)
    requires Shaped(t) && Shaped(u) && AllNum(t, Canonical) && AllNum(u, Canonical)
    ensures ComparisonText(t) == ComparisonText(u) <==> t == u
  {
    hide Canonical, ComparisonToken, ReviewedDecimal, Print, DecimalOfToken, AllNum;
    if ComparisonText(t) == ComparisonText(u) {
      MapShaped(t, ComparisonToken);
      MapShaped(u, ComparisonToken);
      ComparisonNumbers(t);
      ComparisonNumbers(u);
      PrintInjective(MapNum(t, ComparisonToken), MapNum(u, ComparisonToken));
    }
  }

  /** The meaning of a read value has canonical decimals only. */
  lemma MeaningCanonical(t: Tree)
    requires AllNum(t, GoodToken)
    ensures AllNum(Meaning(t), Canonical)
  {
    hide ReviewedDecimal, Canonical, AllNum;
    forall token | GoodToken(token)
      ensures Canonical(DecimalOfToken(token))
    {
      DecimalCanonical(token);
    }
    AllNumMapped(t, GoodToken, DecimalOfToken, Canonical);
  }

  /** Two read values mean the same exactly when their comparison texts are equal. */
  lemma SameValueSameText(t: Tree, u: Tree)
    requires Shaped(t) && Shaped(u) && AllNum(t, GoodToken) && AllNum(u, GoodToken)
    ensures Shaped(Meaning(t)) && Shaped(Meaning(u))
    ensures Meaning(t) == Meaning(u) <==> ComparisonText(Meaning(t)) == ComparisonText(Meaning(u))
  {
    hide AllNum, GoodToken, Canonical, ComparisonText, DecimalOfToken;
    MapShaped(t, DecimalOfToken);
    MapShaped(u, DecimalOfToken);
    MeaningCanonical(t);
    MeaningCanonical(u);
    ComparisonTextDecides(Meaning(t), Meaning(u));
  }
}
