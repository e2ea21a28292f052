/** Host surface defaults: the way from a reviewed default to the host's typed value and back. */
module HostDefaults {
  import opened Wrappers
  import opened Numbers
  import opened Strings
  import opened Json
  import opened Grammar
  import opened RoundTrip
  import opened Cursor
  import opened Arenas
  import opened Limits
  import opened Reader
  import opened Semantic
  import opened Render
  import opened Rebuild
  import opened Resources
  import opened Defaults

  datatype HostDefault = HostNone | HostUnknown | HostValue(value: SerdeValue)

  /** What serde writes for a host default. */
  function HostJson(h: HostDefault): SerdeValue {
    match h
    case HostNone => Obj(["kind"], [Str("none")])
    case HostUnknown => Obj(["kind"], [Str("unknown")])
    case HostValue(value) => Obj(["kind", "value"], [Str("value"), value])
  }

  /** serde reads every number it writes as that number, and writes short ones. */
  ghost predicate SerdeSound(serde: Serde) {
    forall token :: serde(token).Some? ==>
      serde(serde(token).value) == serde(token) && Bytes(serde(token).value) <= MAX_NUMBER_TEXT
  }

  const MAX_NUMBER_TEXT := 32

  predicate Short(token: string) {
    Bytes(token) <= MAX_NUMBER_TEXT
  }

  // ---- reading the wire form again ----

  /** What a number is written as. */
  function Written(serde: Serde): string -> string {
    token => NumberOf(serde, token).text
  }

  lemma WireIsWritten(serde: Serde, t: Tree)
    ensures MapNum(Loaded(serde, t), WireText) == MapNum(t, Written(serde))
    ensures MapNum(Loaded(serde, t), DecimalPart) == Meaning(t)
  {
    hide MapNum, ReviewedDecimal;
    MapCompose(t, Converted(serde), WireText, Written(serde));
    MapCompose(t, Converted(serde), DecimalPart, DecimalOfToken);
  }

  /** The numbers of the wire form are exact, good tokens, of the same meaning. */
  lemma WrittenNumbers(serde: Serde, t: Tree)
    requires AllNum(t, ExactGate(serde))
    ensures AllNum(MapNum(t, Written(serde)), GoodToken) && Meaning(MapNum(t, Written(serde))) == Meaning(t)
    ensures SerdeSound(serde) ==>
              && AllNum(MapNum(t, Written(serde)), ExactGate(serde)) && AllNum(MapNum(t, Written(serde)), Short)
              && MapNum(MapNum(t, Written(serde)), Written(serde)) == MapNum(t, Written(serde))
  {
    hide ReviewedDecimal, Bytes, IntegerToken, MapNum, AllNum;
    var gate, written := ExactGate(serde), Written(serde);
    forall token | gate(token)
      ensures GoodToken(written(token)) && DecimalOfToken(written(token)) == DecimalOfToken(token)
      ensures SerdeSound(serde) ==> gate(written(token)) && Short(written(token)) && written(written(token)) == written(token)
    {
      ExactIsGood(serde, token);
    }
    AllNumMapped(t, gate, written, GoodToken);
    var meaning := token => DecimalOfToken(written(token));
    MapCompose(t, written, DecimalOfToken, meaning);
    MapsAgree(t, gate, meaning, DecimalOfToken);
    if SerdeSound(serde) {
      AllNumMapped(t, gate, written, gate);
      AllNumMapped(t, gate, written, Short);
      var twice := token => written(written(token));
      MapCompose(t, written, written, twice);
      MapsAgree(t, gate, twice, written);
    }
  }

  /** The wire form of a loaded value is loaded as a value of the same meaning. */
  lemma WireLoads(serde: Serde, t: Tree)
    requires SerdeSound(serde) && AllNum(t, ExactGate(serde))
    ensures var v := MapNum(Loaded(serde, t), WireText);
            && AllNum(v, ExactGate(serde)) && AllNum(v, GoodToken) && AllNum(v, Short)
            && MapNum(Loaded(serde, v), DecimalPart) == MapNum(Loaded(serde, t), DecimalPart)
            && MapNum(Loaded(serde, v), WireText) == v
            && Meaning(v) == MapNum(Loaded(serde, t), DecimalPart)
  {
    hide *;
    var v := MapNum(Loaded(serde, t), WireText);
    WireIsWritten(serde, t);
    WrittenNumbers(serde, t);
    WireIsWritten(serde, v);
  }

  lemma ExactIsGood(serde: Serde, token: string)
    requires Exact(serde, token)
    ensures GoodToken(serde(token).value) && GoodToken(token)
  {
  }

  // ---- the size of the wire form ----

  /** The wire form is no longer than the comparison form, but for the numbers. */
  lemma {:induction false} WireBytes(t: SerdeValue)
    requires Shaped(t) && AllNum(t, Short)
    ensures Bytes(Print(t)) <= Size(t) + MAX_NUMBER_TEXT * Nodes(t)
    decreases t, 1
  {
    hide Canonize, StringJsonLen, Quote, Bytes;
    match t
    case Null => BytesAscii("null");
    case Bool(b) => BytesAscii("true"); BytesAscii("false");
    case Str(s) => QuoteBytes(s);
    case Num(n) => assert Short(n);
    case Arr(items) =>
      WireBytesAll(items);
      JoinBytes(Texts(items));
      BracketBytes("[", Join(Texts(items)), "]");
    case Obj(keys, values) =>
      WireBytesAll(values);
      FieldsBytes(keys, Texts(values));
      JoinBytes(Fields(keys, Texts(values)));
      BracketBytes("{", Join(Fields(keys, Texts(values))), "}");
  }

  lemma {:induction false} WireBytesAll(ts: seq<SerdeValue>)
    requires forall i :: 0 <= i < |ts| ==> Shaped(ts[i]) && AllNum(ts[i], Short)
    ensures BytesAll(Texts(ts)) <= Sizes(ts) + MAX_NUMBER_TEXT * NodesAll(ts)
    decreases ts, 0
  {
    hide Canonize, Shaped, AllNum, Print;
    if ts != [] {
      WireBytes(ts[0]);
      WireBytesAll(ts[1..]);
      assert Texts(ts)[1..] == Texts(ts[1..]);
    }
  }

  /** A text that parses, with all its numbers exact. */
  predicate Readable(raw: string, serde: Serde) {
    Accepted(raw, false) && AllNum(Document(raw).value, ExactGate(serde))
  }

  /** A value somewhat larger than a default still makes a text that parses. */
  lemma PrintedReads(t: SerdeValue, serde: Serde)
    requires Shaped(t) && AllNum(t, ExactGate(serde)) && AllNum(t, GoodToken) && AllNum(t, Short)
    requires Size(t) <= MAX_DEFAULT + 64 && Admitted(t, 0, false, false)
    ensures Readable(Print(t), serde) && Document(Print(t)) == Some(t)
  {
    hide Print, Size, Nodes, Admitted, AllNum, Shaped, Document, Bytes;
    PrintThenRead(t);
    WireBytes(t);
    NodesWithinSize(t);
  }

  lemma {:induction false} LoadedKeeps(serde: Serde, t: Tree, depth: nat)
    requires Shaped(t) && DepthOk(t, depth)
    ensures var v := MapNum(Loaded(serde, t), WireText); Shaped(v) && DepthOk(v, depth) && Shaped(Loaded(serde, t))
  {
    hide Sorted;
    MapShaped(t, Converted(serde));
    MapShaped(Loaded(serde, t), WireText);
    MapDepth(t, Converted(serde), depth);
    MapDepth(Loaded(serde, t), WireText, depth);
  }

  lemma {:induction false} MapDepth<M, N>(t: Json<M>, f: M -> N, depth: nat)
    requires DepthOk(t, depth)
    ensures DepthOk(MapNum(t, f), depth)
    decreases t
  {
    match t
    case Arr(items) =>
      forall i | 0 <= i < |items|
        ensures DepthOk(MapNum(items[i], f), depth + 1)
      {
        MapDepth(items[i], f, depth + 1);
      }
    case Obj(_, values) =>
      forall i | 0 <= i < |values|
        ensures DepthOk(MapNum(values[i], f), depth + 1)
      {
        MapDepth(values[i], f, depth + 1);
      }
    case _ =>
  }

  /** A loaded value that fits a default, as the host holds it: modest, and no larger than its comparison text. */
  lemma HostValueModest(serde: Serde, t: Tree)
    requires SerdeSound(serde) && Shaped(t) && AllNum(t, ExactGate(serde)) && DepthOk(t, 0)
    requires Shaped(MapNum(Loaded(serde, t), DecimalPart))
    requires Bytes(ComparisonText(MapNum(Loaded(serde, t), DecimalPart))) <= MAX_DEFAULT
    ensures var v := MapNum(Loaded(serde, t), WireText); Shaped(v) && Modest(v, 0)
  {
    hide Loaded, MapNum, DecimalPart, Shaped, AllNum, DepthOk, Meaning, ComparisonText, Bytes, Size, SerdeSound, ExactGate;
    var v := MapNum(Loaded(serde, t), WireText);
    WireLoads(serde, t);
    LoadedKeeps(serde, t, 0);
    SizeIsComparisonText(v);
  }

  // ---- the methods ----

  /** The host's typed value of a reviewed default: its wire text is parsed and rebuilt. */
  method FromReviewed(d: Default, serde: Serde) returns (r: Result<HostDefault>)
    ensures d.NoDefault? ==> r == Ok(HostNone)
    ensures d.UnknownDefault? ==> r == Ok(HostUnknown)
    ensures d.ValueDefault? ==> (r.Ok? <==> Readable(d.typed.wire, serde))
    ensures d.ValueDefault? && r.Ok? ==>
              r.value == HostValue(MapNum(Loaded(serde, Document(d.typed.wire).value), WireText))
  {
    hide Accepted, Document, AllNum, ExactGate, Loaded, MapNum, Owned, SingleParents, Denotes;
    match d
    case NoDefault => return Ok(HostNone);
    case UnknownDefault => return Ok(HostUnknown);
    case ValueDefault(typed) =>
      var tree := ParseWithDefaultRoot(typed.wire, false, serde);
      if tree.Err? {
        return Err(tree.error);
      }
      AcceptedReads(typed.wire, false);
      OwnedSingle(tree.value);
      var value := ReviewedTreeValue(tree.value.nodes, tree.value.root, Loaded(serde, Document(typed.wire).value));
      return Ok(HostValue(value.value));
  }

  lemma AcceptedReads(raw: string, standardRoot: bool)
    requires Accepted(raw, standardRoot)
    ensures Document(raw).Some? && Shaped(Document(raw).value)
  {
    DocumentShaped(raw);
  }

  /** The host default can be written and reviewed again with this type. */
  ghost predicate Rereads(h: HostDefault, ty: ValueType, choices: seq<string>, serde: Serde)
  {
    && (h.HostValue? ==> Shaped(h.value) && Modest(h.value, 0))
    && Shaped(HostJson(h)) && Shaped(Loaded(serde, HostJson(h)))
    && Readable(Print(HostJson(h)), serde)
    && Allowed(Loaded(serde, HostJson(h)), ty, choices)
  }

  lemma HostShaped(h: HostDefault, serde: Serde)
    requires h.HostValue? ==> Shaped(h.value)
    ensures Shaped(HostJson(h)) && Shaped(Loaded(serde, HostJson(h)))
  {
    assert Less("kind", "value");
    MapShaped(HostJson(h), Converted(serde));
  }

  lemma HostPrints(h: HostDefault, serde: Serde)
    requires h.HostValue? ==> Shaped(h.value) && AllNum(h.value, GoodToken)
    ensures Shaped(HostJson(h)) && AllNum(HostJson(h), GoodToken)
    ensures Document(Print(HostJson(h))) == Some(HostJson(h))
  {
    hide Document, Print, GoodToken, Shaped;
    HostShaped(h, serde);
    PrintThenRead(HostJson(h));
  }

  /** Writes the host default and reviews the text. */
  method Reviewed(h: HostDefault, ty: ValueType, choices: seq<string>, serde: Serde) returns (r: Result<Default>)
    requires (h.HostValue? ==> Shaped(h.value)) && Sorted(choices)
    ensures r.Ok? <==> Rereads(h, ty, choices, serde)
    ensures r.Ok? ==> Stands(r.value, Loaded(serde, HostJson(h)))
  {
    hide Shaped, Sorted, Accepted, Document, AllNum, ExactGate, Loaded, Owned, Denotes, Allowed, Stands, Print, DepthOk;
    hide Size, HostJson;
    HostShaped(h, serde);
    if h.HostValue? {
      var counted := ReviewedValueResources(h.value);
      if counted.Err? {
        return Err(counted.error);
      }
    }
    HostPrints(h, serde);
    var tree := ParseWithDefaultRoot(Print(HostJson(h)), false, serde);
    if tree.Err? {
      return Err(tree.error);
    }
    InOwned(tree.value);
    r := ReviewedDefault(tree.value.nodes, tree.value.root, ty, choices, Loaded(serde, HostJson(h)));
  }

  lemma InOwned(arena: Arena<Number>)
    requires Owned(arena)
    ensures ChildrenBefore(arena.nodes)
  {
  }

  /** Does the host default still state what was reviewed? */
  method MatchesReviewed(h: HostDefault, ty: ValueType, choices: seq<string>, source: Default, serde: Serde,
                         ghost t: Json<Number>) returns (r: Result<bool>)
    requires (h.HostValue? ==> Shaped(h.value)) && Sorted(choices) && Stands(source, t)
    ensures r.Ok? <==> Rereads(h, ty, choices, serde)
    ensures r.Ok? ==>
              (r.value <==>
                 var u := Loaded(serde, HostJson(h));
                 Kind(u) == Kind(t) && (Kind(u) == Some("value") ==> SameMeaning(u, t)))
  {
    hide Shaped, Sorted, Rereads, Loaded, Stands, SameMeaning;
    var again := Reviewed(h, ty, choices, serde);
    if again.Err? {
      return Err(again.error);
    }
    var same := ReviewedDefaultsSameValue(again.value, source, Loaded(serde, HostJson(h)), t);
    return Ok(same);
  }

  // ---- the round trip ----

  lemma FieldLoaded(serde: Serde, t: Tree, key: string)
    requires Shaped(t)
    ensures FieldOf(Loaded(serde, t), key).Some? <==> FieldOf(t, key).Some?
    ensures FieldOf(t, key).Some? ==>
              && FieldOf(Loaded(serde, t), key) == Some(Loaded(serde, FieldOf(t, key).value))
              && Shaped(FieldOf(t, key).value)
  {
    hide Sorted, Position;
  }

  lemma FieldInside(t: Tree, key: string, serde: Serde, depth: nat)
    requires Shaped(t) && FieldOf(t, key).Some? && AllNum(t, ExactGate(serde)) && DepthOk(t, depth)
    ensures AllNum(FieldOf(t, key).value, ExactGate(serde)) && DepthOk(FieldOf(t, key).value, depth + 1)
  {
    hide ExactGate, Position;
    var i :| 0 <= i < |t.values| && t.values[i] == FieldOf(t, key).value;
  }

  /** The host value of a loaded default object. */
  function Mirror(serde: Serde, src: Tree): HostDefault
    requires FieldOf(src, "value").Some?
  {
    HostValue(MapNum(Loaded(serde, FieldOf(src, "value").value), WireText))
  }

  lemma FieldMeanings(serde: Serde, src: Tree)
    requires Shaped(src) && Shaped(Loaded(serde, src)) && FieldOf(Loaded(serde, src), "value").Some?
    ensures FieldOf(src, "value").Some? && Shaped(FieldOf(src, "value").value)
    ensures FieldOf(Loaded(serde, src), "value").value == Loaded(serde, FieldOf(src, "value").value)
    ensures Shaped(MapNum(Loaded(serde, FieldOf(src, "value").value), DecimalPart))
    ensures Bytes(ComparisonText(MapNum(Loaded(serde, FieldOf(src, "value").value), DecimalPart))) ==
            ComparisonSize(Loaded(serde, src))
  {
    hide Loaded, ComparisonText, Bytes, Position, FieldOf;
    FieldLoaded(serde, src, "value");
    MapShaped(FieldOf(src, "value").value, Converted(serde));
    MapShaped(Loaded(serde, FieldOf(src, "value").value), DecimalPart);
  }

  /** First half: the wire text of the default is read, and rebuilt to the host value. */
  lemma WireReadsBack(serde: Serde, v: Tree)
    requires SerdeSound(serde) && Shaped(v) && AllNum(v, ExactGate(serde)) && DepthOk(v, 0)
    requires Shaped(MapNum(Loaded(serde, v), DecimalPart))
    requires Bytes(ComparisonText(MapNum(Loaded(serde, v), DecimalPart))) <= MAX_DEFAULT
    ensures var w := MapNum(Loaded(serde, v), WireText);
            && Shaped(w) && Shaped(Loaded(serde, v)) && TextOf(Loaded(serde, v), WireText) == Print(w)
            && Readable(Print(w), serde) && Document(Print(w)) == Some(w)
            && MapNum(Loaded(serde, w), WireText) == w
  {
    hide *;
    var w := MapNum(Loaded(serde, v), WireText);
    WireLoads(serde, v);
    LoadedKeeps(serde, v, 0);
    HostValueModest(serde, v);
    InModest(w, 0);
    WireTextOf(Loaded(serde, v));
    ModestAdmitted(w, 0, false, false);
    PrintedReads(w, serde);
  }

  lemma WireTextOf(v: Json<Number>)
    requires Shaped(v) && Shaped(MapNum(v, WireText))
    ensures TextOf(v, WireText) == Print(MapNum(v, WireText))
  {
  }

  lemma InModest(w: SerdeValue, depth: nat)
    requires Modest(w, depth)
    ensures AllNum(w, GoodToken) && DepthOk(w, depth) && Size(w) <= MAX_DEFAULT
  {
  }

  /** A host value inside its object: what the object's text needs to be read. */
  lemma HostObjectReads(serde: Serde, w: SerdeValue)
    requires Shaped(w) && AllNum(w, ExactGate(serde)) && AllNum(w, Short) && Modest(w, 0) && DepthOk(w, 1)
    ensures Shaped(HostJson(HostValue(w)))
    ensures Readable(Print(HostJson(HostValue(w))), serde)
  {
    hide *;
    InModest(w, 0);
    HostParts(serde, w);
    PrintedReads(HostJson(HostValue(w)), serde);
  }

  lemma HostParts(serde: Serde, w: SerdeValue)
    requires Shaped(w) && AllNum(w, ExactGate(serde)) && AllNum(w, Short) && AllNum(w, GoodToken)
    requires DepthOk(w, 1) && Size(w) <= MAX_DEFAULT
    ensures var t := HostJson(HostValue(w));
            && Shaped(t) && AllNum(t, ExactGate(serde)) && AllNum(t, Short) && AllNum(t, GoodToken)
            && Size(t) <= MAX_DEFAULT + 64 && Admitted(t, 0, false, false)
  {
    hide Size, ExactGate, Short, GoodToken, StringJsonLen;
    HostSize(w);
    ModestAdmitted(w, 1, false, false);
    assert Less("kind", "value");
  }

  lemma HostSize(w: SerdeValue)
    ensures Size(HostJson(HostValue(w))) == Size(w) + 25
  {
    assert StringJsonLen("kind") == 6 && StringJsonLen("value") == 7;
    var key: SerdeValue := Str("value");
    assert Size(key) == 7;
    PairSizes(key, w);
    assert ["kind", "value"][1..] == ["value"] && ["value"][1..] == [];
    assert KeySizes(["value"]) == 8;
    assert KeySizes(["kind", "value"]) == 15;
  }

  lemma PairSizes(a: SerdeValue, b: SerdeValue)
    ensures Sizes([a, b]) == Size(a) + Size(b)
  {
    hide Size;
    assert [a, b][1..] == [b] && [b][1..] == [];
    assert Sizes([b]) == Size(b);
  }

  lemma {:induction false} WireTypable(serde: Serde, v: Tree, ty: ValueType, choices: seq<string>)
    requires SerdeSound(serde) && AllNum(v, ExactGate(serde)) && Typable(Loaded(serde, v), ty, choices)
    ensures Typable(Loaded(serde, MapNum(Loaded(serde, v), WireText)), ty, choices)
  {
    hide IntegerToken, ReviewedDecimal;
    if v.Num? {
      assert Exact(serde, v.n);
    }
  }

  /** The object that the host writes has the shape of a default object. */
  lemma HostAllowed(serde: Serde, w: SerdeValue, ty: ValueType, choices: seq<string>)
    requires Shaped(w) && Typable(Loaded(serde, w), ty, choices)
    requires Shaped(MapNum(Loaded(serde, w), DecimalPart))
    requires Bytes(ComparisonText(MapNum(Loaded(serde, w), DecimalPart))) <= MAX_DEFAULT
    ensures var t := HostJson(HostValue(w));
            && Shaped(Loaded(serde, t)) && Allowed(Loaded(serde, t), ty, choices)
            && Kind(Loaded(serde, t)) == Some("value") && FieldOf(Loaded(serde, t), "value") == Some(Loaded(serde, w))
  {
    hide Typable, ComparisonText, Bytes;
    HostShaped(HostValue(w), serde);
    assert ["kind", "value"][1..] == ["value"];
    assert Position(["value"], "value") == Some(0);
    assert Position(["kind", "value"], "value") == Some(1);
    var all := MapNums([Str("value"), w], Converted(serde));
    assert all[0] == MapNum(Str("value"), Converted(serde));
  }

  /** For every default object of a parsed source that its type allows: the host value taken from its wire text
      can be written and reviewed again, and states the same value, with the same wire text. */
  lemma TypedDefaultRoundTrip(serde: Serde, src: Tree, ty: ValueType, choices: seq<string>)
    requires SerdeSound(serde) && Shaped(src) && AllNum(src, ExactGate(serde)) && DepthOk(src, 0)
    requires Shaped(Loaded(serde, src)) && Allowed(Loaded(serde, src), ty, choices)
    requires Kind(Loaded(serde, src)) == Some("value")
    ensures FieldOf(src, "value").Some? && Shaped(FieldOf(Loaded(serde, src), "value").value)
    ensures var wire := TextOf(FieldOf(Loaded(serde, src), "value").value, WireText);
            && Readable(wire, serde)
            && Mirror(serde, src) == HostValue(MapNum(Loaded(serde, Document(wire).value), WireText))
            && Rereads(Mirror(serde, src), ty, choices, serde)
            && SameMeaning(Loaded(serde, HostJson(Mirror(serde, src))), Loaded(serde, src))
            && Kind(Loaded(serde, HostJson(Mirror(serde, src)))) == Some("value")
            && Shaped(FieldOf(Loaded(serde, HostJson(Mirror(serde, src))), "value").value)
            && TextOf(FieldOf(Loaded(serde, HostJson(Mirror(serde, src))), "value").value, WireText) == wire
  {
    hide *;
    AllowedParts(Loaded(serde, src), ty, choices);
    FieldMeanings(serde, src);
    var v := FieldOf(src, "value").value;
    var w := MapNum(Loaded(serde, v), WireText);
    FieldInside(src, "value", serde, 0);
    Shallower(v, 1);
    WireReadsBack(serde, v);
    WireLoads(serde, v);
    HostValueModest(serde, v);
    LoadedKeeps(serde, v, 1);
    LoadedKeeps(serde, w, 1);
    WireTypable(serde, v, ty, choices);
    HostAllowed(serde, w, ty, choices);
    HostObjectReads(serde, w);
    WireTextOf(Loaded(serde, w));
    MirrorIs(serde, src);
    RereadsParts(w, ty, choices, serde);
    SameFields(serde, HostJson(HostValue(w)), src);
  }

  lemma AllowedParts(t: Json<Number>, ty: ValueType, choices: seq<string>)
    requires Shaped(t) && Allowed(t, ty, choices) && Kind(t) == Some("value")
    ensures FieldOf(t, "value").Some? && Typable(FieldOf(t, "value").value, ty, choices) && ComparisonSize(t) <= MAX_DEFAULT
  {
  }

  lemma {:induction false} Shallower<N>(t: Json<N>, depth: nat)
    requires DepthOk(t, depth)
    ensures forall at: nat :: at <= depth ==> DepthOk(t, at)
    decreases t
  {
    match t
    case Arr(items) =>
      forall i | 0 <= i < |items|
        ensures forall at: nat :: at <= depth + 1 ==> DepthOk(items[i], at)
      {
        Shallower(items[i], depth + 1);
      }
    case Obj(_, values) =>
      forall i | 0 <= i < |values|
        ensures forall at: nat :: at <= depth + 1 ==> DepthOk(values[i], at)
      {
        Shallower(values[i], depth + 1);
      }
    case _ =>
  }

  lemma MirrorIs(serde: Serde, src: Tree)
    requires FieldOf(src, "value").Some?
    ensures Mirror(serde, src) == HostValue(MapNum(Loaded(serde, FieldOf(src, "value").value), WireText))
  {
  }

  lemma RereadsParts(w: SerdeValue, ty: ValueType, choices: seq<string>, serde: Serde)
    requires Shaped(w) && Modest(w, 0)
    requires Shaped(HostJson(HostValue(w))) && Shaped(Loaded(serde, HostJson(HostValue(w))))
    requires Readable(Print(HostJson(HostValue(w))), serde)
    requires Allowed(Loaded(serde, HostJson(HostValue(w))), ty, choices)
    ensures Rereads(HostValue(w), ty, choices, serde)
  {
    hide Shaped, Modest, HostJson, Loaded, Readable, Allowed, Print;
  }

  lemma SameFields(serde: Serde, a: Tree, b: Tree)
    requires FieldOf(Loaded(serde, a), "value").Some? && FieldOf(Loaded(serde, b), "value").Some?
    requires MapNum(FieldOf(Loaded(serde, a), "value").value, DecimalPart) ==
             MapNum(FieldOf(Loaded(serde, b), "value").value, DecimalPart)
    ensures SameMeaning(Loaded(serde, a), Loaded(serde, b))
  {
  }

  // ---- a default that passes the preflight is never too large later ----

  /** Converting the numbers exactly changes neither meaning nor budgeted size. */
  lemma ExactMeaning(serde: Serde, t: Tree)
    requires AllNum(t, ExactGate(serde))
    ensures var w := MapNum(Loaded(serde, t), WireText);
            && AllNum(w, GoodToken) && Meaning(w) == Meaning(t) && MapNum(Loaded(serde, t), DecimalPart) == Meaning(t)
  {
    hide *;
    WireIsWritten(serde, t);
    WrittenNumbers(serde, t);
  }

  /** Where the preflight admits a default object, its value's comparison text stays within the limit,
      and both counters pass the value. */
  lemma AdmittedDefaultFits(serde: Serde, t: Tree, depth: nat, budgeted: bool)
    requires Shaped(t) && AllNum(t, ExactGate(serde)) && FieldOf(t, "value").Some?
    requires Admitted(t, depth, budgeted, true)
    ensures var v := FieldOf(t, "value").value; var w := MapNum(Loaded(serde, v), WireText);
            && Shaped(v) && Shaped(MapNum(Loaded(serde, v), DecimalPart)) && Shaped(w)
            && Bytes(ComparisonText(MapNum(Loaded(serde, v), DecimalPart))) == Size(v) == Size(w) <= MAX_DEFAULT
            && Modest(w, 0)
  {
    hide *;
    var v := FieldOf(t, "value").value;
    FieldLoaded(serde, t, "value");
    AdmittedField(t, depth, budgeted, serde);
    ExactMeaning(serde, v);
    AdmittedDepth(v, depth + 1, true, false, 0);
    LoadedKeeps(serde, v, 0);
    SizeIsComparisonText(v);
    SizeIsComparisonText(MapNum(Loaded(serde, v), WireText));
    IsModest(MapNum(Loaded(serde, v), WireText), 0);
  }

  lemma AdmittedField(t: Tree, depth: nat, budgeted: bool, serde: Serde)
    requires Shaped(t) && FieldOf(t, "value").Some? && Admitted(t, depth, budgeted, true) && AllNum(t, ExactGate(serde))
    ensures Admitted(FieldOf(t, "value").value, depth + 1, true, false) && Size(FieldOf(t, "value").value) <= MAX_DEFAULT
    ensures AllNum(FieldOf(t, "value").value, ExactGate(serde))
  {
    hide Size, ExactGate, Sorted;
    var i := Position(t.keys, "value").value;
    assert Admitted(t.values[i], depth + 1, budgeted || (true && t.keys[i] == "value"), t.keys[i] == "default");
    assert t.values[i] == FieldOf(t, "value").value;
  }

  lemma IsModest(w: SerdeValue, depth: nat)
    requires AllNum(w, GoodToken) && DepthOk(w, depth) && Size(w) <= MAX_DEFAULT
    ensures Modest(w, depth)
  {
  }

  /** The shape of a default object. */
  predicate DefaultShape<N>(t: Json<N>) {
    && t.Obj? && Kind(t).Some?
    && if Kind(t).value == "none" || Kind(t).value == "unknown" then |t.keys| == 1
       else Kind(t).value == "value" && |t.keys| == 2 && FieldOf(t, "value").Some?
  }

  function HostOf(serde: Serde, t: Tree): HostDefault
    requires DefaultShape(t)
  {
    if Kind(t).value == "none" then HostNone else if Kind(t).value == "unknown" then HostUnknown else Mirror(serde, t)
  }

  /** Decodes the text of a default object. Once the preflight passed and the shape is right, nothing fails:
      the counter run on the rebuilt value has no say of its own. */
  method DecodeHostDefault(raw: string, serde: Serde) returns (r: Result<HostDefault>)
    ensures r.Ok? <==>
            Accepted(raw, true) && AllNum(Document(raw).value, ExactGate(serde)) && DefaultShape(Document(raw).value)
    ensures r.Ok? ==> r.value == HostOf(serde, Document(raw).value)
  {
    hide Accepted, Document, AllNum, ExactGate, Owned, SingleParents, Denotes, Shaped, MapNum, Modest, Position, Loaded, FieldOf, Kind;
    var tree := ParseWithDefaultRoot(raw, true, serde);
    if tree.Err? {
      return Err(tree.error);
    }
    AcceptedReads(raw, true);
    ghost var src := Document(raw).value;
    ghost var t := Loaded(serde, src);
    LoadedShape(serde, src);
    OwnedSingle(tree.value);
    InSingle(tree.value.nodes);
    var nodes, root := tree.value.nodes, tree.value.root;
    var kind := ReadKind(nodes, root, t);
    ObjectParts(nodes, root, t);
    if kind.None? {
      return Err(Invalid);
    }
    var keys, ids := nodes[root].keys, nodes[root].ids;
    if kind.value == "none" || kind.value == "unknown" {
      if |keys| != 1 {
        return Err(Invalid);
      }
      return Ok(if kind.value == "none" then HostNone else HostUnknown);
    }
    if kind.value != "value" || |keys| != 2 {
      return Err(Invalid);
    }
    var at := Position(keys, "value");
    FieldAt(t, "value");
    if at.None? {
      return Err(Invalid);
    }
    FieldLoaded(serde, src, "value");
    AcceptedDefaultFits(raw, serde);
    var value := ReviewedTreeValue(nodes, ids[at.value], t.values[at.value]);
    var counted := ReviewedValueResources(value.value);
    if counted.Err? {
      return Err(Resource);
    }
    return Ok(HostValue(value.value));
  }

  lemma FieldAt<N>(t: Json<N>, key: string)
    requires t.Obj? && |t.keys| == |t.values|
    ensures FieldOf(t, key).Some? <==> Position(t.keys, key).Some?
    ensures FieldOf(t, key).Some? ==> FieldOf(t, key).value == t.values[Position(t.keys, key).value]
  {
    hide Position;
  }

  lemma AcceptedDefaultFits(raw: string, serde: Serde)
    requires Accepted(raw, true) && Document(raw).Some? && Shaped(Document(raw).value)
    requires AllNum(Document(raw).value, ExactGate(serde)) && FieldOf(Document(raw).value, "value").Some?
    ensures var w := MapNum(Loaded(serde, FieldOf(Document(raw).value, "value").value), WireText);
            Shaped(w) && Modest(w, 0)
  {
    hide Document, Shaped, AllNum, ExactGate, FieldOf, Loaded, MapNum, Modest, Admitted, Nodes, Bytes;
    AdmittedDefaultFits(serde, Document(raw).value, 0, false);
  }

  lemma LoadedShape(serde: Serde, src: Tree)
    requires Shaped(src)
    ensures Shaped(Loaded(serde, src)) && Kind(Loaded(serde, src)) == Kind(src)
    ensures src.Obj? <==> Loaded(serde, src).Obj?
    ensures src.Obj? ==> Loaded(serde, src).keys == src.keys
    ensures FieldOf(Loaded(serde, src), "value").Some? <==> FieldOf(src, "value").Some?
  {
    hide Sorted, Position;
    MapShaped(src, Converted(serde));
    FieldLoaded(serde, src, "kind");
    FieldLoaded(serde, src, "value");
  }
}
