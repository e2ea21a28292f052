/** Deserializing a default value from a stream of events, charging its bytes against one budget. */
module Seed {
  import opened Wrappers
  import opened Numbers
  import opened Strings
  import opened Json
  import opened RoundTrip
  import opened Rebuild
  import opened Limits
  import opened Resources

  /** What a deserializer reports; fields come in source order. A number that is not finite has no text. */
  datatype Event =
    | UnitEvent
    | BoolEvent(b: bool)
    | TextEvent(s: string)
    | NumberEvent(number: Option<string>)
    | SeqEvent(items: seq<Event>)
    | MapEvent(fields: seq<Field>)

  datatype Field = Field(key: string, value: Event)

  datatype Entries = Entries(keys: seq<string>, values: seq<SerdeValue>)

  /** The value of the events; none when a decoded key repeats or a number is not finite. */
  function Collected(e: Event): (r: Option<SerdeValue>)
    decreases e, 1
  {
    match e
    case UnitEvent => Some(Null)
    case BoolEvent(b) => Some(Bool(b))
    case TextEvent(s) => Some(Str(s))
    case NumberEvent(number) => if number.Some? then Some(Num(number.value)) else None
    case SeqEvent(items) => (match CollectItems(items) case None => None case Some(values) => Some(Arr(values)))
    case MapEvent(fields) =>
      (match CollectFields(fields) case None => None case Some(entries) => Some(Obj(entries.keys, entries.values)))
  }

  function CollectItems(items: seq<Event>): (r: Option<seq<SerdeValue>>)
    ensures r.Some? ==> |r.value| == |items|
    decreases items, 0
  {
    if items == [] then Some([])
    else
      var n := |items| - 1;
      var front, last := CollectItems(items[..n]), Collected(items[n]);
      if front.None? || last.None? then None else Some(front.value + [last.value])
  }

  function CollectFields(fields: seq<Field>): (r: Option<Entries>)
    ensures r.Some? ==> |r.value.keys| == |r.value.values| == |fields|
    decreases fields, 0
  {
    if fields == [] then Some(Entries([], []))
    else
      var n := |fields| - 1;
      var front, last := CollectFields(fields[..n]), Collected(fields[n].value);
      if front.None? || last.None? || fields[n].key in front.value.keys then None
      else Some(Inserted(front.value, fields[n].key, last.value))
  }

  /** An entry more, in key order. */
  function Inserted(entries: Entries, key: string, value: SerdeValue): (r: Entries)
    requires |entries.keys| == |entries.values|
    ensures |r.keys| == |r.values| == |entries.keys| + 1
  {
    var i := Slot(entries.keys, key);
    Entries(InsertAt(entries.keys, i, key), InsertAt(entries.values, i, value))
  }

  /** The value fits into what the budget has left, at this depth. */
  predicate Affordable(t: SerdeValue, depth: nat, budget: nat) {
    AllNum(t, GoodToken) && DepthOk(t, depth) && budget + Size(t) <= MAX_DEFAULT
  }

  predicate Passes(e: Event, depth: nat, budget: nat) {
    Collected(e).Some? && Affordable(Collected(e).value, depth, budget)
  }

  // ---- sequences ----

  /** The first items pass, with their brackets and commas. */
  predicate ItemsPass(items: seq<Event>, depth: nat, budget: nat) {
    && CollectItems(items).Some?
    && depth < MAX_DEPTH
    && budget + 2 + Sizes(CollectItems(items).value) + Commas(|items|) <= MAX_DEFAULT
    && forall i :: 0 <= i < |items| ==>
         AllNum(CollectItems(items).value[i], GoodToken) && DepthOk(CollectItems(items).value[i], depth + 1)
  }

  lemma {:induction false} SizesAppend(ts: seq<SerdeValue>, t: SerdeValue)
    ensures Sizes(ts + [t]) == Sizes(ts) + Size(t)
  {
    SizesInsert(ts, |ts|, t);
    assert InsertAt(ts, |ts|, t) == ts + [t];
  }

  /** What the items up to one more need: the ones before, the new one, and a comma. */
  lemma ItemStep(items: seq<Event>, i: nat, depth: nat, budget: nat)
    requires i < |items|
    ensures ItemsPass(items[..i + 1], depth, budget) <==>
            && ItemsPass(items[..i], depth, budget)
            && var spent := budget + 2 + Sizes(CollectItems(items[..i]).value) + Commas(i);
               Passes(items[i], depth + 1, spent) &&
               spent + Size(Collected(items[i]).value) + (if i == 0 then 0 else 1) <= MAX_DEFAULT
    ensures ItemsPass(items[..i + 1], depth, budget) ==>
            CollectItems(items[..i + 1]) == Some(CollectItems(items[..i]).value + [Collected(items[i]).value])
            && Sizes(CollectItems(items[..i + 1]).value) ==
               Sizes(CollectItems(items[..i]).value) + Size(Collected(items[i]).value)
  {
    hide Collected, AllNum, DepthOk, GoodToken, Size, Sizes;
    var upto := items[..i + 1];
    assert upto[..i] == items[..i] && upto[i] == items[i];
    var front, last := CollectItems(items[..i]), Collected(items[i]);
    if front.Some? && last.Some? {
      SizesAppend(front.value, last.value);
      var all := front.value + [last.value];
      assert CollectItems(upto) == Some(all);
      assert forall j :: 0 <= j < i ==> all[j] == front.value[j];
      assert all[i] == last.value;
    }
  }

  lemma {:induction false} ItemsPrefix(items: seq<Event>, i: nat, depth: nat, budget: nat)
    requires i <= |items| && ItemsPass(items, depth, budget)
    ensures ItemsPass(items[..i], depth, budget)
    decreases |items| - i
  {
    hide ItemsPass;
    if i < |items| {
      ItemsPrefix(items, i + 1, depth, budget);
      ItemStep(items, i, depth, budget);
    } else {
      assert items[..i] == items;
    }
  }

  lemma SeqPasses(items: seq<Event>, depth: nat, budget: nat)
    ensures Passes(SeqEvent(items), depth, budget) <==> ItemsPass(items, depth, budget)
  {
    hide GoodToken;
  }

  // ---- maps ----

  predicate FieldsPass(fields: seq<Field>, depth: nat, budget: nat) {
    && CollectFields(fields).Some?
    && depth < MAX_DEPTH
    && budget + EntriesSize(CollectFields(fields).value) <= MAX_DEFAULT
    && forall i :: 0 <= i < |fields| ==>
         AllNum(CollectFields(fields).value.values[i], GoodToken) && DepthOk(CollectFields(fields).value.values[i], depth + 1)
  }

  function EntriesSize(entries: Entries): nat {
    2 + KeySizes(entries.keys) + Sizes(entries.values) + Commas(|entries.values|)
  }

  lemma InsertedSize(entries: Entries, key: string, value: SerdeValue)
    requires |entries.keys| == |entries.values|
    ensures EntriesSize(Inserted(entries, key, value)) ==
            EntriesSize(entries) + StringJsonLen(key) + 1 + Size(value) + (if entries.values == [] then 0 else 1)
  {
    hide StringJsonLen, Size;
    SizesInsert(entries.values, Slot(entries.keys, key), value);
    KeySizesInsert(entries.keys, Slot(entries.keys, key), key);
  }

  lemma InsertedValues(entries: Entries, key: string, value: SerdeValue, depth: nat)
    requires |entries.keys| == |entries.values|
    ensures var all := Inserted(entries, key, value).values;
            (forall i :: 0 <= i < |all| ==> AllNum(all[i], GoodToken) && DepthOk(all[i], depth)) <==>
              && AllNum(value, GoodToken) && DepthOk(value, depth)
              && (forall i :: 0 <= i < |entries.values| ==>
                    AllNum(entries.values[i], GoodToken) && DepthOk(entries.values[i], depth))
  {
    hide AllNum, DepthOk, GoodToken, Slot;
    var at := Slot(entries.keys, key);
    var all := Inserted(entries, key, value).values;
    assert forall i :: 0 <= i < |entries.values| ==> entries.values[i] == all[if i < at then i else i + 1];
    assert all[at] == value;
  }

  /** What the fields up to one more need: a new key, its bytes, and a passing value. */
  lemma FieldStep(fields: seq<Field>, i: nat, depth: nat, budget: nat)
    requires i < |fields|
    ensures FieldsPass(fields[..i + 1], depth, budget) <==>
            && FieldsPass(fields[..i], depth, budget)
            && var front := CollectFields(fields[..i]).value;
               var spent := budget + EntriesSize(front) + StringJsonLen(fields[i].key) + 1 + (if i == 0 then 0 else 1);
               fields[i].key !in front.keys && Passes(fields[i].value, depth + 1, spent)
    ensures FieldsPass(fields[..i + 1], depth, budget) ==>
            && CollectFields(fields[..i + 1]) ==
               Some(Inserted(CollectFields(fields[..i]).value, fields[i].key, Collected(fields[i].value).value))
            && EntriesSize(CollectFields(fields[..i + 1]).value) ==
               EntriesSize(CollectFields(fields[..i]).value) + StringJsonLen(fields[i].key) + 1 + (if i == 0 then 0 else 1)
               + Size(Collected(fields[i].value).value)
  {
    hide Collected, AllNum, DepthOk, GoodToken, Size, Sizes, StringJsonLen, EntriesSize, Inserted;
    var upto := fields[..i + 1];
    assert upto[..i] == fields[..i] && upto[i] == fields[i];
    var front, last := CollectFields(fields[..i]), Collected(fields[i].value);
    if front.Some? && last.Some? {
      InsertedSize(front.value, fields[i].key, last.value);
      InsertedValues(front.value, fields[i].key, last.value, depth + 1);
    }
  }

  lemma {:induction false} FieldsPrefix(fields: seq<Field>, i: nat, depth: nat, budget: nat)
    requires i <= |fields| && FieldsPass(fields, depth, budget)
    ensures FieldsPass(fields[..i], depth, budget)
    decreases |fields| - i
  {
    hide FieldsPass;
    if i < |fields| {
      FieldsPrefix(fields, i + 1, depth, budget);
      FieldStep(fields, i, depth, budget);
    } else {
      assert fields[..i] == fields;
    }
  }

  lemma MapPasses(fields: seq<Field>, depth: nat, budget: nat)
    ensures Passes(MapEvent(fields), depth, budget) <==> FieldsPass(fields, depth, budget)
    ensures Collected(MapEvent(fields)).Some? ==>
              Size(Collected(MapEvent(fields)).value) == EntriesSize(CollectFields(fields).value)
  {
    hide GoodToken;
  }

  // ---- the visitor ----

  method ReviewedSeedCharge(budget: nat, size: nat) returns (r: Result<nat>)
    ensures r == if budget + size <= MAX_DEFAULT then Ok(budget + size) else Err(Resource)
  {
    return if budget + size > MAX_DEFAULT then Err(Resource) else Ok(budget + size);
  }

  datatype Charged = Charged(value: SerdeValue, budget: nat)

  /** Passes exactly the values that fit, and charges the size of their comparison form. */
  method VisitEvent(e: Event, depth: nat, budget: nat) returns (r: Result<Charged>)
    requires budget <= MAX_DEFAULT
    ensures r.Ok? <==> Passes(e, depth, budget)
    ensures r.Ok? ==> r.value == Charged(Collected(e).value, budget + Size(Collected(e).value))
    decreases e, 1
  {
    hide GoodToken, StringJsonLen, ItemsPass, FieldsPass;
    match e
    case UnitEvent =>
      var charged := ReviewedSeedCharge(budget, 4);
      r := if charged.Ok? then Ok(Charged(Null, charged.value)) else Err(Resource);
    case BoolEvent(b) =>
      var charged := ReviewedSeedCharge(budget, if b then 4 else 5);
      r := if charged.Ok? then Ok(Charged(Bool(b), charged.value)) else Err(Resource);
    case TextEvent(s) =>
      var charged := ReviewedSeedCharge(budget, StringJsonLen(s));
      r := if charged.Ok? then Ok(Charged(Str(s), charged.value)) else Err(Resource);
    case NumberEvent(number) => r := VisitNumber(number, budget, depth);
    case SeqEvent(items) => r := VisitSeq(items, depth, budget);
    case MapEvent(fields) => r := VisitMap(fields, depth, budget);
  }

  method VisitNumber(number: Option<string>, budget: nat, ghost depth: nat) returns (r: Result<Charged>)
    requires budget <= MAX_DEFAULT
    ensures r.Ok? <==> Passes(NumberEvent(number), depth, budget)
    ensures r.Ok? ==> number.Some? && r.value == Charged(Num(number.value), budget + Size(Num(number.value)))
  {
    hide Canonize, ReviewedDecimal, Bytes;
    if number.None? {
      return Err(Invalid);
    }
    if ReviewedDecimal(number.value).Err? {
      return Err(Invalid);
    }
    var charged := ReviewedSeedCharge(budget, Bytes(Canonize(number.value)));
    r := if charged.Ok? then Ok(Charged(Num(number.value), charged.value)) else Err(Resource);
  }

  method VisitSeq(items: seq<Event>, depth: nat, budget: nat) returns (r: Result<Charged>)
    requires budget <= MAX_DEFAULT
    ensures r.Ok? <==> Passes(SeqEvent(items), depth, budget)
    ensures r.Ok? ==> var v := Collected(SeqEvent(items)).value; r.value == Charged(v, budget + Size(v))
    decreases items, 0
  {
    hide Passes, ItemsPass, Sizes, Collected, CollectItems, Size;
    SeqPasses(items, depth, budget);
    ItemsEnds(items, depth, budget);
    if depth >= MAX_DEPTH {
      return Err(Resource);
    }
    var charged := ReviewedSeedCharge(budget, 2);
    if charged.Err? {
      return Err(Resource);
    }
    var spent := charged.value;
    var values: seq<SerdeValue> := [];
    for i := 0 to |items|
      invariant ItemsPass(items[..i], depth, budget) && CollectItems(items[..i]) == Some(values)
      invariant spent == budget + 2 + Sizes(values) + Commas(i) <= MAX_DEFAULT
    {
      ItemStep(items, i, depth, budget);
      if ItemsPass(items, depth, budget) {
        ItemsPrefix(items, i + 1, depth, budget);
      }
      PassesNeeds(items[i], depth + 1);
      var item := VisitEvent(items[i], depth + 1, spent);
      if item.Err? {
        return Err(item.error);
      }
      spent := item.value.budget;
      if values != [] {
        charged := ReviewedSeedCharge(spent, 1);
        if charged.Err? {
          return Err(Resource);
        }
        spent := charged.value;
      }
      values := values + [item.value.value];
    }
    assert items[..|items|] == items;
    return Ok(Charged(Arr(values), spent));
  }

  lemma ItemsEnds(items: seq<Event>, depth: nat, budget: nat)
    ensures ItemsPass(items[..0], depth, budget) <==> depth < MAX_DEPTH && budget + 2 <= MAX_DEFAULT
    ensures CollectItems(items[..0]) == Some([]) && Sizes([]) == 0
    ensures ItemsPass(items, depth, budget) ==>
              && depth < MAX_DEPTH && budget + 2 <= MAX_DEFAULT
              && Collected(SeqEvent(items)) == Some(Arr(CollectItems(items).value))
              && Size(Collected(SeqEvent(items)).value) == 2 + Sizes(CollectItems(items).value) + Commas(|items|)
  {
    hide GoodToken;
  }

  lemma PassesNeeds(e: Event, depth: nat)
    ensures forall budget: nat :: Passes(e, depth, budget) ==>
              Collected(e).Some? && budget + Size(Collected(e).value) <= MAX_DEFAULT
  {
    hide Size, Collected;
  }

  method VisitMap(fields: seq<Field>, depth: nat, budget: nat) returns (r: Result<Charged>)
    requires budget <= MAX_DEFAULT
    ensures r.Ok? <==> Passes(MapEvent(fields), depth, budget)
    ensures r.Ok? ==> var v := Collected(MapEvent(fields)).value; r.value == Charged(v, budget + Size(v))
    decreases fields, 0
  {
    hide Passes, FieldsPass, EntriesSize, Inserted, StringJsonLen, Collected, CollectFields, Size;
    MapPasses(fields, depth, budget);
    FieldsEnds(fields, depth, budget);
    if depth >= MAX_DEPTH {
      return Err(Resource);
    }
    var charged := ReviewedSeedCharge(budget, 2);
    if charged.Err? {
      return Err(Resource);
    }
    var spent := charged.value;
    var entries := Entries([], []);
    for i := 0 to |fields|
      invariant FieldsPass(fields[..i], depth, budget) && CollectFields(fields[..i]) == Some(entries)
      invariant spent == budget + EntriesSize(entries) <= MAX_DEFAULT
    {
      FieldStep(fields, i, depth, budget);
      if FieldsPass(fields, depth, budget) {
        FieldsPrefix(fields, i + 1, depth, budget);
      }
      PassesNeeds(fields[i].value, depth + 1);
      if fields[i].key in entries.keys {
        return Err(Invalid);
      }
      charged := ReviewedSeedCharge(spent, StringJsonLen(fields[i].key) + 1 + if entries.values == [] then 0 else 1);
      if charged.Err? {
        return Err(Resource);
      }
      var item := VisitEvent(fields[i].value, depth + 1, charged.value);
      if item.Err? {
        return Err(item.error);
      }
      spent := item.value.budget;
      entries := Inserted(entries, fields[i].key, item.value.value);
    }
    assert fields[..|fields|] == fields;
    return Ok(Charged(Obj(entries.keys, entries.values), spent));
  }

  lemma FieldsEnds(fields: seq<Field>, depth: nat, budget: nat)
    ensures FieldsPass(fields[..0], depth, budget) <==> depth < MAX_DEPTH && budget + 2 <= MAX_DEFAULT
    ensures CollectFields(fields[..0]) == Some(Entries([], [])) && EntriesSize(Entries([], [])) == 2
    ensures FieldsPass(fields, depth, budget) ==>
              && depth < MAX_DEPTH && budget + 2 <= MAX_DEFAULT
              && Collected(MapEvent(fields)) ==
                 Some(Obj(CollectFields(fields).value.keys, CollectFields(fields).value.values))
  {
    hide GoodToken;
  }

  /** The deserializer and the work-list counter pass the same values. */
  lemma SeedAgreesWithCounter(e: Event)
    requires Collected(e).Some?
    ensures Passes(e, 0, 0) <==> Modest(Collected(e).value, 0)
    ensures Shaped(Collected(e).value)
  {
    hide Collected, Size, AllNum, GoodToken, Shaped;
    CollectedShaped(e);
  }

  lemma {:induction false} CollectedShaped(e: Event)
    requires Collected(e).Some?
    ensures Shaped(Collected(e).value)
    decreases e, 1
  {
    match e
    case SeqEvent(items) => ItemsShaped(items);
    case MapEvent(fields) => FieldsShaped(fields);
    case _ =>
  }

  lemma {:induction false} ItemsShaped(items: seq<Event>)
    requires CollectItems(items).Some?
    ensures forall i :: 0 <= i < |items| ==> Shaped(CollectItems(items).value[i])
    decreases items, 0
  {
    hide Shaped;
    if items != [] {
      ItemsShaped(items[..|items| - 1]);
      CollectedShaped(items[|items| - 1]);
    }
  }

  lemma {:induction false} FieldsShaped(fields: seq<Field>)
    requires CollectFields(fields).Some?
    ensures Sorted(CollectFields(fields).value.keys)
    ensures forall i :: 0 <= i < |fields| ==> Shaped(CollectFields(fields).value.values[i])
    decreases fields, 0
  {
    hide Shaped, Sorted, Slot;
    if fields != [] {
      var n := |fields| - 1;
      FieldsShaped(fields[..n]);
      CollectedShaped(fields[n].value);
      InsertSorted(CollectFields(fields[..n]).value.keys, fields[n].key);
    } else {
      NoKeysSorted();
    }
  }

  lemma NoKeysSorted()
    ensures Sorted([])
  {
  }
}
