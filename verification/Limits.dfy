/** The resource limits as properties of the value read, and of the containers being read. */
module Limits {
  import opened Wrappers
  import opened Strings
  import opened Json
  import opened Grammar
  import opened Reading

  const MAX_BYTES := 262_144
  const MAX_NODES := 32_768
  const MAX_DEPTH := 256
  const MAX_DEFAULT := 4096

  /** A value whose sizes and depth are allowed where it stands.
      `budgeted`: it is part of a default value. `standard`: it is the object of a default. */
  predicate Admitted(t: Tree, depth: nat, budgeted: bool, standard: bool) {
    && (budgeted ==> Size(t) <= MAX_DEFAULT)
    && match t
       case Arr(items) =>
         depth < MAX_DEPTH && forall i :: 0 <= i < |items| ==> Admitted(items[i], depth + 1, budgeted, false)
       case Obj(keys, values) =>
         && depth < MAX_DEPTH && |keys| == |values|
         && forall i :: 0 <= i < |values| ==>
              Admitted(values[i], depth + 1, budgeted || (standard && keys[i] == "value"), keys[i] == "default")
       case _ => true
  }

  /** The texts the preflight lets pass; `standardRoot` treats the root itself as a default object. */
  predicate Accepted(raw: string, standardRoot: bool) {
    && Bytes(raw) <= MAX_BYTES
    && Document(raw).Some?
    && Nodes(Document(raw).value) <= MAX_NODES
    && Admitted(Document(raw).value, 0, false, standardRoot)
  }

  // ---- containers being read ----

  predicate HasPending(f: Frame) {
    f.state == ObjectColon || f.state == ObjectValue
  }

  /** The bytes counted for a container so far. */
  function FrameSize(f: Frame): nat {
    2 + KeySizes(f.keys) + Sizes(f.values) + Commas(|f.values|)
    + (if HasPending(f) then StringJsonLen(f.key) + 1 + (if f.keys == [] then 0 else 1) else 0)
  }

  function FrameNodes(f: Frame): nat {
    1 + NodesAll(f.values)
  }

  /** Flags of the next value of a container with flags b and s. */
  predicate NextBudgeted(f: Frame, b: bool, s: bool) {
    b || (f.state == ObjectValue && s && f.key == "value")
  }

  predicate NextStandard(f: Frame) {
    f.state == ObjectValue && f.key == "default"
  }

  predicate ValueFits(f: Frame, i: nat, depth: nat, b: bool, s: bool)
    requires i < |f.values| && (f.state.InObject() ==> |f.keys| == |f.values|)
  {
    if f.state.InObject() then
      Admitted(f.values[i], depth + 1, b || (s && f.keys[i] == "value"), f.keys[i] == "default")
    else Admitted(f.values[i], depth + 1, b, false)
  }

  predicate Fits(f: Frame, depth: nat, b: bool, s: bool) {
    && depth < MAX_DEPTH
    && (b ==> FrameSize(f) <= MAX_DEFAULT)
    && (f.state.InObject() ==> |f.keys| == |f.values|)
    && forall i :: 0 <= i < |f.values| ==> ValueFits(f, i, depth, b, s)
  }

  predicate Budgeted(stack: seq<Frame>, standardRoot: bool) {
    if stack == [] then false
    else
      var below, f := stack[..|stack| - 1], stack[|stack| - 1];
      NextBudgeted(f, Budgeted(below, standardRoot), Standard(below, standardRoot))
  }

  predicate Standard(stack: seq<Frame>, standardRoot: bool) {
    if stack == [] then standardRoot else NextStandard(stack[|stack| - 1])
  }

  predicate StackFits(stack: seq<Frame>, standardRoot: bool) {
    if stack == [] then true
    else
      var below, f := stack[..|stack| - 1], stack[|stack| - 1];
      && StackFits(below, standardRoot)
      && Fits(f, |below|, Budgeted(below, standardRoot), Standard(below, standardRoot))
  }

  function StackNodes(stack: seq<Frame>): nat {
    if stack == [] then 0 else StackNodes(stack[..|stack| - 1]) + FrameNodes(stack[|stack| - 1])
  }

  // ---- attaching and closing ----

  lemma AttachSize(f: Frame, t: Tree)
    requires f.Valid() && f.state.TakesValue()
    ensures FrameSize(f.Attach(t)) == FrameSize(f) + Size(t) + (if f.state.InObject() || f.values == [] then 0 else 1)
    ensures FrameNodes(f.Attach(t)) == FrameNodes(f) + Nodes(t)
  {
    hide Sorted, Slot, StringJsonLen, Size, Nodes, Shaped;
    if f.state.InObject() {
      SizesInsert(f.values, Slot(f.keys, f.key), t);
      KeySizesInsert(f.keys, Slot(f.keys, f.key), f.key);
    } else {
      SizesInsert(f.values, |f.values|, t);
      assert InsertAt(f.values, |f.values|, t) == f.values + [t];
    }
  }

  /** Where an attached value stands in its container. */
  function AttachedAt(f: Frame): (i: nat)
    ensures f.Valid() ==> i <= |f.values|
  {
    if f.state.InObject() then Slot(f.keys, f.key) else |f.values|
  }

  lemma AttachedValues(f: Frame, t: Tree, depth: nat, b: bool, s: bool)
    requires f.Valid() && f.state.TakesValue()
    ensures var g, at := f.Attach(t), AttachedAt(f);
            && |g.values| == |f.values| + 1 && (g.state.InObject() <==> f.state.InObject())
            && (g.state.InObject() ==> |g.keys| == |g.values|)
            && ValueFits(g, at, depth, b, s) == Admitted(t, depth + 1, NextBudgeted(f, b, s), NextStandard(f))
            && forall i :: 0 <= i < |f.values| ==>
                 ValueFits(g, if i < at then i else i + 1, depth, b, s) == ValueFits(f, i, depth, b, s)
  {
    hide Sorted, Admitted, Shaped, Slot;
  }

  /** A container with one more value fits when it did, the value is admitted, and the bytes still are. */
  lemma AttachFits(f: Frame, t: Tree, depth: nat, b: bool, s: bool)
    requires f.Valid() && f.state.TakesValue()
    ensures Fits(f.Attach(t), depth, b, s) <==>
            && Fits(f, depth, b, s) && Admitted(t, depth + 1, NextBudgeted(f, b, s), NextStandard(f))
            && (b ==> FrameSize(f.Attach(t)) <= MAX_DEFAULT)
  {
    hide Sorted, FrameSize, Admitted, Shaped, ValueFits, Frame.Attach, NextBudgeted, NextStandard, AttachedAt;
    AttachSize(f, t);
    AttachedValues(f, t, depth, b, s);
    var g, at := f.Attach(t), AttachedAt(f);
    if Fits(g, depth, b, s) {
      forall i | 0 <= i < |f.values|
        ensures ValueFits(f, i, depth, b, s)
      {
        assert ValueFits(g, if i < at then i else i + 1, depth, b, s);
      }
    }
    if Fits(f, depth, b, s) && ValueFits(g, at, depth, b, s) {
      forall j | 0 <= j < |g.values|
        ensures ValueFits(g, j, depth, b, s)
      {
        assert j != at ==> ValueFits(f, if j < at then j else j - 1, depth, b, s);
      }
    }
  }

  /** A closed container is admitted exactly when it fits. */
  lemma ClosedFits(f: Frame, depth: nat, b: bool, s: bool)
    requires f.Valid() && !HasPending(f)
    ensures Fits(f, depth, b, s) <==> Admitted(f.Closed(), depth, b, s)
    ensures Nodes(f.Closed()) == FrameNodes(f)
    ensures FrameSize(f) == Size(f.Closed())
  {
    hide Sorted, Shaped, Sizes, KeySizes, NodesAll;
    KeySizesEmpty();
    var c := f.Closed();
    if Fits(f, depth, b, s) {
      forall i | 0 <= i < |f.values|
        ensures c.Arr? ==> Admitted(c.items[i], depth + 1, b, false)
        ensures c.Obj? ==> Admitted(c.values[i], depth + 1, b || (s && c.keys[i] == "value"), c.keys[i] == "default")
      {
        assert ValueFits(f, i, depth, b, s);
      }
    }
    if Admitted(c, depth, b, s) {
      forall i | 0 <= i < |f.values|
        ensures ValueFits(f, i, depth, b, s)
      {
        assert c.Arr? ==> Admitted(c.items[i], depth + 1, b, false);
        assert c.Obj? ==> Admitted(c.values[i], depth + 1, b || (s && c.keys[i] == "value"), c.keys[i] == "default");
      }
    }
  }

  lemma KeySizesEmpty()
    ensures KeySizes([]) == 0
  {
  }

  /** Moving on inside a container can only add bytes. */
  lemma StateFits(f: Frame, g: Frame, depth: nat, b: bool, s: bool)
    requires g.keys == f.keys && g.values == f.values && g.state.InObject() == f.state.InObject()
    requires FrameSize(f) <= FrameSize(g)
    ensures Fits(g, depth, b, s) ==> Fits(f, depth, b, s)
    ensures Fits(f, depth, b, s) && (b ==> FrameSize(g) <= MAX_DEFAULT) ==> Fits(g, depth, b, s)
    ensures FrameNodes(f) == FrameNodes(g)
  {
    hide FrameSize, Admitted;
    forall i | 0 <= i < |f.values| && (f.state.InObject() ==> |f.keys| == |f.values|)
      ensures ValueFits(f, i, depth, b, s) == ValueFits(g, i, depth, b, s)
    {
    }
  }

  lemma PendingSize(f: Frame, g: Frame)
    requires g.keys == f.keys && g.values == f.values && !HasPending(f)
    ensures FrameSize(g) == FrameSize(f) +
                            (if HasPending(g) then StringJsonLen(g.key) + 1 + (if g.keys == [] then 0 else 1) else 0)
  {
  }

  lemma SameFrameSize(f: Frame, g: Frame)
    requires g.keys == f.keys && g.values == f.values && g.key == f.key && HasPending(f) == HasPending(g)
    ensures FrameSize(g) == FrameSize(f)
  {
  }

  // ---- a limit that a container breaks is broken by the value it becomes ----

  lemma {:induction false} RestFits(raw: string, p: nat, f: Frame, depth: nat, b: bool, s: bool)
    requires p <= |raw| && f.Valid() && Rest(raw, p, f).Some?
    requires Admitted(Rest(raw, p, f).value.0, depth, b, s)
    ensures Fits(f, depth, b, s) && FrameNodes(f) <= Nodes(Rest(raw, p, f).value.0)
    decreases |raw| - p, 2
  {
    hide Scalar, Sorted, Shaped, Strings.ReadString, FrameSize, FrameNodes, Admitted, Fits, Value, Nodes;
    var q := Skip(raw, p);
    match f.state
    case ArrayNext =>
      if At(raw, q, ',') {
        RestMoves(raw, q + 1, f, f.(state := ArrayValue), depth, b, s);
      } else {
        ClosedFits(f, depth, b, s);
      }
    case ObjectNext =>
      if At(raw, q, ',') {
        RestMoves(raw, q + 1, f, f.(state := ObjectKey), depth, b, s);
      } else {
        ClosedFits(f, depth, b, s);
      }
    case ObjectColon => RestMoves(raw, q + 1, f, f.(state := ObjectValue), depth, b, s);
    case ObjectKey => KeyFits(raw, q, f, depth, b, s);
    case ObjectFirst =>
      if At(raw, q, '}') {
        ClosedFits(f, depth, b, s);
      } else {
        KeyFits(raw, q, f, depth, b, s);
      }
    case ArrayFirst =>
      if At(raw, q, ']') {
        ClosedFits(f, depth, b, s);
      } else {
        ElementFits(raw, p, f, depth, b, s);
      }
    case _ => ElementFits(raw, p, f, depth, b, s);
  }

  lemma {:induction false} RestMoves(raw: string, p: nat, f: Frame, g: Frame, depth: nat, b: bool, s: bool)
    requires p <= |raw| && g.Valid() && Rest(raw, p, g).Some?
    requires g.keys == f.keys && g.values == f.values && g.state.InObject() == f.state.InObject()
    requires HasPending(f) ==> HasPending(g) && g.key == f.key
    requires Admitted(Rest(raw, p, g).value.0, depth, b, s)
    ensures Fits(f, depth, b, s) && FrameNodes(f) <= Nodes(Rest(raw, p, g).value.0)
    decreases |raw| - p, 3
  {
    hide Rest, FrameSize, FrameNodes, Fits, Admitted, Nodes, Frame.Valid, StringJsonLen;
    RestFits(raw, p, g, depth, b, s);
    if HasPending(f) {
      SameFrameSize(f, g);
    } else {
      PendingSize(f, g);
    }
    StateFits(f, g, depth, b, s);
  }

  lemma {:induction false} KeyFits(raw: string, q: nat, f: Frame, depth: nat, b: bool, s: bool)
    requires q <= |raw| && f.Valid() && f.state.InObject() && !HasPending(f) && Key(raw, q, f).Some?
    requires Admitted(Key(raw, q, f).value.0, depth, b, s)
    ensures Fits(f, depth, b, s) && FrameNodes(f) <= Nodes(Key(raw, q, f).value.0)
    decreases |raw| - q, 1
  {
    hide Rest, FrameSize, FrameNodes, Fits, Admitted, Nodes, Sorted, Shaped, Strings.ReadString;
    var (key, e) := Strings.ReadString(raw, q).value;
    RestMoves(raw, e, f, f.(state := ObjectColon, key := key), depth, b, s);
  }

  lemma {:induction false} ElementFits(raw: string, p: nat, f: Frame, depth: nat, b: bool, s: bool)
    requires p <= |raw| && f.Valid() && f.state.TakesValue() && Element(raw, p, f).Some?
    requires Admitted(Element(raw, p, f).value.0, depth, b, s)
    ensures Fits(f, depth, b, s) && FrameNodes(f) <= Nodes(Element(raw, p, f).value.0)
    decreases |raw| - p, 1
  {
    hide Rest, Value, FrameSize, FrameNodes, Fits, Admitted, Nodes, Sorted, Shaped;
    var (t, e) := Value(raw, p).value;
    ValueShaped(raw, p);
    AttachValid(f, t);
    RestFits(raw, e, f.Attach(t), depth, b, s);
    AttachFits(f, t, depth, b, s);
    AttachSize(f, t);
  }

  /** If the whole text stays within the limits, so do all the containers being read. */
  lemma {:induction false} StackMustFit(raw: string, p: nat, v: View, standardRoot: bool)
    requires p <= |raw| && v.Valid() && v.stack != [] && Remaining(raw, p, v).Some?
    requires Admitted(Remaining(raw, p, v).value, 0, false, standardRoot)
    ensures StackFits(v.stack, standardRoot)
    ensures StackNodes(v.stack) <= Nodes(Remaining(raw, p, v).value)
    decreases |v.stack|
  {
    hide Rest, Fits, Admitted, Nodes, FrameNodes, Frame.Attach, Frame.Valid, Budgeted, Standard;
    var below, f := v.Below(), v.Top();
    var (t, e) := Rest(raw, p, f).value;
    RestShaped(raw, p, f);
    var w := View(below, None).Deliver(t);
    DeliverValid(View(below, None), t);
    DeliverContinues(raw, e, View(below, None), t);
    if below == [] {
      RestFits(raw, p, f, 0, false, standardRoot);
      EmptyFlags(standardRoot);
    } else {
      StackMustFit(raw, e, w, standardRoot);
      PushPop(below[..|below| - 1], w.Top());
      DeliveredFits(below, t, standardRoot);
      RestFits(raw, p, f, |below|, Budgeted(below, standardRoot), Standard(below, standardRoot));
    }
  }

  lemma EmptyFlags(standardRoot: bool)
    ensures !Budgeted([], standardRoot) && Standard([], standardRoot) == standardRoot
  {
  }

  /** The stack after a value was attached to its top fits exactly when the value is admitted there. */
  lemma DeliveredFits(stack: seq<Frame>, t: Tree, standardRoot: bool)
    requires stack != [] && stack[|stack| - 1].Valid() && stack[|stack| - 1].state.TakesValue()
    ensures var below, f := stack[..|stack| - 1], stack[|stack| - 1];
            var grown := below + [f.Attach(t)];
            && (StackFits(grown, standardRoot) <==>
                  && StackFits(stack, standardRoot)
                  && Admitted(t, |stack|, Budgeted(stack, standardRoot), Standard(stack, standardRoot))
                  && (Budgeted(below, standardRoot) ==> FrameSize(f.Attach(t)) <= MAX_DEFAULT))
            && StackNodes(grown) == StackNodes(stack) + Nodes(t)
  {
    hide Fits, Admitted, Nodes, FrameNodes, FrameSize, Frame.Attach, Frame.Valid, NextBudgeted, NextStandard;
    var below, f := stack[..|stack| - 1], stack[|stack| - 1];
    PushPop(below, f.Attach(t));
    AttachFits(f, t, |below|, Budgeted(below, standardRoot), Standard(below, standardRoot));
    AttachSize(f, t);
  }

  // ---- the reader's whole state ----

  predicate ViewFits(v: View, standardRoot: bool) {
    && StackFits(v.stack, standardRoot)
    && (v.root.Some? ==> Admitted(v.root.value, 0, false, standardRoot))
    && ViewNodes(v) <= MAX_NODES
  }

  function ViewNodes(v: View): nat {
    StackNodes(v.stack) + (if v.root.Some? then Nodes(v.root.value) else 0)
  }

  /** A state on the way to an accepted value stays within the limits. */
  lemma MustFit(raw: string, p: nat, v: View, standardRoot: bool)
    requires p <= |raw| && v.Valid() && Remaining(raw, p, v) == Document(raw)
    requires Accepted(raw, standardRoot)
    ensures ViewFits(v, standardRoot)
  {
    hide Document, Admitted, Nodes, Rest, Value, FrameNodes, Fits;
    if v.stack != [] {
      StackMustFit(raw, p, v, standardRoot);
    }
  }
}
