/** The second pass: builds the arena of a text, gated by exact number conversion. */
module Reader {
  import opened Wrappers
  import opened Numbers
  import Strings
  import opened Json
  import opened Grammar
  import opened Reading
  import Limits
  import opened Cursor
  import opened Arenas
  import Preflight

  /** serde's number conversion: the text it writes for the number it reads, if it reads one. */
  type Serde = string -> Option<string>

  /** The conversion keeps the exact decimal. */
  predicate Exact(serde: Serde, token: string) {
    ReviewedDecimal(token).Ok? && serde(token).Some? && ReviewedDecimal(serde(token).value) == ReviewedDecimal(token)
  }

  function ExactGate(serde: Serde): string -> bool {
    token => Exact(serde, token)
  }

  predicate IntegerToken(token: string) {
    NumberEnd(token, 0).Some? && NumberEnd(token, 0).value.1
  }

  function NumberOf(serde: Serde, token: string): Number {
    Number(if serde(token).Some? then serde(token).value else "", DecimalOfToken(token), IntegerToken(token))
  }

  function Converted(serde: Serde): string -> Number {
    token => NumberOf(serde, token)
  }

  /** The value a text denotes once its numbers are converted. */
  function Loaded(serde: Serde, t: Tree): Json<Number> {
    MapNum(t, Converted(serde))
  }

  datatype ReadFrame = ReadFrame(state: ReadState, keys: seq<string>, ids: seq<nat>, key: Option<string>)

  /** Puts a finished node where it belongs. */
  function AttachId(frames: seq<ReadFrame>, root: Option<nat>, id: nat): Result<(seq<ReadFrame>, Option<nat>)> {
    if frames == [] then (if root.Some? then Err(Invalid) else Ok((frames, Some(id))))
    else
      var n := |frames| - 1;
      match FrameAttachId(frames[n], id)
      case Err(e) => Err(e)
      case Ok(frame) => Ok((frames[..n] + [frame], root))
  }

  function FrameAttachId(frame: ReadFrame, id: nat): Result<ReadFrame> {
    if !frame.state.InObject() then
      if frame.state != ArrayFirst && frame.state != ArrayValue then Err(Invalid)
      else Ok(frame.(ids := frame.ids + [id], state := ArrayNext))
    else if frame.state != ObjectValue || frame.key.None? || frame.key.value in frame.keys then Err(Invalid)
    else
      var i := Slot(frame.keys, frame.key.value);
      if i > |frame.ids| then Err(Invalid)
      else Ok(ReadFrame(ObjectNext, InsertAt(frame.keys, i, frame.key.value), InsertAt(frame.ids, i, id), None))
  }

  function CloseNode(frame: ReadFrame): Node<Number> {
    if frame.state.InObject() then ObjectNode(frame.keys, frame.ids) else ArrayNode(frame.ids)
  }

  // ---- the relation to what the grammar reads ----

  ghost predicate FrameStands(serde: Serde, nodes: seq<Node<Number>>, frame: ReadFrame, f: Frame) {
    && frame.state == f.state && frame.keys == f.keys
    && frame.key == (if f.state == ObjectColon || f.state == ObjectValue then Some(f.key) else None)
    && |frame.ids| == |f.values|
    && forall i :: 0 <= i < |f.values| ==> Denotes(nodes, frame.ids[i], Loaded(serde, f.values[i]))
  }

  ghost predicate FramesStand(serde: Serde, nodes: seq<Node<Number>>, frames: seq<ReadFrame>, stack: seq<Frame>) {
    && |frames| == |stack|
    && forall i :: 0 <= i < |stack| ==> FrameStands(serde, nodes, frames[i], stack[i])
  }

  function FrameRefs(frames: seq<ReadFrame>): multiset<nat> {
    if frames == [] then multiset{} else FrameRefs(frames[..|frames| - 1]) + multiset(frames[|frames| - 1].ids)
  }

  predicate FrameExact(serde: Serde, f: Frame) {
    forall i :: 0 <= i < |f.values| ==> AllNum(f.values[i], ExactGate(serde))
  }

  predicate ViewExact(serde: Serde, v: View) {
    && (forall i :: 0 <= i < |v.stack| ==> FrameExact(serde, v.stack[i]))
    && (v.root.Some? ==> AllNum(v.root.value, ExactGate(serde)))
  }

  ghost predicate RootStands(serde: Serde, nodes: seq<Node<Number>>, root: Option<nat>, tree: Option<Tree>) {
    && root.Some? == tree.Some?
    && (root.Some? ==> Denotes(nodes, root.value, Loaded(serde, tree.value)))
  }

  function RootRefs(root: Option<nat>): multiset<nat> {
    if root.Some? then multiset{root.value} else multiset{}
  }

  ghost predicate Standing(serde: Serde, raw: string, pos: nat, nodes: seq<Node<Number>>, frames: seq<ReadFrame>,
                           root: Option<nat>, v: View) {
    && pos <= |raw| && v.Valid() && Remaining(raw, pos, v) == Document(raw) && ViewExact(serde, v)
    && Holds(serde, nodes, frames, root, v)
  }

  ghost predicate Holds(serde: Serde, nodes: seq<Node<Number>>, frames: seq<ReadFrame>, root: Option<nat>, v: View) {
    && FramesStand(serde, nodes, frames, v.stack) && RootStands(serde, nodes, root, v.root)
    && ChildrenBefore(nodes)
    && Refs(nodes) + FrameRefs(frames) + RootRefs(root) == Ids(|nodes|)
  }

  lemma FrameRefsAdd(frames: seq<ReadFrame>, frame: ReadFrame)
    ensures FrameRefs(frames + [frame]) == FrameRefs(frames) + multiset(frame.ids)
  {
    assert (frames + [frame])[..|frames|] == frames;
  }

  lemma StandsGrow(serde: Serde, nodes: seq<Node<Number>>, node: Node<Number>, frames: seq<ReadFrame>, stack: seq<Frame>)
    requires FramesStand(serde, nodes, frames, stack)
    ensures FramesStand(serde, nodes + [node], frames, stack)
  {
    hide Loaded;
    forall i, j | 0 <= i < |stack| && 0 <= j < |stack[i].values|
      ensures Denotes(nodes + [node], frames[i].ids[j], Loaded(serde, stack[i].values[j]))
    {
      assert FrameStands(serde, nodes, frames[i], stack[i]);
      DenotesGrows(nodes, nodes + [node], frames[i].ids[j], Loaded(serde, stack[i].values[j]));
    }
  }

  lemma InsertRefs(ids: seq<nat>, i: nat, id: nat)
    requires i <= |ids|
    ensures multiset(InsertAt(ids, i, id)) == multiset(ids) + multiset{id}
  {
    assert ids == ids[..i] + ids[i..];
  }

  lemma FrameDelivered(serde: Serde, nodes: seq<Node<Number>>, frame: ReadFrame, f: Frame, id: nat, t: Tree)
    requires FrameStands(serde, nodes, frame, f) && f.Valid() && f.state.TakesValue()
    requires Denotes(nodes, id, Loaded(serde, t))
    ensures FrameAttachId(frame, id).Ok?
    ensures FrameStands(serde, nodes, FrameAttachId(frame, id).value, f.Attach(t))
    ensures multiset(FrameAttachId(frame, id).value.ids) == multiset(frame.ids) + multiset{id}
  {
    hide Loaded, Denotes, Shaped, Sorted, Slot;
    if f.state.InObject() {
      InsertRefs(frame.ids, Slot(f.keys, f.key), id);
    }
  }

  /** A finished node, added to the arena and attached, keeps the arena and the reader in step. */
  lemma NodeDelivered(serde: Serde, nodes: seq<Node<Number>>, frames: seq<ReadFrame>, v: View, node: Node<Number>,
                      t: Tree)
    requires v.Valid() && v.TakesValue() && FramesStand(serde, nodes, frames, v.stack) && ChildrenBefore(nodes)
    requires Denotes(nodes + [node], |nodes|, Loaded(serde, t))
    requires forall j :: 0 <= j < |Children(node)| ==> Children(node)[j] < |nodes|
    requires Refs(nodes) + FrameRefs(frames) + multiset(Children(node)) == Ids(|nodes|)
    ensures var r := AttachId(frames, None, |nodes|);
            r.Ok? && Holds(serde, nodes + [node], r.value.0, r.value.1, v.Deliver(t))
  {
    hide Loaded, Denotes, Frame.Valid, Frame.Attach, FramesStand, FrameAttachId, Refs, FrameRefs, Children, Ids;
    var more, id := nodes + [node], |nodes|;
    StandsGrow(serde, nodes, node, frames, v.stack);
    RefsAdd(nodes, node);
    AddedChildren(nodes, node);
    IdsNext(id);
    if v.stack != [] {
      TopDelivered(serde, more, frames, v, id, t);
    } else {
      NothingStands(serde, nodes, more, frames);
    }
  }

  lemma IdsNext(n: nat)
    ensures Ids(n + 1) == Ids(n) + multiset{n}
  {
  }

  lemma NothingStands(serde: Serde, nodes: seq<Node<Number>>, more: seq<Node<Number>>, frames: seq<ReadFrame>)
    requires FramesStand(serde, nodes, frames, [])
    ensures frames == [] && FramesStand(serde, more, frames, [])
  {
  }

  lemma TopDelivered(serde: Serde, nodes: seq<Node<Number>>, frames: seq<ReadFrame>, v: View, id: nat, t: Tree)
    requires v.Valid() && v.stack != [] && v.TakesValue() && FramesStand(serde, nodes, frames, v.stack)
    requires Denotes(nodes, id, Loaded(serde, t))
    ensures frames != []
    ensures var r := AttachId(frames, None, id);
            && r.Ok? && r.value.1.None? && FramesStand(serde, nodes, r.value.0, v.Deliver(t).stack)
            && FrameRefs(r.value.0) == FrameRefs(frames) + multiset{id}
  {
    hide Loaded, Denotes, Frame.Valid, Frame.Attach, FrameStands, FrameAttachId, FrameRefs;
    var n := |frames| - 1;
    FrameDelivered(serde, nodes, frames[n], v.Top(), id, t);
    var frame := FrameAttachId(frames[n], id).value;
    assert frames == frames[..n] + [frames[n]];
    FrameRefsAdd(frames[..n], frames[n]);
    FrameRefsAdd(frames[..n], frame);
  }

  lemma AddedChildren(nodes: seq<Node<Number>>, node: Node<Number>)
    requires ChildrenBefore(nodes)
    requires forall j :: 0 <= j < |Children(node)| ==> Children(node)[j] < |nodes|
    ensures ChildrenBefore(nodes + [node])
  {
    hide Children;
  }

  /** Closing the innermost frame hands its members to a new node. */
  lemma FrameClosed(serde: Serde, nodes: seq<Node<Number>>, frames: seq<ReadFrame>, v: View)
    requires v.stack != [] && Holds(serde, nodes, frames, None, v)
    ensures frames != []
    ensures var node, t, below := CloseNode(frames[|frames| - 1]), v.Top().Closed(), frames[..|frames| - 1];
            && Denotes(nodes + [node], |nodes|, Loaded(serde, t))
            && FramesStand(serde, nodes, below, v.Below()) && ChildrenBefore(nodes)
            && (forall j :: 0 <= j < |Children(node)| ==> Children(node)[j] < |nodes|)
            && Refs(nodes) + FrameRefs(below) + multiset(Children(node)) == Ids(|nodes|)
  {
    hide Refs, FrameRefs, Converted, Loaded, Denotes, FrameStands, CloseNode, Frame.Closed, Ids;
    var n := |frames| - 1;
    assert frames == frames[..n] + [frames[n]];
    FrameRefsAdd(frames[..n], frames[n]);
    NodeClosed(serde, nodes, frames[n], v.Top());
  }

  lemma NodeClosed(serde: Serde, nodes: seq<Node<Number>>, frame: ReadFrame, f: Frame)
    requires FrameStands(serde, nodes, frame, f)
    ensures var node := CloseNode(frame);
            && Denotes(nodes + [node], |nodes|, Loaded(serde, f.Closed()))
            && Children(node) == frame.ids
            && forall j :: 0 <= j < |frame.ids| ==> frame.ids[j] < |nodes|
  {
    hide Loaded;
    LoadedClosed(serde, f);
    var node := CloseNode(frame);
    forall i | 0 <= i < |f.values|
      ensures Denotes(nodes + [node], frame.ids[i], Loaded(serde, f.values[i])) && frame.ids[i] < |nodes|
    {
      assert Denotes(nodes, frame.ids[i], Loaded(serde, f.values[i]));
      DenotesGrows(nodes, nodes + [node], frame.ids[i], Loaded(serde, f.values[i]));
    }
  }

  lemma LoadedClosed(serde: Serde, f: Frame)
    ensures var t := Loaded(serde, f.Closed());
            if f.state.InObject() then
              t.Obj? && t.keys == f.keys && |t.values| == |f.values|
              && forall i :: 0 <= i < |f.values| ==> t.values[i] == Loaded(serde, f.values[i])
            else
              t.Arr? && |t.items| == |f.values|
              && forall i :: 0 <= i < |f.values| ==> t.items[i] == Loaded(serde, f.values[i])
  {
    hide Converted;
  }

  // ---- exactness over the whole text ----

  lemma {:induction false} RestExact(raw: string, p: nat, f: Frame, serde: Serde)
    requires p <= |raw| && f.Valid() && Rest(raw, p, f).Some?
    requires AllNum(Rest(raw, p, f).value.0, ExactGate(serde))
    ensures FrameExact(serde, f)
    decreases |raw| - p, 2
  {
    hide Scalar, Value, Sorted, Shaped, Strings.ReadString, Slot, ExactGate;
    var q := Skip(raw, p);
    match f.state
    case ArrayNext =>
      if At(raw, q, ',') {
        RestExact(raw, q + 1, f.(state := ArrayValue), serde);
      }
    case ObjectNext =>
      if At(raw, q, ',') {
        RestExact(raw, q + 1, f.(state := ObjectKey), serde);
      }
    case ObjectColon => RestExact(raw, q + 1, f.(state := ObjectValue), serde);
    case ObjectKey => KeyExact(raw, q, f, serde);
    case ObjectFirst =>
      if !At(raw, q, '}') {
        KeyExact(raw, q, f, serde);
      }
    case ArrayFirst =>
      if !At(raw, q, ']') {
        ElementExact(raw, p, f, serde);
      }
    case _ => ElementExact(raw, p, f, serde);
  }

  lemma {:induction false} KeyExact(raw: string, q: nat, f: Frame, serde: Serde)
    requires q <= |raw| && f.Valid() && f.state.InObject() && Key(raw, q, f).Some?
    requires AllNum(Key(raw, q, f).value.0, ExactGate(serde))
    ensures FrameExact(serde, f)
    decreases |raw| - q, 1
  {
    hide Rest, Sorted, Shaped, Strings.ReadString, ExactGate, AllNum;
    var (key, e) := Strings.ReadString(raw, q).value;
    RestExact(raw, e, f.(state := ObjectColon, key := key), serde);
  }

  lemma {:induction false} ElementExact(raw: string, p: nat, f: Frame, serde: Serde)
    requires p <= |raw| && f.Valid() && f.state.TakesValue() && Element(raw, p, f).Some?
    requires AllNum(Element(raw, p, f).value.0, ExactGate(serde))
    ensures FrameExact(serde, f)
    decreases |raw| - p, 1
  {
    hide Rest, Value, Sorted, Shaped, ExactGate, AllNum, Frame.Attach;
    var (t, e) := Value(raw, p).value;
    ValueShaped(raw, p);
    AttachValid(f, t);
    RestExact(raw, e, f.Attach(t), serde);
    AttachExact(f, t, serde);
  }

  lemma AttachExact(f: Frame, t: Tree, serde: Serde)
    requires f.Valid() && f.state.TakesValue()
    ensures FrameExact(serde, f.Attach(t)) <==> FrameExact(serde, f) && AllNum(t, ExactGate(serde))
  {
    hide Sorted, Shaped, ExactGate, AllNum, Slot;
    var g := f.Attach(t);
    var at := if f.state.InObject() then Slot(f.keys, f.key) else |f.values|;
    forall i | 0 <= i < |f.values|
      ensures g.values[if i < at then i else i + 1] == f.values[i]
    {
    }
    assert g.values[at] == t;
    forall j | 0 <= j < |g.values| && j != at
      ensures g.values[j] == f.values[if j < at then j else j - 1]
    {
    }
  }

  /** If all numbers of the text convert exactly, so do those read so far. */
  lemma {:induction false} MustBeExact(raw: string, p: nat, v: View, serde: Serde)
    requires p <= |raw| && v.Valid() && Remaining(raw, p, v).Some?
    requires AllNum(Remaining(raw, p, v).value, ExactGate(serde))
    ensures ViewExact(serde, v)
    decreases |v.stack|
  {
    hide Rest, Frame.Attach, Frame.Valid, ExactGate, AllNum, FrameExact, Skip, Value;
    if v.stack != [] {
      var below, f := v.Below(), v.Top();
      var (t, e) := Rest(raw, p, f).value;
      RestShaped(raw, p, f);
      var w := View(below, None).Deliver(t);
      DeliverValid(View(below, None), t);
      DeliverContinues(raw, e, View(below, None), t);
      MustBeExact(raw, e, w, serde);
      if below != [] {
        AttachExact(below[|below| - 1], t, serde);
        assert FrameExact(serde, w.Top());
        forall i | 0 <= i < |below|
          ensures FrameExact(serde, below[i])
        {
          assert i < |below| - 1 ==> w.stack[i] == below[i];
        }
      }
      RestExact(raw, p, f, serde);
    }
  }

  // ---- moves ----

  lemma TopRenamed(serde: Serde, nodes: seq<Node<Number>>, frames: seq<ReadFrame>, v: View, frame: ReadFrame, g: Frame)
    requires v.stack != [] && v.root.None? && Holds(serde, nodes, frames, None, v) && ViewExact(serde, v)
    requires frames != [] ==> frame.ids == frames[|frames| - 1].ids && FrameStands(serde, nodes, frame, g)
    requires g.values == v.Top().values
    ensures frames != []
    ensures Holds(serde, nodes, frames[..|frames| - 1] + [frame], None, v.WithTop(g))
    ensures ViewExact(serde, v.WithTop(g))
  {
    hide FrameStands, Refs, FrameRefs, ExactGate, AllNum, Children;
    var n := |frames| - 1;
    assert frames == frames[..n] + [frames[n]];
    FrameRefsAdd(frames[..n], frames[n]);
    FrameRefsAdd(frames[..n], frame);
    assert FrameExact(serde, v.Top());
  }

  lemma DeliverExact(serde: Serde, v: View, t: Tree)
    requires v.Valid() && v.TakesValue() && ViewExact(serde, v) && AllNum(t, ExactGate(serde))
    ensures ViewExact(serde, v.Deliver(t))
  {
    hide FrameExact, ExactGate, AllNum, Frame.Attach, Frame.Valid;
    if v.stack != [] {
      TopValid(v);
      AttachExact(v.Top(), t, serde);
    }
  }

  lemma TopValid(v: View)
    requires v.Valid() && v.stack != []
    ensures v.Top().Valid()
  {
    hide Frame.Valid;
  }

  lemma CloseExact(serde: Serde, v: View)
    requires v.Valid() && v.stack != [] && ViewExact(serde, v)
    ensures ViewExact(serde, v.Close())
  {
    hide ExactGate, Frame.Valid, View.Deliver;
    assert FrameExact(serde, v.Top());
    DeliverExact(serde, View(v.Below(), None), v.Top().Closed());
  }

  lemma CloseStands(serde: Serde, nodes: seq<Node<Number>>, frames: seq<ReadFrame>, v: View)
    requires v.Valid() && v.stack != [] && Holds(serde, nodes, frames, None, v)
    ensures frames != []
    ensures var node, below := CloseNode(frames[|frames| - 1]), frames[..|frames| - 1];
            var r := AttachId(below, None, |nodes|);
            r.Ok? && Holds(serde, nodes + [node], r.value.0, r.value.1, v.Close())
  {
    hide Holds, FramesStand, AttachId, CloseNode, View.Deliver, Frame.Closed, Loaded, Refs, FrameRefs, ChildrenBefore;
    FrameClosed(serde, nodes, frames, v);
    BelowValid(v);
    NodeDelivered(serde, nodes, frames[..|frames| - 1], View(v.Below(), None), CloseNode(frames[|frames| - 1]),
                  v.Top().Closed());
  }

  lemma BelowValid(v: View)
    requires v.Valid() && v.stack != []
    ensures View(v.Below(), None).Valid() && View(v.Below(), None).TakesValue()
  {
    hide Frame.Valid;
  }

  /** The node of a scalar; containers have none here. */
  function LeafNode(serde: Serde, t: Tree): Node<Number> {
    match t
    case Bool(b) => BoolNode(b)
    case Str(s) => StringNode(s)
    case Num(token) => NumberNode(NumberOf(serde, token))
    case _ => NullNode
  }

  lemma LeafStands(serde: Serde, nodes: seq<Node<Number>>, frames: seq<ReadFrame>, v: View, t: Tree)
    requires v.Valid() && v.TakesValue() && Holds(serde, nodes, frames, None, v) && !t.Arr? && !t.Obj?
    ensures var r := AttachId(frames, None, |nodes|);
            r.Ok? && Holds(serde, nodes + [LeafNode(serde, t)], r.value.0, r.value.1, v.Deliver(t))
  {
    hide FramesStand, AttachId, View.Deliver, Refs, FrameRefs, ChildrenBefore, View.Valid, LeafNode, Loaded, Ids, Denotes;
    LeafDenotes(serde, nodes, t);
    NodeDelivered(serde, nodes, frames, v, LeafNode(serde, t), t);
  }

  lemma LeafDenotes(serde: Serde, nodes: seq<Node<Number>>, t: Tree)
    requires !t.Arr? && !t.Obj?
    ensures Denotes(nodes + [LeafNode(serde, t)], |nodes|, Loaded(serde, t))
    ensures Children(LeafNode(serde, t)) == []
  {
    hide NumberOf;
  }

  lemma OpenStands(serde: Serde, nodes: seq<Node<Number>>, frames: seq<ReadFrame>, v: View, isObject: bool)
    requires Holds(serde, nodes, frames, None, v) && ViewExact(serde, v)
    ensures var f := if isObject then NEW_OBJECT else NEW_ARRAY;
            Holds(serde, nodes, frames + [ReadFrame(f.state, [], [], None)], None, v.Push(f))
            && ViewExact(serde, v.Push(f))
  {
    hide Refs, FrameRefs, ExactGate, AllNum, Children, Loaded;
    FrameRefsAdd(frames, ReadFrame(if isObject then ObjectFirst else ArrayFirst, [], [], None));
  }

  /** A token that does not convert exactly rejects the text. */
  lemma Inexact(raw: string, q: nat, v: View, serde: Serde)
    requires q <= |raw| && Skip(raw, q) == q && v.Valid() && v.TakesValue() && Remaining(raw, q, v) == Document(raw)
    requires Step(raw, q, v) == Begin(raw, q, v) && !At(raw, q, '[') && !At(raw, q, '{')
    requires Scalar(raw, q).Some? && !AllNum(Scalar(raw, q).value.0, ExactGate(serde))
    ensures Document(raw).Some? ==> !AllNum(Document(raw).value, ExactGate(serde))
  {
    hide Step, Remaining, Document, Scalar, ExactGate, AllNum, View.Valid, FrameExact, Skip, Frame.Attach;
    var (t, e) := Scalar(raw, q).value;
    Preflight.Moved(raw, q, v);
    if Document(raw).Some? && AllNum(Document(raw).value, ExactGate(serde)) {
      MustBeExact(raw, e, v.Deliver(t), serde);
      DeliveredInexact(v, t, serde);
    }
  }

  lemma DeliveredInexact(v: View, t: Tree, serde: Serde)
    requires v.Valid() && v.TakesValue() && !AllNum(t, ExactGate(serde))
    ensures !ViewExact(serde, v.Deliver(t))
  {
    hide FrameExact, ExactGate, AllNum, Frame.Attach, Frame.Valid;
    if v.stack != [] {
      TopValid(v);
      AttachExact(v.Top(), t, serde);
      var w := v.Deliver(t);
      assert w.stack[|w.stack| - 1] == v.Top().Attach(t);
    }
  }

  /** Whether a token is an integer can be seen where it stands or alone. */
  lemma TokenKind(raw: string, q: nat)
    requires q <= |raw| && NumberEnd(raw, q).Some?
    ensures var (e, integer) := NumberEnd(raw, q).value;
            IntegerToken(raw[q..e]) == integer
  {
    hide TokenEnds, ReadExponent, Token.Valid, Token.Spell, AllDigits;
    ReadTokenSound(raw, q);
    var t := ReadToken(raw, q).value;
    var token := raw[q..NumberEnd(raw, q).value.0];
    assert token[0..|token|] == token;
    ReadsSpelled(token, 0, t);
  }

  /** The texts the second pass loads. */
  predicate Loadable(raw: string, serde: Serde) {
    Document(raw).Some? && AllNum(Document(raw).value, ExactGate(serde))
  }

  datatype Status = Going | Rejected(error: Error)

  /** The second pass over one text. `view` is what has been read so far, as the grammar sees it. */
  class BuildPass {
    const raw: string
    const serde: Serde
    const cursor: ReviewedJsonCursor
    var frames: seq<ReadFrame>
    var root: Option<nat>
    ghost var view: View

    ghost predicate Valid()
      reads this, cursor
    {
      cursor.raw == raw && Standing(serde, raw, cursor.pos, cursor.nodes, frames, root, view)
    }

    /** Valid, and no blank stands at the position. */
    ghost predicate Ready()
      reads this, cursor
    {
      Valid() && Skip(raw, cursor.pos) == cursor.pos
    }

    constructor (raw: string, serde: Serde)
      ensures Valid() && this.raw == raw && this.serde == serde && fresh(cursor) && cursor.pos == 0
    {
      this.raw, this.serde := raw, serde;
      cursor := new ReviewedJsonCursor(raw);
      frames, root, view := [], None, View([], None);
      new;
      Begins(raw, serde);
    }

    lemma State()
      requires Valid()
      ensures cursor.pos <= |raw| && view.Valid() && |frames| == |view.stack|
      ensures root.Some? == view.root.Some? && (view.stack != [] ==> root.None?)
      ensures frames != [] ==>
                && frames[|frames| - 1].state == view.Top().state
                && frames[|frames| - 1].keys == view.Top().keys
                && FrameStands(serde, cursor.nodes, frames[|frames| - 1], view.Top())
      ensures Holds(serde, cursor.nodes, frames, root, view) && ViewExact(serde, view)
      ensures Remaining(raw, cursor.pos, view) == Document(raw)
    {
      hide Document, Remaining, ViewExact, Denotes, Refs, FrameRefs, Frame.Valid, Loaded, ChildrenBefore;
    }

    lemma InText()
      requires Valid()
      ensures cursor.pos <= |raw|
    {
      hide Document, Remaining, View.Valid, ViewExact, Holds;
    }

    lemma Move()
      requires Ready()
      ensures cursor.pos <= |raw|
      ensures var m := Step(raw, cursor.pos, view);
              match m
              case Fail => Document(raw) == None
              case Done(t) => Document(raw) == Some(t)
              case Next(p, w) => w.Valid() && Remaining(raw, p, w) == Document(raw)
    {
      hide Step, Remaining, Document, Holds, ViewExact, View.Valid, Skip;
      Preflight.Moved(raw, cursor.pos, view);
    }

    method Punctuate(state: ReadState)
      requires Ready() && frames != [] && view.stack != []
      requires var f := view.Top();
               && state.InObject() == f.state.InObject()
               && (state == ObjectValue || state == ObjectColon <==> f.state == ObjectValue || f.state == ObjectColon)
               && Step(raw, cursor.pos, view) == Next(cursor.pos + 1, view.WithTop(f.(state := state)))
      modifies this, cursor
      ensures Valid() && cursor.pos > old(cursor.pos)
    {
      hide Step, Holds, ViewExact, Document, Remaining, View.Valid, Denotes, Loaded, Skip;
      State();
      Move();
      var frame := frames[|frames| - 1].(state := state);
      TopRenamed(serde, cursor.nodes, frames, view, frame, view.Top().(state := state));
      cursor.pos := cursor.pos + 1;
      frames := frames[..|frames| - 1] + [frame];
      view := view.WithTop(view.Top().(state := state));
    }

    method ReadKey() returns (r: Status)
      requires Ready() && view.stack != [] && view.Top().state.InObject()
      requires view.Top().state == ObjectFirst || view.Top().state == ObjectKey
      requires Step(raw, cursor.pos, view) == KeyMove(raw, cursor.pos, view)
      modifies this, cursor
      ensures r.Going? ==> Valid() && cursor.pos > old(cursor.pos)
      ensures r.Rejected? ==> !Loadable(raw, serde)
    {
      hide Step, Holds, ViewExact, Document, Remaining, View.Valid, Denotes, Loaded, Skip, Strings.ReadString;
      State();
      Move();
      var text := cursor.Text();
      if text.Err? {
        return Rejected(Invalid);
      }
      var key := text.value;
      var frame := frames[|frames| - 1];
      if key in frame.keys {
        return Rejected(Invalid);
      }
      var named := frame.(key := Some(key), state := ObjectColon);
      TopRenamed(serde, cursor.nodes, frames, view, named, view.Top().(state := ObjectColon, key := key));
      frames := frames[..|frames| - 1] + [named];
      view := view.WithTop(view.Top().(state := ObjectColon, key := key));
      return Going;
    }

    /** The innermost container becomes a node and goes to the one around it. */
    method Close()
      requires Ready() && view.stack != []
      requires Step(raw, cursor.pos, view) == Next(cursor.pos + 1, view.Close())
      modifies this, cursor
      ensures Valid() && cursor.pos > old(cursor.pos)
    {
      hide Step, Holds, ViewExact, Document, Remaining, View.Valid, FrameStands, Skip, AttachId, View.Close, CloseNode;
      State();
      Move();
      CloseStands(serde, cursor.nodes, frames, view);
      CloseExact(serde, view);
      var frame := frames[|frames| - 1];
      cursor.pos := cursor.pos + 1;
      var id := cursor.Add(CloseNode(frame));
      var attached := AttachId(frames[..|frames| - 1], root, id);
      frames, root := attached.value.0, attached.value.1;
      view := view.Close();
    }

    method Open(isObject: bool)
      requires Ready() && view.TakesValue()
      requires Step(raw, cursor.pos, view) ==
               Next(cursor.pos + 1, view.Push(if isObject then NEW_OBJECT else NEW_ARRAY))
      modifies this, cursor
      ensures Valid() && cursor.pos > old(cursor.pos)
    {
      hide Step, Holds, ViewExact, Document, Remaining, View.Valid, FrameStands, Skip;
      State();
      Move();
      OpenStands(serde, cursor.nodes, frames, view, isObject);
      cursor.pos := cursor.pos + 1;
      frames := frames + [ReadFrame(if isObject then ObjectFirst else ArrayFirst, [], [], None)];
      view := view.Push(if isObject then NEW_OBJECT else NEW_ARRAY);
    }

    /** The node of the scalar at the position, read past it; numbers must convert exactly. */
    method ScalarNode() returns (node: Option<Node<Number>>)
      requires cursor.raw == raw && cursor.pos <= |raw| && !At(raw, cursor.pos, '[') && !At(raw, cursor.pos, '{')
      modifies cursor
      ensures cursor.nodes == old(cursor.nodes)
      ensures node.Some? <==>
              Scalar(raw, old(cursor.pos)).Some? && AllNum(Scalar(raw, old(cursor.pos)).value.0, ExactGate(serde))
      ensures node.Some? ==>
                var (t, e) := Scalar(raw, old(cursor.pos)).value;
                node.value == LeafNode(serde, t) && !t.Arr? && !t.Obj? && cursor.pos == e
    {
      hide Strings.ReadString, NumberEnd, ReviewedDecimal, IntegerToken;
      if cursor.Looks('"') {
        var text := cursor.Text();
        return if text.Ok? then Some(StringNode(text.value)) else None;
      } else if cursor.Looks('t') {
        var ok := cursor.Literal("true");
        return if ok then Some(BoolNode(true)) else None;
      } else if cursor.Looks('f') {
        var ok := cursor.Literal("false");
        return if ok then Some(BoolNode(false)) else None;
      } else if cursor.Looks('n') {
        var ok := cursor.Literal("null");
        return if ok then Some(NullNode) else None;
      } else if cursor.pos < |raw| && (raw[cursor.pos] == '-' || Digit(raw[cursor.pos])) {
        var start := cursor.pos;
        var end := ReviewedNumberEnd(raw, start);
        if end.None? {
          return None;
        }
        var (e, integer) := end.value;
        TokenKind(raw, start);
        var token := raw[start..e];
        var decimal := ReviewedDecimal(token);
        if decimal.Err? {
          return None;
        }
        var number := serde(token);
        if number.None? {
          return None;
        }
        if ReviewedDecimal(number.value) != decimal {
          return None;
        }
        cursor.pos := e;
        return Some(NumberNode(Number(number.value, decimal.value, integer)));
      }
      return None;
    }

    method ReadScalar() returns (r: Status)
      requires Ready() && view.TakesValue() && !At(raw, cursor.pos, '[') && !At(raw, cursor.pos, '{')
      requires Step(raw, cursor.pos, view) == Begin(raw, cursor.pos, view)
      modifies this, cursor
      ensures r.Going? ==> Valid() && cursor.pos > old(cursor.pos)
      ensures r.Rejected? ==> !Loadable(raw, serde)
    {
      hide Step, Holds, ViewExact, Document, Remaining, View.Valid, FrameStands, Skip, AttachId, View.Deliver;
      hide Scalar, AllNum, ExactGate, LeafNode;
      State();
      Move();
      ghost var q := cursor.pos;
      var node := ScalarNode();
      if node.None? {
        if Scalar(raw, q).Some? {
          Inexact(raw, q, view, serde);
        }
        return Rejected(Invalid);
      }
      ghost var t := Scalar(raw, q).value.0;
      LeafStands(serde, cursor.nodes, frames, view, t);
      DeliverExact(serde, view, t);
      var id := cursor.Add(node.value);
      var attached := AttachId(frames, root, id);
      frames, root := attached.value.0, attached.value.1;
      view := view.Deliver(t);
      return Going;
    }

    method ReadValue() returns (r: Status)
      requires Ready() && view.TakesValue()
      requires Step(raw, cursor.pos, view) == Begin(raw, cursor.pos, view)
      modifies this, cursor
      ensures r.Going? ==> Valid() && cursor.pos > old(cursor.pos)
      ensures r.Rejected? ==> !Loadable(raw, serde)
    {
      hide Standing, Step, Loadable, Scalar, View.Deliver, Skip, FrameStands, Holds, ViewExact, Remaining, Document;
      hide View.Valid;
      State();
      if cursor.Looks('[') {
        Open(false);
        return Going;
      } else if cursor.Looks('{') {
        Open(true);
        return Going;
      }
      r := ReadScalar();
    }

    /** One turn of the loop, at a position without leading blanks. */
    method Turn() returns (r: Status)
      requires Ready() && (frames != [] || root.None?)
      modifies this, cursor
      ensures r.Going? ==> Valid() && cursor.pos > old(cursor.pos)
      ensures r.Rejected? ==> !Loadable(raw, serde)
    {
      hide Standing, Holds, ViewExact, Document, Remaining, Scalar, View.Valid, View.Deliver, View.Close, Skip;
      hide Strings.ReadString, FrameStands, AllNum;
      State();
      if frames != [] {
        Move();
        match frames[|frames| - 1].state {
          case ArrayFirst =>
            if cursor.Looks(']') {
              Close();
              return Going;
            }
          case ArrayNext =>
            if cursor.Looks(',') {
              Punctuate(ArrayValue);
              return Going;
            } else if cursor.Looks(']') {
              Close();
              return Going;
            }
            return Rejected(Invalid);
          case ObjectFirst =>
            if cursor.Looks('}') {
              Close();
              return Going;
            }
            r := ReadKey();
            return;
          case ObjectKey =>
            r := ReadKey();
            return;
          case ObjectColon =>
            if cursor.Looks(':') {
              Punctuate(ObjectValue);
              return Going;
            }
            return Rejected(Invalid);
          case ObjectNext =>
            if cursor.Looks(',') {
              Punctuate(ObjectKey);
              return Going;
            } else if cursor.Looks('}') {
              Close();
              return Going;
            }
            return Rejected(Invalid);
          case _ =>
        }
      }
      r := ReadValue();
    }

    method Blanks()
      requires Valid()
      modifies cursor
      ensures Ready() && cursor.pos >= old(cursor.pos) && cursor.nodes == old(cursor.nodes)
    {
      hide Document, Remaining, View.Valid, ViewExact, Holds, Skip;
      BlanksDoNotMatter(raw, cursor.pos, view);
      SkipTwice(raw, cursor.pos);
      cursor.Whitespace();
    }

    /** After the root value only the end of the text is allowed. */
    method AtEnd() returns (finished: bool)
      requires Ready() && frames == [] && root.Some?
      ensures finished <==> Loadable(raw, serde)
      ensures finished ==> Complete(raw, serde, Arena(cursor.nodes, root.value))
    {
      hide Document, Remaining, View.Valid, Skip, AllNum, Denotes, Owned, Loaded;
      State();
      Move();
      if cursor.pos == |raw| {
        assert Document(raw) == view.root;
        OwnedFromIds(Arena(cursor.nodes, root.value));
        return true;
      }
      return false;
    }
  }

  /** An arena that holds the value of the text and nothing else. */
  ghost predicate Complete(raw: string, serde: Serde, arena: Arena<Number>) {
    && Document(raw).Some?
    && Denotes(arena.nodes, arena.root, Loaded(serde, Document(raw).value))
    && Owned(arena)
  }

  lemma Begins(raw: string, serde: Serde)
    ensures Standing(serde, raw, 0, [], [], None, View([], None))
  {
    hide Value, Skip;
  }

  /** Builds the arena of a text; fails exactly when the grammar or a number conversion fails. */
  method Build(raw: string, serde: Serde) returns (r: Result<Arena<Number>>)
    ensures r.Ok? <==> Loadable(raw, serde)
    ensures r.Ok? ==> Complete(raw, serde, r.value)
  {
    hide Standing, Loadable, Complete, Skip;
    var pass := new BuildPass(raw, serde);
    while true
      invariant pass.Valid() && pass.raw == raw && pass.serde == serde
      invariant fresh(pass) && fresh(pass.cursor) && pass.cursor.pos <= |raw|
      decreases |raw| - pass.cursor.pos
    {
      pass.Blanks();
      pass.InText();
      if pass.frames == [] && pass.root.Some? {
        var finished := pass.AtEnd();
        if finished {
          return Ok(Arena(pass.cursor.nodes, pass.root.value));
        }
        return Err(Invalid);
      }
      var status := pass.Turn();
      match status {
        case Rejected(e) => return Err(e);
        case Going => pass.InText();
      }
    }
  }

  /** Parsing: the preflight, then the building pass. */
  method ParseWithDefaultRoot(raw: string, standardRoot: bool, serde: Serde) returns (r: Result<Arena<Number>>)
    ensures r.Ok? <==> Limits.Accepted(raw, standardRoot) && AllNum(Document(raw).value, ExactGate(serde))
    ensures r.Ok? ==> Complete(raw, serde, r.value)
  {
    hide Document, AllNum, ExactGate, Complete, Limits.Admitted;
    var checked := Preflight.ReviewedJsonPreflight(raw, standardRoot);
    if checked.Err? {
      return Err(checked.error);
    }
    r := Build(raw, serde);
  }
}
