/** The streaming first pass: checks the grammar and every limit before any tree exists. */
module Preflight {
  import opened Wrappers
  import opened Numbers
  import opened Strings
  import opened Json
  import opened Grammar
  import opened Reading
  import opened Limits
  import opened Cursor

  datatype BudgetFrame = BudgetFrame(
    state: ReadState,
    isObject: bool,
    keys: set<string>,
    key: Option<string>,
    defaultObject: bool,
    budgeted: bool,
    normalizedLen: nat,
    items: nat)

  function BudgetAdd(frame: BudgetFrame, size: nat): Result<BudgetFrame> {
    var grown := frame.(normalizedLen := frame.normalizedLen + size);
    if grown.budgeted && grown.normalizedLen > MAX_DEFAULT then Err(Resource) else Ok(grown)
  }

  /** Counts a complete value of the given size where it belongs. */
  function BudgetAttach(frames: seq<BudgetFrame>, root: bool, size: nat): Result<(seq<BudgetFrame>, bool)> {
    if frames == [] then (if root then Err(Invalid) else Ok((frames, true)))
    else
      var frame := frames[|frames| - 1];
      match FrameAttach(frame, size)
      case Err(e) => Err(e)
      case Ok(grown) => Ok((frames[..|frames| - 1] + [OneMore(grown)], root))
  }

  function FrameAttach(frame: BudgetFrame, size: nat): Result<BudgetFrame> {
    if frame.isObject then
      if frame.state != ObjectValue || frame.key.None? then Err(Invalid)
      else BudgetAdd(frame.(key := None, state := ObjectNext), size)
    else if frame.state != ArrayFirst && frame.state != ArrayValue then Err(Invalid)
    else
      match BudgetAdd(frame, if frame.items > 0 then 1 else 0)
      case Err(e) => Err(e)
      case Ok(separated) => BudgetAdd(separated.(state := ArrayNext), size)
  }

  function WithKey(frame: BudgetFrame, key: string): BudgetFrame {
    frame.(keys := frame.keys + {key}, key := Some(key), state := ObjectColon)
  }

  function OneMore(frame: BudgetFrame): BudgetFrame {
    frame.(items := frame.items + 1)
  }

  // ---- what the counters mean ----

  function KeySet(f: Frame): set<string> {
    (set k | k in f.keys) + (if HasPending(f) then {f.key} else {})
  }

  ghost predicate FrameMatches(b: BudgetFrame, f: Frame, budgeted: bool, standard: bool) {
    && b.state == f.state && b.isObject == f.state.InObject()
    && b.keys == KeySet(f)
    && b.key == (if HasPending(f) then Some(f.key) else None)
    && b.defaultObject == (b.isObject && standard)
    && b.budgeted == budgeted
    && b.normalizedLen == FrameSize(f)
    && b.items == |f.values|
  }

  ghost predicate FramesMatch(frames: seq<BudgetFrame>, stack: seq<Frame>, standardRoot: bool)
    decreases |stack|
  {
    && |frames| == |stack|
    && (stack != [] ==>
          var below, n := stack[..|stack| - 1], |stack| - 1;
          && FramesMatch(frames[..n], below, standardRoot)
          && FrameMatches(frames[n], stack[n], Budgeted(below, standardRoot), Standard(below, standardRoot)))
  }

  /** The pass agrees with the reader's state v, which is within the limits. */
  ghost predicate Good(raw: string, standardRoot: bool, pos: nat, frames: seq<BudgetFrame>, root: bool, nodes: nat,
                       v: View) {
    && pos <= |raw| && Bytes(raw) <= MAX_BYTES
    && v.Valid() && Remaining(raw, pos, v) == Document(raw)
    && FramesMatch(frames, v.stack, standardRoot) && root == v.root.Some?
    && ViewFits(v, standardRoot) && nodes == ViewNodes(v)
  }

  /** After a move the remaining text still denotes the whole. */
  lemma Moved(raw: string, q: nat, v: View)
    requires q <= |raw| && Skip(raw, q) == q && v.Valid() && Remaining(raw, q, v) == Document(raw)
    ensures var m := Step(raw, q, v);
            match m
            case Fail => Document(raw) == None
            case Done(t) => Document(raw) == Some(t)
            case Next(p, w) => w.Valid() && Remaining(raw, p, w) == Document(raw)
  {
    hide Step, Remaining, Document, View.Valid;
    StepOutcome(raw, q, v);
    StepValid(raw, q, v);
  }

  lemma MatchTop(frames: seq<BudgetFrame>, v: View, standardRoot: bool, b: BudgetFrame, f: Frame)
    requires v.stack != [] && FramesMatch(frames, v.stack, standardRoot)
    requires FrameMatches(b, f, Budgeted(v.Below(), standardRoot), Standard(v.Below(), standardRoot))
    ensures FramesMatch(frames[..|frames| - 1] + [b], v.WithTop(f).stack, standardRoot)
  {
    hide FrameMatches, Budgeted, Standard;
    var n := |frames| - 1;
    PushPop(v.Below(), f);
    assert (frames[..n] + [b])[..n] == frames[..n];
  }

  lemma TopMatches(frames: seq<BudgetFrame>, v: View, standardRoot: bool)
    requires v.stack != [] && FramesMatch(frames, v.stack, standardRoot)
    ensures |frames| == |v.stack|
    ensures FramesMatch(frames[..|frames| - 1], v.Below(), standardRoot)
    ensures FrameMatches(frames[|frames| - 1], v.Top(), Budgeted(v.Below(), standardRoot),
                         Standard(v.Below(), standardRoot))
  {
    hide FrameMatches, Budgeted, Standard;
  }

  // ---- changes of the innermost frame ----

  lemma TopStateFits(v: View, g: Frame, standardRoot: bool)
    requires v.stack != [] && v.root.None? && ViewFits(v, standardRoot)
    requires g.keys == v.Top().keys && g.values == v.Top().values && g.state.InObject() == v.Top().state.InObject()
    requires FrameSize(v.Top()) <= FrameSize(g)
    ensures ViewNodes(v.WithTop(g)) == ViewNodes(v)
    ensures ViewFits(v.WithTop(g), standardRoot) <==> (Budgeted(v.Below(), standardRoot) ==> FrameSize(g) <= MAX_DEFAULT)
  {
    hide FrameSize, FrameNodes, Budgeted, Standard;
    PushPop(v.Below(), g);
    StateFits(v.Top(), g, |v.Below()|, Budgeted(v.Below(), standardRoot), Standard(v.Below(), standardRoot));
  }

  lemma PunctuationGood(raw: string, sr: bool, q: nat, frames: seq<BudgetFrame>, nodes: nat, v: View, s: ReadState)
    requires Good(raw, sr, q, frames, false, nodes, v) && Skip(raw, q) == q && v.stack != []
    requires var g := v.Top().(state := s);
             && g.state.InObject() == v.Top().state.InObject() && HasPending(g) == HasPending(v.Top())
             && Step(raw, q, v) == Next(q + 1, v.WithTop(g))
    ensures var b := frames[|frames| - 1].(state := s);
            Good(raw, sr, q + 1, frames[..|frames| - 1] + [b], false, nodes, v.WithTop(v.Top().(state := s)))
  {
    hide Step, Remaining, Document, View.Valid, FramesMatch, ViewFits, ViewNodes, FrameSize, Budgeted, Standard;
    var g := v.Top().(state := s);
    Moved(raw, q, v);
    TopMatches(frames, v, sr);
    SameFrameSize(v.Top(), g);
    FitsTop(v, sr);
    TopStateFits(v, g, sr);
    MatchTop(frames, v, sr, frames[|frames| - 1].(state := s), g);
  }

  lemma FitsTop(v: View, standardRoot: bool)
    requires v.stack != [] && ViewFits(v, standardRoot)
    ensures Budgeted(v.Below(), standardRoot) ==> FrameSize(v.Top()) <= MAX_DEFAULT
    ensures |v.Below()| < MAX_DEPTH
  {
    hide FrameSize, Budgeted, Standard;
  }

  /** A key read in the innermost object: counted, or past the budget of a default. */
  lemma KeyGood(raw: string, sr: bool, q: nat, frames: seq<BudgetFrame>, nodes: nat, v: View, key: string, e: nat)
    requires Good(raw, sr, q, frames, false, nodes, v) && Skip(raw, q) == q && v.stack != []
    requires v.Top().state.InObject() && !HasPending(v.Top())
    requires Step(raw, q, v) == KeyMove(raw, q, v) && ReadString(raw, q) == Some((key, e))
    ensures frames != []
    ensures var b := frames[|frames| - 1];
            if key in b.keys then !Accepted(raw, sr)
            else
              var r := BudgetAdd(b, StringJsonLen(key) + 1 + (if b.keys == {} then 0 else 1));
              if r.Err? then !Accepted(raw, sr)
              else Good(raw, sr, e, frames[..|frames| - 1] + [WithKey(r.value, key)], false, nodes,
                        v.WithTop(v.Top().(state := ObjectColon, key := key)))
  {
    hide Step, Remaining, Document, View.Valid, FramesMatch, ViewFits, ViewNodes, FrameSize, Budgeted, Standard;
    hide StringJsonLen, ReadString, Accepted;
    TopMatches(frames, v, sr);
    var b, f := frames[|frames| - 1], v.Top();
    var g := f.(state := ObjectColon, key := key);
    Moved(raw, q, v);
    assert key in b.keys <==> key in f.keys;
    assert b.keys == {} <==> f.keys == [] by {
      if f.keys != [] {
        assert f.keys[0] in b.keys;
      }
    }
    if key in f.keys {
      NoDocument(raw, sr);
    } else {
      PendingSize(f, g);
      TopStateFits(v, g, sr);
      assert KeySet(g) == KeySet(f) + {key};
      var size := StringJsonLen(key) + 1 + (if b.keys == {} then 0 else 1);
      if BudgetAdd(b, size).Ok? {
        MatchTop(frames, v, sr, WithKey(BudgetAdd(b, size).value, key), g);
      } else {
        Overrun(raw, sr, e, v.WithTop(g));
      }
    }
  }

  lemma NoDocument(raw: string, sr: bool)
    requires Document(raw).None?
    ensures !Accepted(raw, sr)
  {
    hide Document;
  }

  /** A reader past a limit rejects only texts that break a limit. */
  lemma Overrun(raw: string, sr: bool, p: nat, v: View)
    requires p <= |raw| && v.Valid() && Remaining(raw, p, v) == Document(raw) && !ViewFits(v, sr)
    ensures !Accepted(raw, sr)
  {
    hide Remaining, Document, ViewFits, View.Valid, Accepted;
    if Accepted(raw, sr) {
      MustFit(raw, p, v, sr);
    }
  }

  // ---- attaching ----

  lemma AttachKeySet(f: Frame, t: Tree)
    requires f.Valid() && f.state.TakesValue()
    ensures KeySet(f.Attach(t)) == KeySet(f)
  {
    hide Sorted, Slot, Shaped;
    if f.state.InObject() {
      var i := Slot(f.keys, f.key);
      assert f.keys == f.keys[..i] + f.keys[i..];
    }
  }

  lemma AttachMatches(b: BudgetFrame, f: Frame, budgeted: bool, standard: bool, t: Tree)
    requires FrameMatches(b, f, budgeted, standard) && f.Valid() && f.state.TakesValue()
    ensures var r := FrameAttach(b, Size(t));
            if r.Ok? then
              && FrameMatches(OneMore(r.value), f.Attach(t), budgeted, standard)
              && (budgeted ==> FrameSize(f.Attach(t)) <= MAX_DEFAULT)
            else budgeted && FrameSize(f.Attach(t)) > MAX_DEFAULT
  {
    hide FrameSize, Size, Sorted, Slot, Shaped, KeySet, FrameNodes, Nodes;
    AttachSize(f, t);
    AttachKeySet(f, t);
  }

  /** Counting a value admitted where it stands matches delivering it to the reader. */
  lemma AttachGood(frames: seq<BudgetFrame>, v: View, sr: bool, t: Tree)
    requires v.Valid() && v.TakesValue() && FramesMatch(frames, v.stack, sr)
    requires StackFits(v.stack, sr) && StackNodes(v.stack) + Nodes(t) <= MAX_NODES
    requires Admitted(t, |v.stack|, Budgeted(v.stack, sr), Standard(v.stack, sr))
    ensures var w := v.Deliver(t);
            var r := BudgetAttach(frames, false, Size(t));
            && ViewNodes(w) == StackNodes(v.stack) + Nodes(t)
            && (r.Ok? ==> FramesMatch(r.value.0, w.stack, sr) && r.value.1 == w.root.Some? && ViewFits(w, sr))
            && (r.Err? ==> !ViewFits(w, sr))
  {
    hide FrameSize, Size, Sorted, Slot, Shaped, Admitted, Nodes, FrameMatches, FrameAttach, Fits, Frame.Attach;
    hide FrameNodes, NextBudgeted, NextStandard;
    if v.stack != [] {
      TopMatches(frames, v, sr);
      var b, f := frames[|frames| - 1], v.Top();
      AttachMatches(b, f, Budgeted(v.Below(), sr), Standard(v.Below(), sr), t);
      DeliveredFits(v.stack, t, sr);
      if FrameAttach(b, Size(t)).Ok? {
        MatchTop(frames, v, sr, OneMore(FrameAttach(b, Size(t)).value), f.Attach(t));
      }
    } else {
      EmptyFlags(sr);
    }
  }

  /** The innermost container is closed and counted in the one around it. */
  lemma CloseGood(raw: string, sr: bool, q: nat, frames: seq<BudgetFrame>, nodes: nat, v: View)
    requires Good(raw, sr, q, frames, false, nodes, v) && Skip(raw, q) == q && v.stack != []
    requires !HasPending(v.Top()) && Step(raw, q, v) == Next(q + 1, v.Close())
    ensures frames != []
    ensures var r := BudgetAttach(frames[..|frames| - 1], false, frames[|frames| - 1].normalizedLen);
            if r.Err? then !Accepted(raw, sr)
            else Good(raw, sr, q + 1, r.value.0, r.value.1, nodes, v.Close())
  {
    hide Step, Remaining, Document, FramesMatch, ViewFits, FrameSize, Budgeted, Standard, BudgetAttach;
    hide Accepted, StackFits, StackNodes, Frame.Valid, Frame.Attach, View.Deliver, Frame.Closed;
    TopMatches(frames, v, sr);
    var t, w := v.Top().Closed(), View(v.Below(), None);
    Moved(raw, q, v);
    CloseParts(v, sr);
    AttachGood(frames[..|frames| - 1], w, sr, t);
    if BudgetAttach(frames[..|frames| - 1], false, Size(t)).Err? {
      Overrun(raw, sr, q + 1, v.Close());
    }
  }

  lemma CloseParts(v: View, sr: bool)
    requires v.Valid() && v.stack != [] && ViewFits(v, sr) && !HasPending(v.Top())
    ensures var t, w := v.Top().Closed(), View(v.Below(), None);
            && w.Valid() && w.TakesValue() && StackFits(w.stack, sr)
            && FrameSize(v.Top()) == Size(t)
            && StackNodes(w.stack) + Nodes(t) == ViewNodes(v) && ViewNodes(v) <= MAX_NODES
            && Admitted(t, |w.stack|, Budgeted(w.stack, sr), Standard(w.stack, sr))
  {
    hide Admitted, Fits, FrameSize, Size, Nodes, FrameNodes, Budgeted, Standard, Frame.Valid, Frame.Closed;
    ClosedFits(v.Top(), |v.Below()|, Budgeted(v.Below(), sr), Standard(v.Below(), sr));
  }

  /** When the pass closes a container, the bytes it counted are those of the comparison form of the value. */
  lemma ClosingLength(raw: string, sr: bool, q: nat, frames: seq<BudgetFrame>, nodes: nat, v: View)
    requires Good(raw, sr, q, frames, false, nodes, v) && v.stack != [] && !HasPending(v.Top())
    ensures |frames| == |v.stack| && Shaped(v.Top().Closed()) && Shaped(Meaning(v.Top().Closed()))
    ensures frames[|frames| - 1].normalizedLen == Bytes(ComparisonText(Meaning(v.Top().Closed())))
  {
    hide Budgeted, Standard, Fits, FrameSize, Size, Bytes, ComparisonText, Meaning, Remaining, Document, Frame.Closed, Shaped;
    TopClosed(v);
    ClosedFits(v.Top(), |v.Below()|, Budgeted(v.Below(), sr), Standard(v.Below(), sr));
    SizeIsComparisonText(v.Top().Closed());
  }

  lemma TopClosed(v: View)
    requires v.Valid() && v.stack != []
    ensures v.Top().Valid() && Shaped(v.Top().Closed())
  {
  }

  /** Opening a container: allowed exactly while nodes and depth are left. */
  lemma OpenGood(raw: string, sr: bool, q: nat, frames: seq<BudgetFrame>, nodes: nat, v: View, isObject: bool)
    requires Good(raw, sr, q, frames, false, nodes, v) && Skip(raw, q) == q && v.TakesValue()
    requires Step(raw, q, v) == Next(q + 1, v.Push(if isObject then NEW_OBJECT else NEW_ARRAY))
    ensures var f := if isObject then NEW_OBJECT else NEW_ARRAY;
            if nodes + 1 > MAX_NODES || |frames| >= MAX_DEPTH then !Accepted(raw, sr)
            else
              var b := BudgetFrame(f.state, isObject, {}, None, isObject && Standard(v.stack, sr),
                                   Budgeted(v.stack, sr), 2, 0);
              Good(raw, sr, q + 1, frames + [b], false, nodes + 1, v.Push(f))
  {
    hide Step, Remaining, Document, Budgeted, Standard, Accepted, View.Valid, FramesMatch, ViewFits, View.Push, Skip;
    hide View.TakesValue, StackNodes;
    var f := if isObject then NEW_OBJECT else NEW_ARRAY;
    Moved(raw, q, v);
    NewOnTop(frames, v, sr, f);
    if nodes + 1 > MAX_NODES || |frames| >= MAX_DEPTH {
      Overrun(raw, sr, q + 1, v.Push(f));
    }
  }

  lemma NewOnTop(frames: seq<BudgetFrame>, v: View, sr: bool, f: Frame)
    requires f == NEW_ARRAY || f == NEW_OBJECT
    requires FramesMatch(frames, v.stack, sr) && ViewFits(v, sr) && v.root.None?
    ensures var b := BudgetFrame(f.state, f == NEW_OBJECT, {}, None, f == NEW_OBJECT && Standard(v.stack, sr),
                                 Budgeted(v.stack, sr), 2, 0);
            && FramesMatch(frames + [b], v.Push(f).stack, sr) && |frames| == |v.stack|
            && ViewNodes(v.Push(f)) == ViewNodes(v) + 1 && v.Push(f).root.None?
            && (ViewFits(v.Push(f), sr) <==> ViewNodes(v) + 1 <= MAX_NODES && |v.stack| < MAX_DEPTH)
  {
    hide Budgeted, Standard, Fits, FrameMatches, FrameNodes;
    NewFits(f, |v.stack|, Budgeted(v.stack, sr), Standard(v.stack, sr));
    PushPop(v.stack, f);
    var b := BudgetFrame(f.state, f == NEW_OBJECT, {}, None, f == NEW_OBJECT && Standard(v.stack, sr),
                         Budgeted(v.stack, sr), 2, 0);
    assert (frames + [b])[..|frames|] == frames;
  }

  lemma NewFits(f: Frame, depth: nat, b: bool, s: bool)
    requires f == NEW_ARRAY || f == NEW_OBJECT
    ensures Fits(f, depth, b, s) <==> depth < MAX_DEPTH
    ensures FrameNodes(f) == 1
    ensures FrameMatches(BudgetFrame(f.state, f == NEW_OBJECT, {}, None, f == NEW_OBJECT && s, b, 2, 0), f, b, s)
  {
  }

  /** A scalar is counted, or breaks a limit. */
  lemma ScalarGood(raw: string, sr: bool, q: nat, frames: seq<BudgetFrame>, nodes: nat, v: View, t: Tree, e: nat)
    requires Good(raw, sr, q, frames, false, nodes, v) && Skip(raw, q) == q && v.TakesValue()
    requires Scalar(raw, q) == Some((t, e)) && Step(raw, q, v) == Next(e, v.Deliver(t))
    ensures var budgeted := Budgeted(v.stack, sr);
            var r := BudgetAttach(frames, false, Size(t));
            if nodes + 1 > MAX_NODES || (budgeted && Size(t) > MAX_DEFAULT) || r.Err? then !Accepted(raw, sr)
            else Good(raw, sr, e, r.value.0, r.value.1, nodes + 1, v.Deliver(t))
  {
    hide Step, Remaining, Document, FrameSize, Budgeted, Standard, Accepted, Frame.Valid, FramesMatch, BudgetAttach;
    hide ViewFits, Size, Frame.Attach, View.Deliver, View.Valid, Skip, FrameNodes, Admitted;
    Moved(raw, q, v);
    ScalarParts(raw, q, v, sr);
    var w := v.Deliver(t);
    if nodes + 1 > MAX_NODES || (Budgeted(v.stack, sr) && Size(t) > MAX_DEFAULT) {
      DeliverFits(v, sr, t);
      Overrun(raw, sr, e, w);
    } else {
      FitsStack(v, sr);
      AttachGood(frames, v, sr, t);
      if BudgetAttach(frames, false, Size(t)).Err? {
        Overrun(raw, sr, e, w);
      }
    }
  }

  lemma FitsStack(v: View, sr: bool)
    requires ViewFits(v, sr)
    ensures StackFits(v.stack, sr)
  {
  }

  lemma ScalarParts(raw: string, q: nat, v: View, sr: bool)
    requires q <= |raw| && Scalar(raw, q).Some?
    ensures var t := Scalar(raw, q).value.0;
            Shaped(t) && Nodes(t) == 1 &&
            (Admitted(t, |v.stack|, Budgeted(v.stack, sr), Standard(v.stack, sr)) <==>
               (Budgeted(v.stack, sr) ==> Size(t) <= MAX_DEFAULT))
  {
    hide Size, Budgeted, Standard, ReadString, NumberEnd, ReviewedDecimal, Occurs;
  }

  /** A delivered value that is not admitted, or too many nodes, is seen by the reader's state. */
  lemma DeliverFits(v: View, sr: bool, t: Tree)
    requires v.Valid() && v.TakesValue() && ViewFits(v, sr) && Shaped(t)
    requires !Admitted(t, |v.stack|, Budgeted(v.stack, sr), Standard(v.stack, sr)) || ViewNodes(v) + Nodes(t) > MAX_NODES
    ensures !ViewFits(v.Deliver(t), sr)
  {
    hide Admitted, Fits, FrameSize, Nodes, FrameNodes, NextBudgeted, NextStandard, Frame.Valid, Frame.Attach;
    if v.stack != [] {
      ValidTop(v);
      DeliveredFits(v.stack, t, sr);
    } else {
      EmptyFlags(sr);
    }
  }

  lemma ValidTop(v: View)
    requires v.Valid() && v.stack != []
    ensures v.Top().Valid()
  {
    hide Frame.Valid;
  }

  /** The flags read off the innermost frame are those of the value to come. */
  lemma InheritedFlags(frames: seq<BudgetFrame>, v: View, sr: bool)
    requires v.TakesValue() && FramesMatch(frames, v.stack, sr)
    ensures |frames| == |v.stack|
    ensures Inherited(frames) == Budgeted(v.stack, sr)
    ensures OpensDefault(frames, sr) == Standard(v.stack, sr)
  {
    hide FrameSize;
    if v.stack != [] {
      TopMatches(frames, v, sr);
    }
  }

  predicate Inherited(frames: seq<BudgetFrame>) {
    frames != [] &&
    var frame := frames[|frames| - 1];
    frame.budgeted || (frame.defaultObject && frame.key == Some("value"))
  }

  predicate OpensDefault(frames: seq<BudgetFrame>, standardRoot: bool) {
    if frames == [] then standardRoot else frames[|frames| - 1].key == Some("default")
  }

  lemma Start(raw: string, sr: bool)
    requires Bytes(raw) <= MAX_BYTES
    ensures Good(raw, sr, 0, [], false, 0, View([], None))
  {
    hide Value, Skip;
  }

  lemma Finish(raw: string, sr: bool, pos: nat, frames: seq<BudgetFrame>, nodes: nat, v: View)
    requires Good(raw, sr, pos, frames, true, nodes, v) && Skip(raw, pos) == pos
    ensures frames == [] && (Accepted(raw, sr) <==> pos == |raw|)
  {
    hide Value, Nodes, Admitted, Document;
    Moved(raw, pos, v);
  }

  lemma BlanksGood(raw: string, sr: bool, pos: nat, frames: seq<BudgetFrame>, root: bool, nodes: nat, v: View)
    requires Good(raw, sr, pos, frames, root, nodes, v)
    ensures Good(raw, sr, Skip(raw, pos), frames, root, nodes, v)
    ensures Skip(raw, Skip(raw, pos)) == Skip(raw, pos)
  {
    hide Remaining, Document, FramesMatch, ViewFits, View.Valid, Skip;
    BlanksDoNotMatter(raw, pos, v);
    SkipTwice(raw, pos);
  }

  datatype Status = Going | Finished | Rejected(error: Error)

  /** The first pass over one text. `view` is what has been read so far, as the grammar sees it. */
  class BudgetPass {
    const raw: string
    const standardRoot: bool
    const cursor: ReviewedJsonCursor
    var frames: seq<BudgetFrame>
    var root: bool
    var nodes: nat
    ghost var view: View

    ghost predicate Valid()
      reads this, cursor
    {
      cursor.raw == raw && Good(raw, standardRoot, cursor.pos, frames, root, nodes, view)
    }

    /** Valid, and no blank stands at the position. */
    ghost predicate Ready()
      reads this, cursor
    {
      Valid() && Skip(raw, cursor.pos) == cursor.pos
    }

    constructor (raw: string, standardRoot: bool)
      requires Bytes(raw) <= MAX_BYTES
      ensures Valid() && this.raw == raw && this.standardRoot == standardRoot && fresh(cursor)
    {
      this.raw, this.standardRoot := raw, standardRoot;
      cursor := new ReviewedJsonCursor(raw);
      frames, root, nodes, view := [], false, 0, View([], None);
      new;
      Start(raw, standardRoot);
    }

    /** The innermost frame reads a comma or a colon. */
    method Punctuate(state: ReadState)
      requires Ready() && frames != [] && view.stack != []
      requires var g := view.Top().(state := state);
               && g.state.InObject() == view.Top().state.InObject() && HasPending(g) == HasPending(view.Top())
               && Step(raw, cursor.pos, view) == Next(cursor.pos + 1, view.WithTop(g))
      modifies this, cursor
      ensures Valid() && cursor.pos > old(cursor.pos)
    {
      hide Good, Step, FramesMatch, HasPending;
      Parts();
      PunctuationGood(raw, standardRoot, cursor.pos, frames, nodes, view, state);
      cursor.pos := cursor.pos + 1;
      frames := frames[..|frames| - 1] + [frames[|frames| - 1].(state := state)];
      view := view.WithTop(view.Top().(state := state));
    }

    lemma Parts()
      requires Valid() && view.stack != []
      ensures |frames| == |view.stack| && !root && cursor.pos <= |raw|
      ensures frames[|frames| - 1].state == view.Top().state
    {
      hide FrameSize, ViewFits, Remaining, Document;
      TopMatches(frames, view, standardRoot);
    }

    method ReadKey() returns (r: Status)
      requires Ready() && view.stack != [] && view.Top().state.InObject() && !HasPending(view.Top())
      requires Step(raw, cursor.pos, view) == KeyMove(raw, cursor.pos, view)
      modifies this, cursor
      ensures !r.Finished?
      ensures r.Going? ==> Valid() && cursor.pos > old(cursor.pos)
      ensures r.Rejected? ==> !Accepted(raw, standardRoot)
    {
      hide Good, Step, FramesMatch, Accepted, Document, ReadString, StringJsonLen, HasPending;
      Parts();
      ghost var q := cursor.pos;
      MoveKept();
      var text := cursor.Text();
      if text.Err? {
        NoDocument(raw, standardRoot);
        return Rejected(Invalid);
      }
      var key := text.value;
      KeyGood(raw, standardRoot, q, frames, nodes, view, key, cursor.pos);
      var frame := frames[|frames| - 1];
      if key in frame.keys {
        return Rejected(Invalid);
      }
      var grown := BudgetAdd(frame, StringJsonLen(key) + 1 + (if frame.keys == {} then 0 else 1));
      if grown.Err? {
        return Rejected(grown.error);
      }
      frames := frames[..|frames| - 1] + [WithKey(grown.value, key)];
      view := view.WithTop(view.Top().(state := ObjectColon, key := key));
      return Going;
    }

    lemma MoveKept()
      requires Ready()
      ensures cursor.pos <= |raw|
      ensures var m := Step(raw, cursor.pos, view);
              match m
              case Fail => Document(raw) == None
              case Done(t) => Document(raw) == Some(t)
              case Next(p, w) => w.Valid() && Remaining(raw, p, w) == Document(raw)
    {
      hide Step, Remaining, Document, FramesMatch, ViewFits, View.Valid;
      Moved(raw, cursor.pos, view);
    }

    method CloseTop() returns (r: Status)
      requires Ready() && view.stack != [] && !HasPending(view.Top())
      requires Step(raw, cursor.pos, view) == Next(cursor.pos + 1, view.Close())
      modifies this, cursor
      ensures !r.Finished?
      ensures r.Going? ==> Valid() && cursor.pos > old(cursor.pos)
      ensures r.Rejected? ==> !Accepted(raw, standardRoot)
    {
      hide Good, Step, FramesMatch, Accepted, Document, HasPending, BudgetAttach, View.Close;
      Parts();
      CloseGood(raw, standardRoot, cursor.pos, frames, nodes, view);
      cursor.pos := cursor.pos + 1;
      var frame := frames[|frames| - 1];
      var attached := BudgetAttach(frames[..|frames| - 1], root, frame.normalizedLen);
      if attached.Err? {
        return Rejected(attached.error);
      }
      frames, root := attached.value.0, attached.value.1;
      view := view.Close();
      return Going;
    }

    method Open(isObject: bool) returns (r: Status)
      requires Ready() && view.TakesValue()
      requires Step(raw, cursor.pos, view) ==
               Next(cursor.pos + 1, view.Push(if isObject then NEW_OBJECT else NEW_ARRAY))
      modifies this, cursor
      ensures !r.Finished?
      ensures r.Going? ==> Valid() && cursor.pos > old(cursor.pos)
      ensures r.Rejected? ==> !Accepted(raw, standardRoot)
    {
      hide Step, FramesMatch, Accepted, Good, Budgeted, Standard, Inherited, OpensDefault, View.Push;
      NoRoot();
      Stacks();
      OpenGood(raw, standardRoot, cursor.pos, frames, nodes, view, isObject);
      nodes := nodes + 1;
      if nodes > MAX_NODES {
        return Rejected(Resource);
      }
      var inheritedBudget := Inherited(frames);
      if |frames| >= MAX_DEPTH {
        return Rejected(Resource);
      }
      var defaultObject := isObject && OpensDefault(frames, standardRoot);
      var state := if isObject then ObjectFirst else ArrayFirst;
      frames := frames + [BudgetFrame(state, isObject, {}, None, defaultObject, inheritedBudget, 2, 0)];
      view := view.Push(if isObject then NEW_OBJECT else NEW_ARRAY);
      cursor.pos := cursor.pos + 1;
      return Going;
    }

    /** The size of the scalar at the position, read past it. */
    method ScalarSize() returns (size: Option<nat>)
      requires cursor.raw == raw && cursor.pos <= |raw| && !At(raw, cursor.pos, '[') && !At(raw, cursor.pos, '{')
      modifies cursor
      ensures cursor.nodes == old(cursor.nodes)
      ensures size.None? <==> Scalar(raw, old(cursor.pos)).None?
      ensures size.Some? ==> var (t, e) := Scalar(raw, old(cursor.pos)).value; size.value == Size(t) && cursor.pos == e
    {
      hide ReadString, NumberEnd, ReviewedDecimal, StringJsonLen, ComparisonToken;
      if cursor.Looks('"') {
        var text := cursor.Text();
        return if text.Ok? then Some(StringJsonLen(text.value)) else None;
      } else if cursor.Looks('t') {
        var ok := cursor.Literal("true");
        return if ok then Some(4) else None;
      } else if cursor.Looks('f') {
        var ok := cursor.Literal("false");
        return if ok then Some(5) else None;
      } else if cursor.Looks('n') {
        var ok := cursor.Literal("null");
        return if ok then Some(4) else None;
      } else if cursor.pos < |raw| && (raw[cursor.pos] == '-' || Digit(raw[cursor.pos])) {
        var end := ReviewedNumberEnd(raw, cursor.pos);
        if end.None? {
          return None;
        }
        var decimal := ReviewedDecimal(raw[cursor.pos..end.value.0]);
        if decimal.Err? {
          return None;
        }
        cursor.pos := end.value.0;
        return Some(Bytes(ComparisonToken(decimal.value)));
      }
      return None;
    }

    method ReadScalar() returns (r: Status)
      requires Ready() && view.TakesValue() && !At(raw, cursor.pos, '[') && !At(raw, cursor.pos, '{')
      requires Step(raw, cursor.pos, view) == Begin(raw, cursor.pos, view)
      modifies this, cursor
      ensures !r.Finished?
      ensures r.Going? ==> Valid() && cursor.pos > old(cursor.pos)
      ensures r.Rejected? ==> !Accepted(raw, standardRoot)
    {
      hide Step, FramesMatch, Accepted, Document, Remaining, ViewFits, Budgeted, Standard, Inherited, Scalar;
      hide BudgetAttach, View.Valid, View.Deliver, Size, Skip, ViewNodes;
      InheritedFlags(frames, view, standardRoot);
      ghost var q := cursor.pos;
      MoveKept();
      NoRoot();
      if Scalar(raw, q).Some? {
        ScalarGood(raw, standardRoot, q, frames, nodes, view, Scalar(raw, q).value.0, Scalar(raw, q).value.1);
      } else {
        NoDocument(raw, standardRoot);
      }
      nodes := nodes + 1;
      var inheritedBudget := Inherited(frames);
      if nodes > MAX_NODES {
        return Rejected(Resource);
      }
      var size := ScalarSize();
      if size.None? {
        return Rejected(Invalid);
      }
      if inheritedBudget && size.value > MAX_DEFAULT {
        return Rejected(Resource);
      }
      var attached := BudgetAttach(frames, root, size.value);
      if attached.Err? {
        return Rejected(attached.error);
      }
      frames, root := attached.value.0, attached.value.1;
      view := view.Deliver(Scalar(raw, q).value.0);
      return Going;
    }

    /** One turn of the loop, at a position without leading blanks. */
    method Turn() returns (r: Status)
      requires Ready() && (frames != [] || !root)
      modifies this, cursor
      ensures !r.Finished?
      ensures r.Going? ==> Valid() && cursor.pos > old(cursor.pos)
      ensures r.Rejected? ==> !Accepted(raw, standardRoot)
    {
      hide Good, FramesMatch, Accepted, Document, Remaining, ViewFits, Scalar, View.Valid, View.Deliver, View.Close, Skip;
      hide ReadString;
      Stacks();
      if frames != [] {
        Parts();
        MoveKept();
        match frames[|frames| - 1].state {
          case ArrayFirst =>
            if cursor.Looks(']') {
              r := CloseTop();
              return;
            }
          case ArrayNext =>
            if cursor.Looks(',') {
              Punctuate(ArrayValue);
              return Going;
            } else if cursor.Looks(']') {
              r := CloseTop();
              return;
            }
            NoDocument(raw, standardRoot);
            return Rejected(Invalid);
          case ObjectFirst =>
            if cursor.Looks('}') {
              r := CloseTop();
            } else {
              r := ReadKey();
            }
            return;
          case ObjectKey =>
            r := ReadKey();
            return;
          case ObjectColon =>
            if cursor.Looks(':') {
              Punctuate(ObjectValue);
              return Going;
            }
            NoDocument(raw, standardRoot);
            return Rejected(Invalid);
          case ObjectNext =>
            if cursor.Looks(',') {
              Punctuate(ObjectKey);
              return Going;
            } else if cursor.Looks('}') {
              r := CloseTop();
              return;
            }
            NoDocument(raw, standardRoot);
            return Rejected(Invalid);
          case _ =>
        }
      }
      r := ReadValue();
    }

    lemma Stacks()
      requires Valid()
      ensures frames == [] <==> view.stack == []
      ensures root == view.root.Some?
      ensures view.TakesValue() ==>
                Inherited(frames) == Budgeted(view.stack, standardRoot) &&
                OpensDefault(frames, standardRoot) == Standard(view.stack, standardRoot)
    {
      hide Document, Remaining, ViewFits, View.Valid, Inherited, OpensDefault, Budgeted, Standard, FrameMatches;
      if view.TakesValue() {
        InheritedFlags(frames, view, standardRoot);
      }
    }

    lemma NoRoot()
      requires Valid() && view.TakesValue()
      ensures !root
    {
      hide Document, Remaining, ViewFits, FramesMatch;
    }

    method ReadValue() returns (r: Status)
      requires Ready() && view.TakesValue()
      requires Step(raw, cursor.pos, view) == Begin(raw, cursor.pos, view)
      modifies this, cursor
      ensures !r.Finished?
      ensures r.Going? ==> Valid() && cursor.pos > old(cursor.pos)
      ensures r.Rejected? ==> !Accepted(raw, standardRoot)
    {
      hide Good, Step, Accepted, Scalar, View.Deliver, Skip;
      Position();
      if cursor.Looks('[') {
        r := Open(false);
      } else if cursor.Looks('{') {
        r := Open(true);
      } else {
        r := ReadScalar();
      }
    }

    lemma Position()
      requires Valid()
      ensures cursor.pos <= |raw|
    {
      hide Document, Remaining, ViewFits, View.Valid, FramesMatch;
    }

    method Blanks()
      requires Valid()
      modifies cursor
      ensures Ready() && cursor.pos >= old(cursor.pos)
    {
      hide Good, Skip;
      Position();
      BlanksGood(raw, standardRoot, cursor.pos, frames, root, nodes, view);
      cursor.Whitespace();
    }

    method AtEnd() returns (r: Status)
      requires Ready() && frames == [] && root
      ensures !r.Going?
      ensures r.Finished? <==> Accepted(raw, standardRoot)
    {
      hide Good, Accepted, Skip;
      Position();
      Finish(raw, standardRoot, cursor.pos, frames, nodes, view);
      return if cursor.pos == |raw| then Finished else Rejected(Invalid);
    }
  }

  /** The first pass accepts exactly the texts of the grammar whose value stays within all limits. */
  method ReviewedJsonPreflight(raw: string, standardRoot: bool) returns (r: Result<()>)
    ensures r.Ok? <==> Accepted(raw, standardRoot)
  {
    hide Good, Document, Admitted, Nodes;
    if Bytes(raw) > MAX_BYTES {
      return Err(Resource);
    }
    var pass := new BudgetPass(raw, standardRoot);
    pass.Position();
    while true
      invariant pass.Valid() && pass.raw == raw && pass.standardRoot == standardRoot
      invariant fresh(pass) && fresh(pass.cursor) && pass.cursor.pos <= |raw|
      decreases |raw| - pass.cursor.pos
    {
      pass.Blanks();
      var status;
      if pass.frames == [] && pass.root {
        status := pass.AtEnd();
      } else {
        status := pass.Turn();
      }
      match status {
        case Finished => return Ok(());
        case Rejected(e) => return Err(e);
        case Going => pass.Position();
      }
    }
  }
}
