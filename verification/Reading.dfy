/** One move of a reader with an explicit stack of open containers, and why moves keep the outcome. */
module Reading {
  import opened Wrappers
  import opened Json
  import Strings
  import opened Grammar

  /** The containers being read, outermost first, and the root value once it is complete. */
  datatype View = View(stack: seq<Frame>, root: Option<Tree>) {
    predicate Valid() {
      && (forall i :: 0 <= i < |stack| ==> stack[i].Valid())
      && (forall i :: 0 <= i < |stack| - 1 ==> stack[i].state.TakesValue())
      && (root.Some? ==> stack == [] && Shaped(root.value))
    }

    predicate TakesValue() {
      if stack == [] then root.None? else Top().state.TakesValue()
    }

    function Top(): Frame
      requires stack != []
    {
      stack[|stack| - 1]
    }

    function Below(): seq<Frame>
      requires stack != []
    {
      stack[..|stack| - 1]
    }

    function WithTop(f: Frame): View
      requires stack != []
    {
      View(Below() + [f], None)
    }

    function Push(f: Frame): View {
      View(stack + [f], None)
    }

    /** A complete value goes to the innermost container, or becomes the root. */
    function Deliver(t: Tree): View {
      if stack == [] then View([], Some(t))
      else if Top().state.TakesValue() then WithTop(Top().Attach(t))
      else this
    }

    /** The innermost container is complete. */
    function Close(): View
      requires stack != []
    {
      View(Below(), None).Deliver(Top().Closed())
    }
  }

  /** What the reader in this state still returns. */
  function Remaining(raw: string, p: nat, v: View): Option<Tree>
    requires p <= |raw|
  {
    Outcome(raw, p, v.stack, v.root)
  }

  datatype Move = Fail | Done(t: Tree) | Next(pos: nat, view: View)

  /** A position where a value must start. */
  function Begin(raw: string, q: nat, v: View): (m: Move)
    requires q <= |raw|
    ensures m.Next? ==> q < m.pos <= |raw|
  {
    if At(raw, q, '[') then Next(q + 1, v.Push(NEW_ARRAY))
    else if At(raw, q, '{') then Next(q + 1, v.Push(NEW_OBJECT))
    else
      match Scalar(raw, q)
      case None => Fail
      case Some((t, e)) => Next(e, v.Deliver(t))
  }

  function KeyMove(raw: string, q: nat, v: View): (m: Move)
    requires q <= |raw| && v.stack != []
    ensures m.Next? ==> q < m.pos <= |raw|
  {
    match Strings.ReadString(raw, q)
    case None => Fail
    case Some((key, e)) =>
      if key in v.Top().keys then Fail
      else Next(e, v.WithTop(v.Top().(state := ObjectColon, key := key)))
  }

  /** The move at q, where no blank stands. */
  function Step(raw: string, q: nat, v: View): (m: Move)
    requires q <= |raw|
    ensures m.Next? ==> q < m.pos <= |raw|
  {
    if v.stack == [] then
      match v.root
      case Some(t) => if q == |raw| then Done(t) else Fail
      case None => Begin(raw, q, v)
    else
      var f := v.Top();
      match f.state
      case ArrayFirst => if At(raw, q, ']') then Next(q + 1, v.Close()) else Begin(raw, q, v)
      case ArrayValue => Begin(raw, q, v)
      case ArrayNext =>
        if At(raw, q, ',') then Next(q + 1, v.WithTop(f.(state := ArrayValue)))
        else if At(raw, q, ']') then Next(q + 1, v.Close())
        else Fail
      case ObjectFirst => if At(raw, q, '}') then Next(q + 1, v.Close()) else KeyMove(raw, q, v)
      case ObjectKey => KeyMove(raw, q, v)
      case ObjectColon =>
        if At(raw, q, ':') then Next(q + 1, v.WithTop(f.(state := ObjectValue))) else Fail
      case ObjectValue => Begin(raw, q, v)
      case ObjectNext =>
        if At(raw, q, ',') then Next(q + 1, v.WithTop(f.(state := ObjectKey)))
        else if At(raw, q, '}') then Next(q + 1, v.Close())
        else Fail
  }

  lemma {:induction false} SkipTwice(raw: string, p: nat)
    requires p <= |raw|
    ensures Skip(raw, Skip(raw, p)) == Skip(raw, p)
  {
  }

  /** Leading blanks never matter. */
  lemma BlanksDoNotMatter(raw: string, p: nat, v: View)
    requires p <= |raw|
    ensures Remaining(raw, p, v) == Remaining(raw, Skip(raw, p), v)
  {
    SkipTwice(raw, p);
    ValueBlanks(raw, p);
    hide Skip, Value, Scalar, Strings.ReadString;
    if v.stack != [] {
      RestBlanks(raw, p, v.Top());
    }
  }

  lemma ValueBlanks(raw: string, p: nat)
    requires p <= |raw|
    ensures Value(raw, p) == Value(raw, Skip(raw, p))
  {
    hide Scalar, Rest;
    SkipTwice(raw, p);
  }

  lemma RestBlanks(raw: string, p: nat, f: Frame)
    requires p <= |raw|
    ensures Rest(raw, p, f) == Rest(raw, Skip(raw, p), f)
  {
    hide Skip, Value, Scalar, Strings.ReadString, Slot, InsertAt;
    SkipTwice(raw, p);
    ValueBlanks(raw, p);
  }

  lemma PushPop(below: seq<Frame>, f: Frame)
    ensures (below + [f])[|below|] == f && (below + [f])[..|below|] == below
  {
  }

  lemma DeliverContinues(raw: string, p: nat, v: View, t: Tree)
    requires p <= |raw| && v.Valid() && v.TakesValue()
    ensures Remaining(raw, p, v.Deliver(t)) == Continue(raw, p, v.stack, t)
  {
    hide Rest, Slot, InsertAt, Skip;
  }

  lemma BeginOutcome(raw: string, q: nat, v: View)
    requires q <= |raw| && Skip(raw, q) == q && v.Valid() && v.TakesValue()
    requires v.stack != [] && v.Top().state == ArrayFirst ==> !At(raw, q, ']')
    ensures var m := Begin(raw, q, v);
            Remaining(raw, q, v) == if m.Fail? then None else Remaining(raw, m.pos, m.view)
  {
    hide Scalar, Slot, InsertAt, Skip;
    ValueThenContinue(raw, q, v);
    if At(raw, q, '[') {
      PushPop(v.stack, NEW_ARRAY);
      OpenOutcome(raw, q + 1, v, NEW_ARRAY);
    } else if At(raw, q, '{') {
      PushPop(v.stack, NEW_OBJECT);
      OpenOutcome(raw, q + 1, v, NEW_OBJECT);
    } else if Scalar(raw, q).Some? {
      DeliverContinues(raw, Scalar(raw, q).value.1, v, Scalar(raw, q).value.0);
    }
  }

  lemma ValueThenContinue(raw: string, q: nat, v: View)
    requires q <= |raw| && Skip(raw, q) == q && v.Valid() && v.TakesValue()
    requires v.stack != [] && v.Top().state == ArrayFirst ==> !At(raw, q, ']')
    ensures Remaining(raw, q, v) ==
            match Value(raw, q)
            case None => None
            case Some((t, e)) => Continue(raw, e, v.stack, t)
  {
    hide Value, Scalar, Slot, InsertAt, Strings.ReadString;
    if v.stack != [] {
      var f := v.Top();
      assert Rest(raw, q, f) == Element(raw, q, f);
      if Value(raw, q).Some? {
        var (t, e) := Value(raw, q).value;
        DeliverContinues(raw, e, v, t);
      }
    }
  }

  lemma OpenOutcome(raw: string, p: nat, v: View, f: Frame)
    requires p <= |raw|
    ensures Remaining(raw, p, v.Push(f)) ==
            match Rest(raw, p, f)
            case None => None
            case Some((t, e)) => Continue(raw, e, v.stack, t)
  {
    hide Rest, Continue;
    PushPop(v.stack, f);
  }

  lemma TopOutcome(raw: string, p: nat, v: View, f: Frame)
    requires p <= |raw| && v.stack != []
    ensures Remaining(raw, p, v.WithTop(f)) ==
            match Rest(raw, p, f)
            case None => None
            case Some((t, e)) => Continue(raw, e, v.Below(), t)
  {
    hide Rest, Continue;
    PushPop(v.Below(), f);
  }

  /** Every move keeps what the text as a whole denotes. */
  lemma StepOutcome(raw: string, q: nat, v: View)
    requires q <= |raw| && Skip(raw, q) == q && v.Valid()
    ensures var m := Step(raw, q, v);
            Remaining(raw, q, v) ==
            match m
            case Fail => None
            case Done(t) => Some(t)
            case Next(p, w) => Remaining(raw, p, w)
  {
    if v.TakesValue() && !(v.stack != [] && v.Top().state == ArrayFirst && At(raw, q, ']')) {
      BeginOutcome(raw, q, v);
      BeginIsStep(raw, q, v);
    } else if v.stack != [] {
      InsideOutcome(raw, q, v);
    }
  }

  lemma BeginIsStep(raw: string, q: nat, v: View)
    requires q <= |raw| && v.TakesValue()
    requires !(v.stack != [] && v.Top().state == ArrayFirst && At(raw, q, ']'))
    ensures Step(raw, q, v) == Begin(raw, q, v)
  {
    hide Begin, KeyMove;
  }

  lemma InsideOutcome(raw: string, q: nat, v: View)
    requires q <= |raw| && Skip(raw, q) == q && v.Valid() && v.stack != []
    requires v.Top().state.TakesValue() ==> v.Top().state == ArrayFirst && At(raw, q, ']')
    ensures var m := Step(raw, q, v);
            !m.Done? && Remaining(raw, q, v) == if m.Fail? then None else Remaining(raw, m.pos, m.view)
  {
    hide Rest, Continue, Begin, Skip, View.Valid, Remaining;
    var f := v.Top();
    var m := Step(raw, q, v);
    SameTop(v);
    TopOutcome(raw, q, v, f);
    RestStep(raw, q, v);
    if m.Next? {
      if Closes(raw, q, f) {
        BelowDelivers(raw, q + 1, v);
      } else {
        TopOutcome(raw, m.pos, v, m.view.Top());
        SameTop(m.view);
      }
    }
  }

  lemma SameTop(v: View)
    requires v.stack != []
    ensures v.WithTop(v.Top()) == v.(root := None)
    ensures forall raw, p :: 0 <= p <= |raw| ==> Remaining(raw, p, v.(root := None)) == Remaining(raw, p, v)
  {
    hide Resume;
    assert v.Below() + [v.Top()] == v.stack;
  }

  /** The innermost container ends here. */
  predicate Closes(raw: string, q: nat, f: Frame) {
    if f.state.InObject() then At(raw, q, '}') && (f.state == ObjectFirst || f.state == ObjectNext)
    else At(raw, q, ']') && (f.state == ArrayFirst || f.state == ArrayNext)
  }

  /** What the grammar does with the rest of the innermost container, seen as a move. */
  lemma RestStep(raw: string, q: nat, v: View)
    requires q <= |raw| && Skip(raw, q) == q && v.stack != []
    requires v.Top().state.TakesValue() ==> v.Top().state == ArrayFirst && At(raw, q, ']')
    ensures var f, m := v.Top(), Step(raw, q, v);
            && !m.Done?
            && (m.Fail? ==> Rest(raw, q, f) == None)
            && (m.Next? && Closes(raw, q, f) ==> m == Next(q + 1, v.Close()) && Rest(raw, q, f) == Some((f.Closed(), q + 1)))
            && (m.Next? && !Closes(raw, q, f) ==>
                  && m.view.stack != [] && m.view.Below() == v.Below() && m.view == v.WithTop(m.view.Top())
                  && Rest(raw, q, f) == Rest(raw, m.pos, m.view.Top()))
  {
    hide Strings.ReadString, Value, Begin, View.Close, Frame.Closed, Slot, InsertAt;
  }

  lemma BelowDelivers(raw: string, p: nat, v: View)
    requires p <= |raw| && v.Valid() && v.stack != []
    ensures Remaining(raw, p, v.Close()) == Continue(raw, p, v.Below(), v.Top().Closed())
  {
    hide Continue, Frame.Attach, Frame.Closed, Outcome;
    DeliverContinues(raw, p, View(v.Below(), None), v.Top().Closed());
  }

  lemma DeliverValid(v: View, t: Tree)
    requires v.Valid() && v.TakesValue() && Shaped(t)
    ensures v.Deliver(t).Valid()
  {
    hide Sorted, InsertAt, Slot, Frame.Attach;
    if v.stack != [] {
      AttachValid(v.Top(), t);
    }
  }

  lemma CloseValid(v: View)
    requires v.Valid() && v.stack != []
    ensures v.Close().Valid()
  {
    hide Sorted, InsertAt, Slot, Frame.Attach;
    DeliverValid(View(v.Below(), None), v.Top().Closed());
  }

  lemma NewValid()
    ensures NEW_ARRAY.Valid() && NEW_OBJECT.Valid()
  {
  }

  lemma BeginValid(raw: string, q: nat, v: View)
    requires q <= |raw| && v.Valid() && v.TakesValue()
    ensures Begin(raw, q, v).Next? ==> Begin(raw, q, v).view.Valid()
  {
    hide Sorted, InsertAt, Slot, Frame.Attach, Strings.ReadString, View.Deliver;
    NewValid();
    if Scalar(raw, q).Some? {
      DeliverValid(v, Scalar(raw, q).value.0);
    }
  }

  /** Moves keep the reader's state well formed. */
  lemma StepValid(raw: string, q: nat, v: View)
    requires q <= |raw| && v.Valid()
    ensures Step(raw, q, v).Next? ==> Step(raw, q, v).view.Valid()
  {
    hide Sorted, InsertAt, Slot, Frame.Attach, Strings.ReadString, Scalar, Begin, View.Deliver, View.Close;
    if v.TakesValue() {
      BeginValid(raw, q, v);
    }
    if v.stack != [] {
      CloseValid(v);
    }
  }
}
