/** The JSON grammar as a recursive reader (sections 2 to 7 of RFC 8259, with unique decoded keys). */
module Grammar {
  import opened Wrappers
  import opened Numbers
  import opened Strings
  import opened Json

  type Tree = Json<string>

  datatype ReadState =
    | ArrayFirst
    | ArrayValue
    | ArrayNext
    | ObjectFirst
    | ObjectKey
    | ObjectColon
    | ObjectValue
    | ObjectNext
  {
    predicate InObject() {
      !ArrayFirst? && !ArrayValue? && !ArrayNext?
    }

    /** States in which the next thing read is a value. */
    predicate TakesValue() {
      ArrayFirst? || ArrayValue? || ObjectValue?
    }
  }

  /** A container being read: its members so far and, in an object, the key waiting for its value. */
  datatype Frame = Frame(state: ReadState, keys: seq<string>, values: seq<Tree>, key: string) {
    predicate Valid() {
      && (forall i :: 0 <= i < |values| ==> Shaped(values[i]))
      && (if state.InObject() then |keys| == |values| && Sorted(keys) else keys == [])
      && (state == ObjectColon || state == ObjectValue ==> key !in keys)
    }

    function Closed(): (t: Tree)
    {
      if state.InObject() then Obj(keys, values) else Arr(values)
    }

    /** The frame after the value it waited for. */
    function Attach(t: Tree): (f: Frame)
      requires state.TakesValue()
    {
      if state.InObject() then
        var i := Slot(keys, key);
        if i <= |values| then this.(state := ObjectNext, keys := InsertAt(keys, i, key), values := InsertAt(values, i, t))
        else this
      else this.(state := ArrayNext, values := values + [t])
    }
  }

  const NEW_ARRAY := Frame(ArrayFirst, [], [], "")
  const NEW_OBJECT := Frame(ObjectFirst, [], [], "")

  predicate Blank(c: char) {
    c == ' ' || c == '\t' || c == '\r' || c == '\n'
  }

  function Skip(raw: string, p: nat): (q: nat)
    requires p <= |raw|
    ensures p <= q <= |raw|
    ensures q < |raw| ==> !Blank(raw[q])
    decreases |raw| - p
  {
    if p < |raw| && Blank(raw[p]) then Skip(raw, p + 1) else p
  }

  predicate At(raw: string, p: nat, c: char) {
    p < |raw| && raw[p] == c
  }

  /** A value that is no container, at a position without leading blanks. */
  function Scalar(raw: string, q: nat): (r: Option<(Tree, nat)>)
    requires q <= |raw|
    ensures r.Some? ==> q < r.value.1 <= |raw|
  {
    if q == |raw| then None
    else if raw[q] == '"' then
      match ReadString(raw, q)
      case None => None
      case Some((s, e)) => Some((Str(s), e))
    else if raw[q] == 't' then (if Occurs(raw, q, "true") then Some((Bool(true), q + 4)) else None)
    else if raw[q] == 'f' then (if Occurs(raw, q, "false") then Some((Bool(false), q + 5)) else None)
    else if raw[q] == 'n' then (if Occurs(raw, q, "null") then Some((Null, q + 4)) else None)
    else if raw[q] == '-' || Digit(raw[q]) then
      match NumberEnd(raw, q)
      case None => None
      case Some((e, _)) => if ReviewedDecimal(raw[q..e]).Ok? then Some((Num(raw[q..e]), e)) else None
    else None
  }

  /** One value, leading blanks included. */
  function Value(raw: string, p: nat): (r: Option<(Tree, nat)>)
    requires p <= |raw|
    ensures r.Some? ==> p < r.value.1 <= |raw|
    decreases |raw| - p, 0
  {
    var q := Skip(raw, p);
    if At(raw, q, '[') then Rest(raw, q + 1, NEW_ARRAY)
    else if At(raw, q, '{') then Rest(raw, q + 1, NEW_OBJECT)
    else Scalar(raw, q)
  }

  /** The remainder of a container, up to its closing bracket. */
  function Rest(raw: string, p: nat, f: Frame): (r: Option<(Tree, nat)>)
    requires p <= |raw|
    ensures r.Some? ==> p < r.value.1 <= |raw|
    decreases |raw| - p, 2
  {
    var q := Skip(raw, p);
    match f.state
    case ArrayFirst =>
      if At(raw, q, ']') then Some((f.Closed(), q + 1)) else Element(raw, p, f)
    case ArrayValue => Element(raw, p, f)
    case ArrayNext =>
      if At(raw, q, ',') then Rest(raw, q + 1, f.(state := ArrayValue))
      else if At(raw, q, ']') then Some((f.Closed(), q + 1))
      else None
    case ObjectFirst =>
      if At(raw, q, '}') then Some((f.Closed(), q + 1)) else Key(raw, q, f)
    case ObjectKey => Key(raw, q, f)
    case ObjectColon =>
      if At(raw, q, ':') then Rest(raw, q + 1, f.(state := ObjectValue)) else None
    case ObjectValue => Element(raw, p, f)
    case ObjectNext =>
      if At(raw, q, ',') then Rest(raw, q + 1, f.(state := ObjectKey))
      else if At(raw, q, '}') then Some((f.Closed(), q + 1))
      else None
  }

  function Element(raw: string, p: nat, f: Frame): (r: Option<(Tree, nat)>)
    requires p <= |raw| && f.state.TakesValue()
    ensures r.Some? ==> p < r.value.1 <= |raw|
    decreases |raw| - p, 1
  {
    match Value(raw, p)
    case None => None
    case Some((t, e)) => Rest(raw, e, f.Attach(t))
  }

  function Key(raw: string, q: nat, f: Frame): (r: Option<(Tree, nat)>)
    requires q <= |raw|
    ensures r.Some? ==> q < r.value.1 <= |raw|
    decreases |raw| - q, 1
  {
    match ReadString(raw, q)
    case None => None
    case Some((key, e)) =>
      if key in f.keys then None else Rest(raw, e, f.(state := ObjectColon, key := key))
  }

  function Ending(raw: string, p: nat, t: Tree): Option<Tree>
    requires p <= |raw|
  {
    if Skip(raw, p) == |raw| then Some(t) else None
  }

  /** A whole text: one value and nothing else but blanks. */
  function Document(raw: string): Option<Tree> {
    match Value(raw, 0)
    case None => None
    case Some((t, e)) => Ending(raw, e, t)
  }

  // ---- the shape of what is read ----

  lemma AttachValid(f: Frame, t: Tree)
    requires f.Valid() && f.state.TakesValue() && Shaped(t)
    ensures f.Attach(t).Valid()
  {
    if f.state.InObject() {
      InsertSorted(f.keys, f.key);
    }
  }

  lemma {:induction false} ValueShaped(raw: string, p: nat)
    requires p <= |raw| && Value(raw, p).Some?
    ensures Shaped(Value(raw, p).value.0)
    decreases |raw| - p, 0
  {
    var q := Skip(raw, p);
    if At(raw, q, '[') {
      RestShaped(raw, q + 1, NEW_ARRAY);
    } else if At(raw, q, '{') {
      RestShaped(raw, q + 1, NEW_OBJECT);
    }
  }

  lemma {:induction false} RestShaped(raw: string, p: nat, f: Frame)
    requires p <= |raw| && f.Valid() && Rest(raw, p, f).Some?
    ensures Shaped(Rest(raw, p, f).value.0)
    decreases |raw| - p, 2
  {
    hide ReadString, Scalar, Sorted, InsertAt, Slot;
    var q := Skip(raw, p);
    match f.state
    case ArrayNext =>
      if At(raw, q, ',') {
        RestShaped(raw, q + 1, f.(state := ArrayValue));
      }
    case ObjectNext =>
      if At(raw, q, ',') {
        RestShaped(raw, q + 1, f.(state := ObjectKey));
      }
    case ObjectColon =>
      if At(raw, q, ':') {
        RestShaped(raw, q + 1, f.(state := ObjectValue));
      }
    case ObjectKey => KeyShaped(raw, q, f);
    case ObjectFirst =>
      if !At(raw, q, '}') {
        KeyShaped(raw, q, f);
      }
    case ArrayFirst =>
      if !At(raw, q, ']') {
        ElementShaped(raw, p, f);
      }
    case _ => ElementShaped(raw, p, f);
  }

  lemma {:induction false} ElementShaped(raw: string, p: nat, f: Frame)
    requires p <= |raw| && f.Valid() && f.state.TakesValue() && Element(raw, p, f).Some?
    ensures Shaped(Element(raw, p, f).value.0)
    decreases |raw| - p, 1
  {
    var (t, e) := Value(raw, p).value;
    ValueShaped(raw, p);
    AttachValid(f, t);
    RestShaped(raw, e, f.Attach(t));
  }

  lemma {:induction false} KeyShaped(raw: string, q: nat, f: Frame)
    requires q <= |raw| && f.Valid() && f.state.InObject() && Key(raw, q, f).Some?
    ensures Shaped(Key(raw, q, f).value.0)
    decreases |raw| - q, 1
  {
    var (key, e) := ReadString(raw, q).value;
    RestShaped(raw, e, f.(state := ObjectColon, key := key));
  }

  lemma DocumentShaped(raw: string)
    requires Document(raw).Some?
    ensures Shaped(Document(raw).value)
  {
    ValueShaped(raw, 0);
  }

  // ---- the grammar seen from the middle of a read ----

  /** What a reader with this stack of open containers would still return. */
  function Resume(raw: string, p: nat, stack: seq<Frame>): Option<Tree>
    requires p <= |raw| && |stack| > 0
    decreases |stack|, 0
  {
    match Rest(raw, p, stack[|stack| - 1])
    case None => None
    case Some((t, e)) => Continue(raw, e, stack[..|stack| - 1], t)
  }

  /** The same after a complete value t: it ends the text or goes to the innermost open container. */
  function Continue(raw: string, p: nat, below: seq<Frame>, t: Tree): Option<Tree>
    requires p <= |raw|
    decreases |below|, 1
  {
    if below == [] then Ending(raw, p, t)
    else
      var top := below[|below| - 1];
      if top.state.TakesValue() then Resume(raw, p, below[..|below| - 1] + [top.Attach(t)]) else None
  }

  /** Reading from the middle: before any value, inside containers, or after the root value. */
  function Outcome(raw: string, p: nat, stack: seq<Frame>, root: Option<Tree>): Option<Tree>
    requires p <= |raw|
  {
    if stack != [] then Resume(raw, p, stack)
    else
      match root
      case Some(t) => Ending(raw, p, t)
      case None =>
        match Value(raw, p)
        case None => None
        case Some((t, e)) => Ending(raw, e, t)
  }
}
