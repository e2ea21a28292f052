/** Reading what the printer wrote: the grammar and the recursive printer are inverse. */
module RoundTrip {
  import opened Wrappers
  import opened Numbers
  import opened Strings
  import opened Json
  import opened Grammar

  predicate GoodToken(token: string) {
    ReviewedDecimal(token).Ok?
  }

  /** Texts that a value can start with: no blank and no closing bracket. */
  predicate Starts(c: char) {
    !Blank(c) && c != ']' && c != '}'
  }

  lemma TokenHead(token: string)
    requires GoodToken(token)
    ensures token != "" && (token[0] == '-' || Digit(token[0]))
  {
    var t := DecimalToken(token);
    hide ReviewedDecimal, ReadToken;
    ValidDigits(t);
    SpelledBody(t);
  }

  lemma PrintHead(t: Tree)
    requires Shaped(t) && AllNum(t, GoodToken)
    ensures Print(t) != "" && Starts(Print(t)[0])
  {
    hide GoodToken, Escape, Join, Fields, Texts;
    if t.Num? {
      TokenHead(t.n);
    }
  }

  lemma SkipNothing(raw: string, p: nat)
    requires p < |raw| && !Blank(raw[p])
    ensures Skip(raw, p) == p
  {
  }

  lemma OccursSlice(raw: string, p: nat, s: string)
    requires Occurs(raw, p, s)
    ensures p + |s| <= |raw| && raw[p..p + |s|] == s
  {
  }

  lemma NumberEndAt(token: string, raw: string, p: nat)
    requires GoodToken(token) && Occurs(raw, p, token) && Stops(raw, p + |token|)
    ensures NumberEnd(raw, p).Some? && NumberEnd(raw, p).value.0 == p + |token|
  {
    hide ReviewedDecimal, ReadToken, NumberEnd, Stops, Occurs, Token.Spell, Token.Valid, DecimalOf;
    var t := DecimalToken(token);
    ReadsSpelled(raw, p, t);
  }

  lemma ReadsNumber(token: string, raw: string, p: nat)
    requires GoodToken(token) && Occurs(raw, p, token) && Stops(raw, p + |token|)
    ensures Scalar(raw, p) == Some((Num(token), p + |token|))
  {
    hide ReviewedDecimal, NumberEnd, ReadString, Stops, Occurs;
    OccursSlice(raw, p, token);
    TokenHead(token);
    OccursHead(raw, p, token);
    NumberEndAt(token, raw, p);
  }

  lemma ReadsScalar(t: Tree, raw: string, p: nat)
    requires Shaped(t) && AllNum(t, GoodToken) && !t.Arr? && !t.Obj?
    requires Occurs(raw, p, Print(t)) && Stops(raw, p + |Print(t)|)
    ensures Scalar(raw, p) == Some((t, p + |Print(t)|))
    ensures !At(raw, p, '[') && !At(raw, p, '{')
  {
    hide GoodToken, Escape, ReadString, NumberEnd, ReviewedDecimal, Stops;
    PrintHead(t);
    OccursHead(raw, p, Print(t));
    if t.Num? {
      ReadsNumber(t.n, raw, p);
    } else if t.Str? {
      ReadsQuoted(raw, p, t.s);
    }
  }

  // ---- single steps of the grammar ----

  lemma ElementStep(raw: string, p: nat, f: Frame, t: Tree, e: nat)
    requires p < |raw| && Starts(raw[p]) && f.state.TakesValue()
    requires Value(raw, p) == Some((t, e))
    ensures e <= |raw| && Rest(raw, p, f) == Rest(raw, e, f.Attach(t))
  {
    hide Scalar, Slot, InsertAt;
    SkipNothing(raw, p);
  }

  lemma CommaStep(raw: string, p: nat, f: Frame)
    requires At(raw, p, ',') && (f.state == ArrayNext || f.state == ObjectNext)
    ensures Rest(raw, p, f) ==
            Rest(raw, p + 1, f.(state := if f.state == ArrayNext then ArrayValue else ObjectKey))
  {
    hide Scalar, ReadString;
    SkipNothing(raw, p);
  }

  lemma CloseStep(raw: string, p: nat, f: Frame)
    requires if f.state.InObject() then At(raw, p, '}') && (f.state == ObjectNext || f.state == ObjectFirst)
             else At(raw, p, ']') && (f.state == ArrayNext || f.state == ArrayFirst)
    ensures Rest(raw, p, f) == Some((f.Closed(), p + 1))
  {
    hide Scalar, ReadString;
    SkipNothing(raw, p);
  }

  lemma FieldStep(raw: string, p: nat, f: Frame, key: string)
    requires f.state == ObjectFirst || f.state == ObjectKey
    requires Occurs(raw, p, Quote(key) + ":") && key !in f.keys
    ensures var q := p + |Quote(key)| + 1;
            q <= |raw| && Rest(raw, p, f) == Rest(raw, q, f.(state := ObjectValue, key := key))
  {
    hide Scalar, ReadString, Escape;
    OccursParts(raw, p, Quote(key), ":");
    OccursHead(raw, p, Quote(key));
    OccursHead(raw, p + |Quote(key)|, ":");
    ReadsQuoted(raw, p, key);
    SkipNothing(raw, p);
    SkipNothing(raw, p + |Quote(key)|);
    ColonStep(raw, p + |Quote(key)|, f.(state := ObjectColon, key := key));
  }

  lemma ColonStep(raw: string, p: nat, f: Frame)
    requires At(raw, p, ':') && f.state == ObjectColon
    ensures Rest(raw, p, f) == Rest(raw, p + 1, f.(state := ObjectValue))
  {
    hide Scalar, ReadString;
    SkipNothing(raw, p);
  }

  lemma StopsAt(raw: string, p: nat, s: string)
    requires Occurs(raw, p, s) && s != "" && (s[0] == ',' || s[0] == ']' || s[0] == '}')
    ensures Stops(raw, p)
  {
    OccursHead(raw, p, s);
  }

  lemma JoinOne(pieces: seq<string>)
    requires |pieces| == 1
    ensures Join(pieces) == pieces[0]
  {
  }

  lemma Regroup(a: string, b: string, c: string, d: string)
    ensures (a + (b + c)) + d == a + (b + (c + d))
    ensures (a + b) + c == a + (b + c)
  {
  }

  lemma JoinCons(pieces: seq<string>)
    requires |pieces| > 1
    ensures Join(pieces) == pieces[0] + ("," + Join(pieces[1..]))
  {
  }

  // ---- containers ----

  lemma {:induction false} ReadsPrinted(t: Tree, raw: string, p: nat)
    requires Shaped(t) && AllNum(t, GoodToken)
    requires Occurs(raw, p, Print(t)) && Stops(raw, p + |Print(t)|)
    ensures Value(raw, p) == Some((t, p + |Print(t)|))
    decreases t, 1
  {
    hide GoodToken, Scalar, Rest, Stops, Join, Quote, ReviewedDecimal;
    PrintHead(t);
    OccursHead(raw, p, Print(t));
    SkipNothing(raw, p);
    match t
    case Arr(items) =>
      OccursParts(raw, p, "[", Join(Texts(items)) + "]");
      assert Print(t) == "[" + (Join(Texts(items)) + "]");
      ReadsArray(items, raw, p + 1);
    case Obj(keys, values) =>
      assert Print(t) == "{" + (Join(Fields(keys, Texts(values))) + "}");
      OccursParts(raw, p, "{", Join(Fields(keys, Texts(values))) + "}");
      ReadsObject(keys, values, raw, p + 1);
    case _ =>
      ReadsScalar(t, raw, p);
  }

  lemma {:induction false} ReadsArray(items: seq<Tree>, raw: string, p: nat)
    requires forall i :: 0 <= i < |items| ==> Shaped(items[i]) && AllNum(items[i], GoodToken)
    requires Occurs(raw, p, Join(Texts(items)) + "]")
    ensures Rest(raw, p, NEW_ARRAY) == Some((Arr(items), p + |Join(Texts(items))| + 1))
    decreases items, 3
  {
    hide GoodToken, Rest, Shaped, AllNum, Print;
    if items == [] {
      OccursHead(raw, p, "]");
      CloseStep(raw, p, NEW_ARRAY);
    } else {
      ReadsElements(items, raw, p, NEW_ARRAY);
      assert [] + items == items;
    }
  }

  lemma AttachItem(f: Frame, t: Tree)
    requires f.state == ArrayFirst || f.state == ArrayValue
    ensures var g := f.Attach(t);
            g.state == ArrayNext && !g.state.InObject() && g.values == f.values + [t] && g.Closed() == Arr(f.values + [t])
  {
  }

  /** What follows the first item. */
  function ItemsTail(items: seq<Tree>): string
    requires items != [] && forall i :: 0 <= i < |items| ==> Shaped(items[i])
  {
    if |items| == 1 then "]" else "," + (Join(Texts(items[1..])) + "]")
  }

  lemma TailHead(items: seq<Tree>)
    requires items != [] && forall i :: 0 <= i < |items| ==> Shaped(items[i])
    ensures ItemsTail(items) != "" && (ItemsTail(items)[0] == ',' || ItemsTail(items)[0] == ']')
  {
    hide Shaped, Join, Texts;
  }

  lemma {:induction false} ReadsFirst(items: seq<Tree>, raw: string, p: nat, f: Frame)
    requires items != []
    requires forall i :: 0 <= i < |items| ==> Shaped(items[i]) && AllNum(items[i], GoodToken)
    requires f.state == ArrayFirst || f.state == ArrayValue
    requires Occurs(raw, p, Join(Texts(items)) + "]")
    ensures var e := p + |Print(items[0])|;
            && Occurs(raw, e, ItemsTail(items)) && e <= |raw|
            && Rest(raw, p, f) == Rest(raw, e, f.Attach(items[0]))
            && |Join(Texts(items))| + 1 == |Print(items[0])| + |ItemsTail(items)|
    decreases items, 1
  {
    hide GoodToken, Rest, Value, Shaped, AllNum, Print, Stops, Join, Texts, Slot, InsertAt, Occurs, Frame.Attach, ItemsTail;
    FirstElement(items);
    TailHead(items);
    OccursParts(raw, p, Print(items[0]), ItemsTail(items));
    ReadsItem(items[0], raw, p, ItemsTail(items), f);
    OccursInside(raw, p + |Print(items[0])|, ItemsTail(items));
  }

  /** The closing bracket of a container after a member. */
  lemma CloseRead(raw: string, e: nat, g: Frame)
    requires g.state == ArrayNext || g.state == ObjectNext
    requires Occurs(raw, e, if g.state == ArrayNext then "]" else "}")
    ensures e < |raw| && Rest(raw, e, g) == Some((g.Closed(), e + 1))
  {
    hide Rest, Frame.Closed;
    OccursHead(raw, e, if g.state == ArrayNext then "]" else "}");
    CloseStep(raw, e, g);
  }

  /** The comma after a member. */
  lemma CommaRead(raw: string, e: nat, g: Frame, rest: string)
    requires (g.state == ArrayNext || g.state == ObjectNext) && Occurs(raw, e, "," + rest)
    ensures e + 1 <= |raw| && Occurs(raw, e + 1, rest)
    ensures Rest(raw, e, g) == Rest(raw, e + 1, g.(state := if g.state == ArrayNext then ArrayValue else ObjectKey))
  {
    hide Rest;
    OccursParts(raw, e, ",", rest);
    OccursHead(raw, e, ",");
    CommaStep(raw, e, g);
  }

  lemma {:induction false} ReadsElements(items: seq<Tree>, raw: string, p: nat, f: Frame)
    requires items != []
    requires forall i :: 0 <= i < |items| ==> Shaped(items[i]) && AllNum(items[i], GoodToken)
    requires f.state == ArrayFirst || f.state == ArrayValue
    requires Occurs(raw, p, Join(Texts(items)) + "]")
    ensures Rest(raw, p, f) == Some((Arr(f.values + items), p + |Join(Texts(items))| + 1))
    decreases items, 2
  {
    hide GoodToken, Rest, Value, Shaped, AllNum, Print, Join, Texts, Slot, InsertAt, Occurs, Frame.Attach, Frame.Closed;
    var e, g := p + |Print(items[0])|, f.Attach(items[0]);
    ReadsFirst(items, raw, p, f);
    AttachItem(f, items[0]);
    if |items| == 1 {
      CloseRead(raw, e, g);
      assert f.values + items == f.values + [items[0]];
    } else {
      CommaRead(raw, e, g, Join(Texts(items[1..])) + "]");
      ReadsElements(items[1..], raw, e + 1, g.(state := ArrayValue));
      assert f.values + items == g.values + items[1..];
    }
  }

  lemma OccursInside(raw: string, p: nat, s: string)
    requires Occurs(raw, p, s) && s != ""
    ensures p < |raw|
  {
  }

  lemma FirstElement(items: seq<Tree>)
    requires items != [] && forall i :: 0 <= i < |items| ==> Shaped(items[i])
    ensures Join(Texts(items)) + "]" == Print(items[0]) + ItemsTail(items)
    ensures |Join(Texts(items))| + 1 == |Print(items[0])| + |ItemsTail(items)|
  {
    hide Print, Shaped, Join;
    var texts := Texts(items);
    assert texts[1..] == Texts(items[1..]);
    if |items| > 1 {
      JoinCons(texts);
      Regroup(texts[0], ",", Join(texts[1..]), "]");
    } else {
      JoinOne(texts);
    }
  }

  /** One member of a container, followed by the text `tail`. */
  lemma {:induction false} ReadsItem(t: Tree, raw: string, p: nat, tail: string, f: Frame)
    requires Shaped(t) && AllNum(t, GoodToken) && f.state.TakesValue()
    requires Occurs(raw, p, Print(t)) && Occurs(raw, p + |Print(t)|, tail)
    requires tail != "" && (tail[0] == ',' || tail[0] == ']' || tail[0] == '}')
    ensures Rest(raw, p, f) == Rest(raw, p + |Print(t)|, f.Attach(t))
    decreases t, 2
  {
    hide GoodToken, Rest, Value, Shaped, AllNum, Print, Frame.Attach;
    StopsAt(raw, p + |Print(t)|, tail);
    PrintHead(t);
    OccursHead(raw, p, Print(t));
    ReadsPrinted(t, raw, p);
    ElementStep(raw, p, f, t, p + |Print(t)|);
  }

  lemma {:induction false} ReadsObject(keys: seq<string>, values: seq<Tree>, raw: string, p: nat)
    requires |keys| == |values| && Sorted(keys)
    requires forall i :: 0 <= i < |values| ==> Shaped(values[i]) && AllNum(values[i], GoodToken)
    requires Occurs(raw, p, Join(Fields(keys, Texts(values))) + "}")
    ensures Rest(raw, p, NEW_OBJECT) == Some((Obj(keys, values), p + |Join(Fields(keys, Texts(values)))| + 1))
    decreases values, 3
  {
    hide GoodToken, Rest, Shaped, AllNum, Print, Less, Fields;
    if values == [] {
      FieldsEmpty();
      OccursHead(raw, p, "}");
      CloseStep(raw, p, NEW_OBJECT);
    } else {
      assert [] + keys == keys && [] + values == values;
      ReadsFields(keys, values, raw, p, NEW_OBJECT);
    }
  }

  lemma FieldsEmpty()
    ensures Fields([], []) == []
  {
  }

  lemma {:induction false} SlotEnd(keys: seq<string>, key: string)
    requires forall i :: 0 <= i < |keys| ==> Less(keys[i], key)
    ensures Slot(keys, key) == |keys| && key !in keys
  {
    if keys != [] {
      SlotEnd(keys[1..], key);
      LessTotal(keys[0], keys[0]);
    }
  }

  lemma AttachLast(f: Frame, key: string, more: seq<string>, t: Tree)
    requires f.state.InObject() && |f.keys| == |f.values| && Sorted(f.keys + [key] + more)
    ensures key !in f.keys
    ensures var g := f.(state := ObjectValue, key := key);
            g.Attach(t) == g.(state := ObjectNext, keys := f.keys + [key], values := f.values + [t])
  {
    var all := f.keys + [key] + more;
    forall i | 0 <= i < |f.keys|
      ensures Less(f.keys[i], key)
    {
      assert all[i] == f.keys[i] && all[|f.keys|] == key;
    }
    SlotEnd(f.keys, key);
    assert f.keys[|f.keys|..] == [] && f.keys[..|f.keys|] == f.keys;
    assert f.values[|f.values|..] == [] && f.values[..|f.values|] == f.values;
  }

  lemma FieldsCons(keys: seq<string>, values: seq<Tree>)
    requires values != [] && |keys| == |values| && forall i :: 0 <= i < |values| ==> Shaped(values[i])
    ensures var fields := Fields(keys, Texts(values));
            && |fields| == |values| && fields[0] == (Quote(keys[0]) + ":") + Print(values[0])
            && fields[1..] == Fields(keys[1..], Texts(values[1..]))
  {
    hide Print, Quote, Shaped;
    assert Texts(values)[1..] == Texts(values[1..]);
  }

  /** What follows the first field. */
  function FieldsTail(keys: seq<string>, values: seq<Tree>): string
    requires values != [] && |keys| == |values| && forall i :: 0 <= i < |values| ==> Shaped(values[i])
  {
    if |values| == 1 then "}" else "," + (Join(Fields(keys[1..], Texts(values[1..]))) + "}")
  }

  lemma FirstField(keys: seq<string>, values: seq<Tree>)
    requires values != [] && |keys| == |values| && forall i :: 0 <= i < |values| ==> Shaped(values[i])
    ensures Join(Fields(keys, Texts(values))) + "}" ==
            (Quote(keys[0]) + ":") + (Print(values[0]) + FieldsTail(keys, values))
    ensures |Join(Fields(keys, Texts(values)))| + 1 ==
            |Quote(keys[0])| + 1 + |Print(values[0])| + |FieldsTail(keys, values)|
  {
    hide Print, Quote, Join, Shaped, Fields;
    var fields := Fields(keys, Texts(values));
    var field, text := Quote(keys[0]) + ":", Print(values[0]);
    var rest := Join(Fields(keys[1..], Texts(values[1..])));
    FieldsCons(keys, values);
    if |values| > 1 {
      JoinCons(fields);
      Regroup(fields[0], ",", rest, "}");
      Regroup(field, text, "," + (rest + "}"), "");
    } else {
      JoinOne(fields);
      Regroup(field, text, "}", "");
    }
  }

  /** Reading the first field: its key, the colon and its value. */
  lemma {:induction false} ReadsFirstField(keys: seq<string>, values: seq<Tree>, raw: string, p: nat, f: Frame)
    requires values != [] && |keys| == |values|
    requires forall i :: 0 <= i < |values| ==> Shaped(values[i]) && AllNum(values[i], GoodToken)
    requires f.state == ObjectFirst || f.state == ObjectKey
    requires |f.keys| == |f.values| && Sorted(f.keys + [keys[0]] + keys[1..])
    requires Occurs(raw, p, Join(Fields(keys, Texts(values))) + "}")
    ensures var e := p + |Quote(keys[0])| + 1 + |Print(values[0])|;
            && Occurs(raw, e, FieldsTail(keys, values)) && e <= |raw|
            && Rest(raw, p, f) ==
               Rest(raw, e, f.(state := ObjectNext, key := keys[0], keys := f.keys + [keys[0]], values := f.values + [values[0]]))
    decreases values, 1
  {
    hide GoodToken, Rest, Value, Shaped, AllNum, Print, Stops, Join, Fields, Quote, Sorted, Slot, Texts, Frame.Attach, Occurs;
    var key, text, tail := keys[0], Print(values[0]), FieldsTail(keys, values);
    FirstField(keys, values);
    OccursParts(raw, p, Quote(key) + ":", text + tail);
    var v := p + |Quote(key)| + 1;
    OccursParts(raw, v, text, tail);
    AttachLast(f, key, keys[1..], values[0]);
    FieldStep(raw, p, f, key);
    ReadsItem(values[0], raw, v, tail, f.(state := ObjectValue, key := key));
    OccursInside(raw, v + |text|, tail);
  }

  lemma {:induction false} ReadsFields(keys: seq<string>, values: seq<Tree>, raw: string, p: nat, f: Frame)
    requires values != [] && |keys| == |values|
    requires forall i :: 0 <= i < |values| ==> Shaped(values[i]) && AllNum(values[i], GoodToken)
    requires f.state == ObjectFirst || f.state == ObjectKey
    requires |f.keys| == |f.values| && Sorted(f.keys + keys)
    requires Occurs(raw, p, Join(Fields(keys, Texts(values))) + "}")
    ensures Rest(raw, p, f) ==
            Some((Obj(f.keys + keys, f.values + values), p + |Join(Fields(keys, Texts(values)))| + 1))
    decreases values, 2
  {
    hide GoodToken, Rest, Value, Shaped, AllNum, Print, Stops, Join, Fields, Quote, Sorted, Slot, Texts, Frame.Attach, Occurs;
    var e := p + |Quote(keys[0])| + 1 + |Print(values[0])|;
    assert f.keys + keys == f.keys + [keys[0]] + keys[1..];
    assert f.values + values == f.values + [values[0]] + values[1..];
    ReadsFirstField(keys, values, raw, p, f);
    FirstField(keys, values);
    var h := f.(state := ObjectNext, key := keys[0], keys := f.keys + [keys[0]], values := f.values + [values[0]]);
    if |values| == 1 {
      assert f.keys + keys == f.keys + [keys[0]] && f.values + values == f.values + [values[0]];
      CloseRead(raw, e, h);
    } else {
      CommaRead(raw, e, h, Join(Fields(keys[1..], Texts(values[1..]))) + "}");
      ReadsFields(keys[1..], values[1..], raw, e + 1, h.(state := ObjectKey));
    }
  }

  /** Printing a value and reading the text gives the value back. */
  lemma PrintThenRead(t: Tree)
    requires Shaped(t) && AllNum(t, GoodToken)
    ensures Document(Print(t)) == Some(t)
  {
    hide Print, Value, GoodToken;
    var raw := Print(t);
    assert raw[0..|raw|] == raw;
    ReadsPrinted(t, raw, 0);
  }

  /** Distinct values have distinct texts. */
  lemma PrintInjective(a: Tree, b: Tree)
    requires Shaped(a) && AllNum(a, GoodToken) && Shaped(b) && AllNum(b, GoodToken)
    requires Print(a) == Print(b)
    ensures a == b
  {
    PrintThenRead(a);
    PrintThenRead(b);
  }
}
