/** JSON values as trees, the recursive compact printer, and the sizes the source budgets. */
module Json {
  import opened Wrappers
  import opened Numbers
  import opened Strings

  /** A JSON value; objects keep their keys sorted, as a BTreeMap does. N is what a number carries. */
  datatype Json<+N> =
    | Null
    | Bool(b: bool)
    | Str(s: string)
    | Num(n: N)
    | Arr(items: seq<Json<N>>)
    | Obj(keys: seq<string>, values: seq<Json<N>>)

  function MapNum<M, N>(t: Json<M>, f: M -> N): Json<N>
    decreases t, 1
  {
    match t
    case Null => Null
    case Bool(b) => Bool(b)
    case Str(s) => Str(s)
    case Num(n) => Num(f(n))
    case Arr(items) => Arr(MapNums(items, f))
    case Obj(keys, values) => Obj(keys, MapNums(values, f))
  }

  function MapNums<M, N>(ts: seq<Json<M>>, f: M -> N): (r: seq<Json<N>>)
    ensures |r| == |ts|
    ensures forall i :: 0 <= i < |ts| ==> r[i] == MapNum(ts[i], f)
    decreases ts, 0
  {
    if ts == [] then [] else [MapNum(ts[0], f)] + MapNums(ts[1..], f)
  }

  lemma {:induction false} MapCompose<K, M, N>(t: Json<K>, f: K -> M, g: M -> N, h: K -> N)
    requires forall x :: h(x) == g(f(x))
    ensures MapNum(MapNum(t, f), g) == MapNum(t, h)
    decreases t, 1
  {
    match t
    case Arr(items) => MapsCompose(items, f, g, h);
    case Obj(_, values) => MapsCompose(values, f, g, h);
    case _ =>
  }

  lemma {:induction false} MapsCompose<K, M, N>(ts: seq<Json<K>>, f: K -> M, g: M -> N, h: K -> N)
    requires forall x :: h(x) == g(f(x))
    ensures MapNums(MapNums(ts, f), g) == MapNums(ts, h)
    decreases ts, 0
  {
    forall i | 0 <= i < |ts|
      ensures MapNum(MapNum(ts[i], f), g) == MapNum(ts[i], h)
    {
      MapCompose(ts[i], f, g, h);
    }
  }

  // ---- sorted keys ----

  predicate Sorted(keys: seq<string>) {
    forall i, j :: 0 <= i < j < |keys| ==> Less(keys[i], keys[j])
  }

  /** Where a key belongs among sorted keys. */
  function Slot(keys: seq<string>, key: string): (i: nat)
    ensures i <= |keys|
    ensures forall j :: 0 <= j < i ==> Less(keys[j], key)
    ensures i < |keys| ==> !Less(keys[i], key)
  {
    if keys == [] || !Less(keys[0], key) then 0 else Slot(keys[1..], key) + 1
  }

  function InsertAt<T>(s: seq<T>, i: nat, x: T): (r: seq<T>)
    requires i <= |s|
    ensures |r| == |s| + 1
  {
    s[..i] + [x] + s[i..]
  }

  lemma InsertSorted(keys: seq<string>, key: string)
    requires Sorted(keys) && key !in keys
    ensures Sorted(InsertAt(keys, Slot(keys, key), key))
  {
    var i := Slot(keys, key);
    var r := InsertAt(keys, i, key);
    forall j | i <= j < |keys|
      ensures Less(key, keys[j])
    {
      LessTotal(keys[i], key);
      if i < j {
        LessTransitive(key, keys[i], keys[j]);
      }
    }
  }

  /** Objects pair every key with a value and list the keys in order. */
  predicate Shaped<N>(t: Json<N>) {
    match t
    case Arr(items) => forall i :: 0 <= i < |items| ==> Shaped(items[i])
    case Obj(keys, values) => |keys| == |values| && Sorted(keys) && forall i :: 0 <= i < |values| ==> Shaped(values[i])
    case _ => true
  }

  /** Every number of the tree satisfies p. */
  predicate AllNum<N>(t: Json<N>, p: N -> bool) {
    match t
    case Num(n) => p(n)
    case Arr(items) => forall i :: 0 <= i < |items| ==> AllNum(items[i], p)
    case Obj(_, values) => forall i :: 0 <= i < |values| ==> AllNum(values[i], p)
    case _ => true
  }

  /** A property of numbers that f turns into another holds of all mapped numbers. */
  lemma {:induction false} AllNumMapped<M, N>(t: Json<M>, p: M -> bool, f: M -> N, q: N -> bool)
    requires AllNum(t, p) && forall x :: p(x) ==> q(f(x))
    ensures AllNum(MapNum(t, f), q)
    decreases t
  {
    match t
    case Arr(items) =>
      forall i | 0 <= i < |items|
        ensures AllNum(MapNum(items[i], f), q)
      {
        AllNumMapped(items[i], p, f, q);
      }
    case Obj(_, values) =>
      forall i | 0 <= i < |values|
        ensures AllNum(MapNum(values[i], f), q)
      {
        AllNumMapped(values[i], p, f, q);
      }
    case _ =>
  }

  /** Two maps that agree on the numbers of a tree make the same tree. */
  lemma {:induction false} MapsAgree<M, N>(t: Json<M>, p: M -> bool, f: M -> N, g: M -> N)
    requires AllNum(t, p) && forall x :: p(x) ==> f(x) == g(x)
    ensures MapNum(t, f) == MapNum(t, g)
    decreases t
  {
    match t
    case Arr(items) =>
      forall i | 0 <= i < |items|
        ensures MapNum(items[i], f) == MapNum(items[i], g)
      {
        MapsAgree(items[i], p, f, g);
      }
    case Obj(_, values) =>
      forall i | 0 <= i < |values|
        ensures MapNum(values[i], f) == MapNum(values[i], g)
      {
        MapsAgree(values[i], p, f, g);
      }
    case _ =>
  }

  // ---- printing ----

  function Join(pieces: seq<string>): string {
    if pieces == [] then ""
    else if |pieces| == 1 then pieces[0]
    else pieces[0] + "," + Join(pieces[1..])
  }

  function Fields(keys: seq<string>, texts: seq<string>): seq<string>
    requires |keys| == |texts|
  {
    seq(|keys|, i requires 0 <= i < |keys| => Quote(keys[i]) + ":" + texts[i])
  }

  /** The compact text of a value whose numbers carry their own text. */
  function Print(t: Json<string>): string
    requires Shaped(t)
    decreases t, 1
  {
    match t
    case Null => "null"
    case Bool(b) => if b then "true" else "false"
    case Str(s) => Quote(s)
    case Num(n) => n
    case Arr(items) => "[" + Join(Texts(items)) + "]"
    case Obj(keys, values) => "{" + Join(Fields(keys, Texts(values))) + "}"
  }

  function Texts(ts: seq<Json<string>>): (r: seq<string>)
    requires forall i :: 0 <= i < |ts| ==> Shaped(ts[i])
    ensures |r| == |ts|
    ensures forall i :: 0 <= i < |ts| ==> r[i] == Print(ts[i])
    decreases ts, 0
  {
    if ts == [] then [] else [Print(ts[0])] + Texts(ts[1..])
  }

  /** The decimal of a number token; zero stands for a text that is none. */
  function DecimalOfToken(token: string): (d: Decimal)
  {
    if ReviewedDecimal(token).Ok? then ReviewedDecimal(token).value else ZERO
  }

  /** What a value means: its numbers as exact decimals. */
  function Meaning(t: Json<string>): Json<Decimal> {
    MapNum(t, DecimalOfToken)
  }

  function Canonize(token: string): string {
    ComparisonToken(DecimalOfToken(token))
  }

  lemma {:induction false} MapShaped<M, N>(t: Json<M>, f: M -> N)
    ensures Shaped(MapNum(t, f)) <==> Shaped(t)
  {
    match t
    case Arr(items) =>
      forall i | 0 <= i < |items|
        ensures Shaped(MapNum(items[i], f)) <==> Shaped(items[i])
      {
        MapShaped(items[i], f);
      }
    case Obj(_, values) =>
      forall i | 0 <= i < |values|
        ensures Shaped(MapNum(values[i], f)) <==> Shaped(values[i])
      {
        MapShaped(values[i], f);
      }
    case _ =>
  }

  /** The comparison form of a meaning: compact, with canonical decimal tokens. */
  function ComparisonText(t: Json<Decimal>): string
    requires Shaped(t)
  {
    MapShaped(t, ComparisonToken);
    Print(MapNum(t, ComparisonToken))
  }

  // ---- sizes ----

  function Commas(n: nat): nat {
    if n == 0 then 0 else n - 1
  }

  /** Size of the comparison form, counted without writing it. */
  function Size(t: Json<string>): nat
    decreases t, 1
  {
    match t
    case Null => 4
    case Bool(b) => if b then 4 else 5
    case Str(s) => StringJsonLen(s)
    case Num(n) => Bytes(Canonize(n))
    case Arr(items) => 2 + Sizes(items) + Commas(|items|)
    case Obj(keys, values) => 2 + KeySizes(keys) + Sizes(values) + Commas(|values|)
  }

  function Sizes(ts: seq<Json<string>>): nat
    decreases ts, 0
  {
    if ts == [] then 0 else Size(ts[0]) + Sizes(ts[1..])
  }

  function KeySizes(keys: seq<string>): nat {
    if keys == [] then 0 else StringJsonLen(keys[0]) + 1 + KeySizes(keys[1..])
  }

  function Nodes<N>(t: Json<N>): nat
    decreases t, 1
  {
    match t
    case Arr(items) => 1 + NodesAll(items)
    case Obj(_, values) => 1 + NodesAll(values)
    case _ => 1
  }

  function NodesAll<N>(ts: seq<Json<N>>): nat
    decreases ts, 0
  {
    if ts == [] then 0 else Nodes(ts[0]) + NodesAll(ts[1..])
  }

  lemma {:induction false} SizesInsert(ts: seq<Json<string>>, i: nat, t: Json<string>)
    requires i <= |ts|
    ensures Sizes(InsertAt(ts, i, t)) == Sizes(ts) + Size(t)
    ensures NodesAll(InsertAt(ts, i, t)) == NodesAll(ts) + Nodes(t)
  {
    var r := InsertAt(ts, i, t);
    if i == 0 {
      assert r[1..] == ts;
    } else {
      assert r[1..] == InsertAt(ts[1..], i - 1, t);
      SizesInsert(ts[1..], i - 1, t);
    }
  }

  lemma {:induction false} KeySizesInsert(keys: seq<string>, i: nat, key: string)
    requires i <= |keys|
    ensures KeySizes(InsertAt(keys, i, key)) == KeySizes(keys) + StringJsonLen(key) + 1
  {
    var r := InsertAt(keys, i, key);
    if i == 0 {
      assert r[1..] == keys;
    } else {
      assert r[1..] == InsertAt(keys[1..], i - 1, key);
      KeySizesInsert(keys[1..], i - 1, key);
    }
  }

  function BytesAll(pieces: seq<string>): nat {
    if pieces == [] then 0 else Bytes(pieces[0]) + BytesAll(pieces[1..])
  }

  lemma {:induction false} JoinBytes(pieces: seq<string>)
    ensures Bytes(Join(pieces)) == BytesAll(pieces) + Commas(|pieces|)
  {
    if |pieces| > 1 {
      JoinBytes(pieces[1..]);
      BytesConcat(pieces[0] + ",", Join(pieces[1..]));
      BytesConcat(pieces[0], ",");
      BytesAscii(",");
    }
  }

  lemma {:induction false} FieldsBytes(keys: seq<string>, texts: seq<string>)
    requires |keys| == |texts|
    ensures BytesAll(Fields(keys, texts)) == KeySizes(keys) + BytesAll(texts)
  {
    if keys != [] {
      hide Quote, StringJsonLen;
      assert Fields(keys, texts)[1..] == Fields(keys[1..], texts[1..]);
      FieldsBytes(keys[1..], texts[1..]);
      BytesConcat(Quote(keys[0]) + ":", texts[0]);
      BytesConcat(Quote(keys[0]), ":");
      BytesAscii(":");
      QuoteBytes(keys[0]);
    }
  }

  lemma BracketBytes(open: string, body: string, close: string)
    requires |open| == 1 && open[0] as int < 0x80 && |close| == 1 && close[0] as int < 0x80
    ensures Bytes(open + body + close) == Bytes(body) + 2
  {
    BytesConcat(open + body, close);
    BytesConcat(open, body);
    BytesAscii(open);
    BytesAscii(close);
  }

  /** The budgeted size is the size of the canonical text. */
  lemma {:induction false} SizeIsPrinted(t: Json<string>)
    requires Shaped(t)
    ensures Shaped(MapNum(t, Canonize)) && Size(t) == Bytes(Print(MapNum(t, Canonize)))
    decreases t, 1
  {
    MapShaped(t, Canonize);
    hide Canonize, StringJsonLen, Quote;
    match t
    case Null => BytesAscii("null");
    case Bool(b) => BytesAscii("true"); BytesAscii("false");
    case Str(s) => QuoteBytes(s);
    case Num(n) =>
    case Arr(items) =>
      SizesArePrinted(items);
      var texts := Texts(MapNums(items, Canonize));
      JoinBytes(texts);
      BracketBytes("[", Join(texts), "]");
    case Obj(keys, values) =>
      SizesArePrinted(values);
      var texts := Texts(MapNums(values, Canonize));
      FieldsBytes(keys, texts);
      JoinBytes(Fields(keys, texts));
      BracketBytes("{", Join(Fields(keys, texts)), "}");
  }

  lemma {:induction false} SizesArePrinted(ts: seq<Json<string>>)
    requires forall i :: 0 <= i < |ts| ==> Shaped(ts[i])
    ensures forall i :: 0 <= i < |ts| ==> Shaped(MapNums(ts, Canonize)[i])
    ensures Sizes(ts) == BytesAll(Texts(MapNums(ts, Canonize)))
    decreases ts, 0
  {
    hide Canonize;
    forall i | 0 <= i < |ts|
      ensures Shaped(MapNums(ts, Canonize)[i])
    {
      MapShaped(ts[i], Canonize);
    }
    if ts != [] {
      SizeIsPrinted(ts[0]);
      SizesArePrinted(ts[1..]);
      var all := MapNums(ts, Canonize);
      assert all[1..] == MapNums(ts[1..], Canonize);
      assert Texts(all) == [Print(all[0])] + Texts(all[1..]);
    }
  }

  /** The budgeted size of a value is the byte length of its comparison form. */
  lemma SizeIsComparisonText(t: Json<string>)
    requires Shaped(t)
    ensures Shaped(Meaning(t)) && Bytes(ComparisonText(Meaning(t))) == Size(t)
  {
    hide DecimalOfToken, ComparisonToken;
    MapShaped(t, DecimalOfToken);
    MapCompose(t, DecimalOfToken, ComparisonToken, Canonize);
    SizeIsPrinted(t);
  }
}
