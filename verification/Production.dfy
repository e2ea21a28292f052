/** Removing test items from masked source: each attribute and its item is blanked in place. */
module Production {
  import opened Wrappers
  import opened Texts
  import opened Mask

  /** Python's \s: Unicode white space and the information separators. */
  predicate Space(c: char) {
    WhiteSpace(c) || 0x1C <= c as int <= 0x1F
  }

  function SkipSpaces(code: string, i: nat): (e: nat)
    requires i <= |code|
    ensures i <= e <= |code|
    decreases |code| - i
  {
    if i < |code| && Space(code[i]) then SkipSpaces(code, i + 1) else i
  }

  const ATTRIBUTE := ["#", "[", "cfg", "(", "test", ")", "]"]

  /** The pieces of the attribute from piece k on, with white space before each. */
  function PiecesEnd(code: string, i: nat, k: nat): (e: Option<nat>)
    requires i <= |code| && k <= 7
    ensures e.Some? ==> i <= e.value <= |code|
    decreases 7 - k
  {
    if k == 7 then Some(i)
    else
      var p := if k == 0 then i else SkipSpaces(code, i);
      if Starts(code, p, ATTRIBUTE[k]) then PiecesEnd(code, p + |ATTRIBUTE[k]|, k + 1) else None
  }

  /** The end of a test attribute at i. */
  function AttributeEnd(code: string, i: nat): (e: Option<nat>)
    requires i <= |code|
    ensures e.Some? ==> i < e.value <= |code| && code[i] == '#'
  {
    if i < |code| && code[i] == '#' then PiecesEnd(code, i + 1, 1) else None
  }

  datatype Span = Span(start: nat, end: nat)

  /** The first test attribute at i or later. */
  function Search(code: string, i: nat): (r: Option<Span>)
    requires i <= |code|
    ensures r.Some? ==> i <= r.value.start < r.value.end <= |code| && code[r.value.start] == '#'
                        && AttributeEnd(code, r.value.start) == Some(r.value.end)
    ensures r.None? ==> forall p :: i <= p < |code| ==> AttributeEnd(code, p).None?
    decreases |code| - i
  {
    if AttributeEnd(code, i).Some? then Some(Span(i, AttributeEnd(code, i).value))
    else if i == |code| then None
    else Search(code, i + 1)
  }

  function Find(code: string, i: nat, c: char): (r: Option<nat>)
    requires i <= |code|
    ensures r.Some? ==> i <= r.value < |code| && code[r.value] == c && forall p :: i <= p < r.value ==> code[p] != c
    ensures r.None? ==> forall p :: i <= p < |code| ==> code[p] != c
    decreases |code| - i
  {
    if i == |code| then None else if code[i] == c then Some(i) else Find(code, i + 1, c)
  }

  // ---- blocks ----

  /** Braces opened minus braces closed. */
  function Balance(code: string, start: nat, e: nat): int
    requires start <= e <= |code|
  {
    if e == start then 0
    else Balance(code, start, e - 1) + if code[e - 1] == '{' then 1 else if code[e - 1] == '}' then -1 else 0
  }

  /** A closing brace before e balances everything since start. */
  predicate Closes(code: string, start: nat, e: nat)
    requires start <= e <= |code|
  {
    e > start && code[e - 1] == '}' && Balance(code, start, e) == 0
  }

  /** The end of the block: the first closing brace that balances the braces since start. */
  method BlockEnd(code: string, start: nat) returns (r: Option<nat>)
    requires start <= |code|
    ensures r.Some? ==> start < r.value <= |code| && Closes(code, start, r.value)
                        && forall e :: start <= e < r.value ==> !Closes(code, start, e)
    ensures r.None? ==> forall e :: start <= e <= |code| ==> !Closes(code, start, e)
    ensures r == BlockEndFrom(code, start, start)
  {
    hide BlockEndFrom;
    var depth := 0;
    BlockEndStep(code, start, start);
    for i := start to |code|
      invariant depth == Balance(code, start, i)
      invariant forall e :: start <= e <= i ==> !Closes(code, start, e)
      invariant BlockEndFrom(code, start, start) == BlockEndFrom(code, start, i)
    {
      BlockEndStep(code, start, i);
      if code[i] == '{' {
        depth := depth + 1;
      } else if code[i] == '}' {
        depth := depth - 1;
        if depth == 0 {
          BlockEndStep(code, start, i + 1);
          return Some(i + 1);
        }
      }
    }
    BlockEndStep(code, start, |code|);
    return None;
  }

  function BlockEndFrom(code: string, start: nat, e: nat): (r: Option<nat>)
    requires start <= e <= |code|
    ensures r.Some? ==> start < r.value <= |code|
    decreases |code| - e
  {
    if Closes(code, start, e) then Some(e) else if e == |code| then None else BlockEndFrom(code, start, e + 1)
  }

  lemma BlockEndStep(code: string, start: nat, e: nat)
    requires start <= e <= |code|
    ensures Closes(code, start, e) ==> BlockEndFrom(code, start, e) == Some(e)
    ensures !Closes(code, start, e) ==>
              BlockEndFrom(code, start, e) == if e == |code| then None else BlockEndFrom(code, start, e + 1)
  {
  }

  /** The end of the item after an attribute: its semicolon, or the end of its block. */
  function ItemEnd(code: string, i: nat): (e: Option<nat>)
    requires i <= |code|
    ensures e.Some? ==> i < e.value <= |code|
  {
    var body, semi := Find(code, i, '{'), Find(code, i, ';');
    if semi.Some? && (body.None? || semi.value < body.value) then Some(semi.value + 1)
    else if body.Some? then BlockEndFrom(code, body.value, body.value)
    else None
  }

  // ---- rewriting ----

  function BlankSpan(code: string, start: nat, e: nat): (r: string)
    requires start <= e <= |code|
    ensures |r| == |code|
    ensures forall p :: 0 <= p < |r| ==> r[p] == if start <= p < e then Blank(code[p]) else code[p]
  {
    code[..start] + Blanked(code[start..e]) + code[e..]
  }

  ghost function HashPlaces(code: string): set<int> {
    set p | 0 <= p < |code| && code[p] == '#'
  }

  lemma BlankSpanShrinks(code: string, start: nat, e: nat)
    requires start < e <= |code| && code[start] == '#'
    ensures HashPlaces(BlankSpan(code, start, e)) < HashPlaces(code)
  {
    assert start in HashPlaces(code) && start !in HashPlaces(BlankSpan(code, start, e));
  }

  /** The code without its test items; none if one of them has no end. */
  function Stripped(code: string): (r: Option<string>)
    ensures r.Some? ==> |r.value| == |code|
    decreases HashPlaces(code)
  {
    match Search(code, 0)
    case None => Some(code)
    case Some(span) =>
      match ItemEnd(code, span.end)
      case None => None
      case Some(e) =>
        BlankSpanShrinks(code, span.start, e);
        Stripped(BlankSpan(code, span.start, e))
  }

  /** Blanks test items until none is left. */
  method ProductionCode(text: string) returns (r: Result<string>)
    ensures r == if Terminated(text, 0) && Stripped(Masked(text)).Some? then Ok(Stripped(Masked(text)).value) else Err(Invalid)
  {
    hide Stripped, Search, ItemEnd, Terminated, Masked;
    var masked := LexicalCode(text);
    if masked.Err? {
      return masked;
    }
    var code := masked.value;
    while true
      invariant Stripped(code) == Stripped(masked.value)
      decreases HashPlaces(code)
    {
      StrippedStep(code);
      var found := Search(code, 0);
      if found.None? {
        return Ok(code);
      }
      var span := found.value;
      var end := ItemEndBy(code, span.end);
      if end.None? {
        return Err(Invalid);
      }
      BlankSpanShrinks(code, span.start, end.value);
      code := BlankSpan(code, span.start, end.value);
    }
  }

  lemma StrippedStep(code: string)
    ensures Search(code, 0).None? ==> Stripped(code) == Some(code)
    ensures Search(code, 0).Some? ==>
              var span := Search(code, 0).value;
              Stripped(code) == match ItemEnd(code, span.end)
                                case None => None
                                case Some(e) => Stripped(BlankSpan(code, span.start, e))
  {
    hide Search, ItemEnd;
  }

  method ItemEndBy(code: string, i: nat) returns (e: Option<nat>)
    requires i <= |code|
    ensures e == ItemEnd(code, i)
  {
    var body, semi := Find(code, i, '{'), Find(code, i, ';');
    if semi.Some? && (body.None? || semi.value < body.value) {
      return Some(semi.value + 1);
    }
    if body.None? {
      return None;
    }
    e := BlockEnd(code, body.value);
  }

  /** Each character is kept or blanked. */
  predicate BlanksOnly(code: string, text: string) {
    |code| == |text| && forall p :: 0 <= p < |text| ==> code[p] == text[p] || code[p] == Blank(text[p])
  }

  /** Stripping moves nothing and leaves no test attribute. */
  lemma {:induction false} StrippedKeepsPlaces(code: string)
    requires Stripped(code).Some?
    ensures BlanksOnly(Stripped(code).value, code)
    ensures Search(Stripped(code).value, 0).None?
    decreases HashPlaces(code)
  {
    hide Search, ItemEnd, BlankSpan;
    var found := Search(code, 0);
    if found.Some? {
      var e := ItemEnd(code, found.value.end).value;
      BlankSpanShrinks(code, found.value.start, e);
      var next := BlankSpan(code, found.value.start, e);
      StrippedKeepsPlaces(next);
      BlanksCompose(Stripped(code).value, next, code);
    }
  }

  lemma BlanksCompose(a: string, b: string, c: string)
    requires BlanksOnly(a, b) && BlanksOnly(b, c)
    ensures BlanksOnly(a, c)
  {
  }

  /** The items that stripping removes, in order; none if one of them has no end. */
  function Items(code: string): Option<seq<Span>>
    decreases HashPlaces(code)
  {
    match Search(code, 0)
    case None => Some([])
    case Some(span) =>
      match ItemEnd(code, span.end)
      case None => None
      case Some(e) =>
        BlankSpanShrinks(code, span.start, e);
        match Items(BlankSpan(code, span.start, e))
        case None => None
        case Some(rest) => Some([Span(span.start, e)] + rest)
  }

  predicate Within(spans: seq<Span>, p: nat) {
    exists k :: 0 <= k < |spans| && spans[k].start <= p < spans[k].end
  }

  /** The code with the given spans blanked and nothing else touched. */
  function Without(code: string, spans: seq<Span>): (r: string)
    ensures |r| == |code|
    ensures forall p :: 0 <= p < |code| ==> r[p] == if Within(spans, p) then Blank(code[p]) else code[p]
  {
    seq(|code|, p requires 0 <= p < |code| => if Within(spans, p) then Blank(code[p]) else code[p])
  }

  /** The first test attribute that is left in the code opens this span, and the end of its item closes it. */
  predicate OpensItem(code: string, span: Span) {
    Search(code, 0).Some? && Search(code, 0).value.start == span.start
    && ItemEnd(code, Search(code, 0).value.end) == Some(span.end)
  }

  lemma WithoutFirst(code: string, first: Span, rest: seq<Span>)
    requires first.start <= first.end <= |code|
    ensures Without(BlankSpan(code, first.start, first.end), rest) == Without(code, [first] + rest)
  {
    forall p | 0 <= p < |code|
      ensures Within([first] + rest, p) <==> first.start <= p < first.end || Within(rest, p)
    {
      WithinFirst(first, rest, p);
    }
  }

  lemma WithinFirst(first: Span, rest: seq<Span>, p: nat)
    ensures Within([first] + rest, p) <==> first.start <= p < first.end || Within(rest, p)
  {
    var spans := [first] + rest;
    if first.start <= p < first.end {
      assert spans[0] == first;
    }
    if Within(rest, p) {
      var k :| 0 <= k < |rest| && rest[k].start <= p < rest[k].end;
      assert spans[k + 1] == rest[k];
    }
  }

  /** Each span opens in the code that the spans before it leave. */
  predicate OpensEach(code: string, spans: seq<Span>) {
    forall k :: 0 <= k < |spans| ==> OpensItem(Without(code, spans[..k]), spans[k])
  }

  lemma OpensMore(code: string, first: Span, rest: seq<Span>)
    requires first.start <= first.end <= |code| && OpensItem(code, first)
    requires OpensEach(BlankSpan(code, first.start, first.end), rest)
    ensures OpensEach(code, [first] + rest)
  {
    hide OpensItem, BlankSpan, Without;
    var spans := [first] + rest;
    forall k | 0 <= k < |spans|
      ensures OpensItem(Without(code, spans[..k]), spans[k])
    {
      if k > 0 {
        WithoutFirst(code, first, rest[..k - 1]);
        assert spans[..k] == [first] + rest[..k - 1];
      } else {
        NothingWithout(code);
        assert spans[..0] == [];
      }
    }
  }

  /** Stripping blanks exactly its items: each runs from the first test attribute left by those before it to the end of
      the attribute's item, and no character outside them changes. */
  lemma {:induction false} StrippedExactly(code: string)
    ensures Stripped(code).Some? <==> Items(code).Some?
    ensures Items(code).Some? ==> Stripped(code).value == Without(code, Items(code).value) && OpensEach(code, Items(code).value)
    decreases HashPlaces(code)
  {
    hide Search, ItemEnd, BlankSpan, Without, OpensEach, Within;
    var found := Search(code, 0);
    if found.None? {
      NothingWithout(code);
    } else if ItemEnd(code, found.value.end).Some? {
      var first := Span(found.value.start, ItemEnd(code, found.value.end).value);
      BlankSpanShrinks(code, first.start, first.end);
      var next := BlankSpan(code, first.start, first.end);
      StrippedExactly(next);
      if Items(next).Some? {
        WithoutFirst(code, first, Items(next).value);
        OpensMore(code, first, Items(next).value);
      }
    }
  }

  lemma NothingWithout(code: string)
    ensures Without(code, []) == code && OpensEach(code, [])
  {
  }

  /** The production code: as long as the source, every newline in its place, no double quote and no test attribute; a
      character is blanked exactly when it stands in a token or in a test item. */
  lemma ProductionKeepsPlaces(text: string)
    requires Terminated(text, 0) && Stripped(Masked(text)).Some?
    ensures var code := Stripped(Masked(text)).value;
            && BlanksOnly(code, text)
            && (forall p :: 0 <= p < |text| ==> (code[p] == '\n' <==> text[p] == '\n'))
            && '"' !in code && Search(code, 0).None?
            && Items(Masked(text)).Some?
            && (forall p :: 0 <= p < |text| ==>
                  code[p] == if InToken(text, 0, p) || Within(Items(Masked(text)).value, p) then Blank(text[p]) else text[p])
  {
    hide Stripped, Search, Terminated, InToken, Items, Within;
    StrippedKeepsPlaces(Masked(text));
    StrippedExactly(Masked(text));
    MaskedKeepsPlaces(text);
    MaskedHasNoQuote(text);
    BlanksCompose(Stripped(Masked(text)).value, Masked(text), text);
  }
}
