/** JSON number tokens (section 6 of RFC 8259) and their exact decimal normal form. */
module Numbers {
  import opened Wrappers

  predicate Digit(c: char) {
    '0' <= c <= '9'
  }

  predicate AllDigits(s: string) {
    forall i :: 0 <= i < |s| ==> Digit(s[i])
  }

  const I64_MIN := -0x8000_0000_0000_0000
  const I64_MAX := 0x7fff_ffff_ffff_ffff

  predicate InI64(x: int) {
    I64_MIN <= x <= I64_MAX
  }

  /** The number a digit string denotes. */
  function DigitsValue(s: string): (v: int)
    requires AllDigits(s)
    ensures 0 <= v
  {
    if s == "" then 0 else DigitsValue(s[..|s| - 1]) * 10 + (s[|s| - 1] as int - '0' as int)
  }

  // ---- tokens ----

  datatype Exponent = Exponent(marker: char, sign: string, digits: string)

  /** The parts of a number token, as the grammar names them. */
  datatype Token = Token(negative: bool, whole: string, fraction: Option<string>, exponent: Option<Exponent>) {

    predicate Valid() {
      && whole != "" && AllDigits(whole) && (|whole| > 1 ==> whole[0] != '0')
      && (fraction.Some? ==> fraction.value != "" && AllDigits(fraction.value))
      && (exponent.Some? ==>
            && (exponent.value.marker == 'e' || exponent.value.marker == 'E')
            && (exponent.value.sign == "" || exponent.value.sign == "+" || exponent.value.sign == "-")
            && exponent.value.digits != "" && AllDigits(exponent.value.digits))
    }

    function Sign(): string {
      if negative then "-" else ""
    }

    function FractionText(): string {
      if fraction.Some? then "." + fraction.value else ""
    }

    function ExponentText(): string {
      if exponent.Some? then [exponent.value.marker] + exponent.value.sign + exponent.value.digits else ""
    }

    function Mantissa(): string {
      whole + FractionText()
    }

    function Body(): string {
      Mantissa() + ExponentText()
    }

    function Spell(): string {
      Sign() + Body()
    }

    function Digits(): string {
      whole + (if fraction.Some? then fraction.value else "")
    }

    function FractionLength(): nat {
      if fraction.Some? then |fraction.value| else 0
    }

    function ExponentValue(): int
      requires Valid()
    {
      if exponent.None? then 0
      else if exponent.value.sign == "-" then -DigitsValue(exponent.value.digits)
      else DigitsValue(exponent.value.digits)
    }

    predicate Integer() {
      fraction.None? && exponent.None?
    }
  }

  function DigitsEnd(raw: string, p: nat): (e: nat)
    requires p <= |raw|
    ensures p <= e <= |raw| && AllDigits(raw[p..e])
    ensures e < |raw| ==> !Digit(raw[e])
    decreases |raw| - p
  {
    if p < |raw| && Digit(raw[p]) then
      var e := DigitsEnd(raw, p + 1);
      assert raw[p..e] == [raw[p]] + raw[p + 1..e];
      e
    else p
  }

  function WholeEnd(raw: string, p: nat): (e: Option<nat>)
    requires p <= |raw|
    ensures e.Some? ==> p < e.value <= |raw| && AllDigits(raw[p..e.value])
  {
    if p == |raw| then None
    else if raw[p] == '0' then
      if p + 1 < |raw| && Digit(raw[p + 1]) then None else Some(p + 1)
    else if Digit(raw[p]) then
      var e := DigitsEnd(raw, p + 1);
      assert raw[p..e] == [raw[p]] + raw[p + 1..e];
      Some(e)
    else None
  }

  function FractionEnd(raw: string, p: nat): (e: Option<nat>)
    requires p <= |raw|
    ensures e.Some? ==> p <= e.value <= |raw|
  {
    if p < |raw| && raw[p] == '.' then
      var e := DigitsEnd(raw, p + 1);
      if e == p + 1 then None else Some(e)
    else Some(p)
  }

  /** Where the exponent digits start, given its marker at p. */
  function ExponentDigits(raw: string, p: nat): (s: nat)
    requires p < |raw|
    ensures p < s <= |raw|
  {
    if p + 1 < |raw| && (raw[p + 1] == '+' || raw[p + 1] == '-') then p + 2 else p + 1
  }

  function ExponentEnd(raw: string, p: nat): (e: Option<nat>)
    requires p <= |raw|
    ensures e.Some? ==> p <= e.value <= |raw|
  {
    if p < |raw| && (raw[p] == 'e' || raw[p] == 'E') then
      var s := ExponentDigits(raw, p);
      var e := DigitsEnd(raw, s);
      if e == s then None else Some(e)
    else Some(p)
  }

  /** Where the parts of a number token end: sign, whole part, fraction, exponent. */
  datatype Ends = Ends(sign: nat, whole: nat, fraction: nat, exponent: nat)

  function TokenEnds(raw: string, start: nat): (r: Option<Ends>)
    requires start <= |raw|
    ensures r.Some? ==> start <= r.value.sign < r.value.whole <= r.value.fraction <= r.value.exponent <= |raw|
  {
    var p := if start < |raw| && raw[start] == '-' then start + 1 else start;
    match WholeEnd(raw, p)
    case None => None
    case Some(w) =>
      match FractionEnd(raw, w)
      case None => None
      case Some(f) =>
        match ExponentEnd(raw, f)
        case None => None
        case Some(x) => Some(Ends(p, w, f, x))
  }

  /** End of the number token at `start`, and whether it is an integer token. */
  function NumberEnd(raw: string, start: nat): (r: Option<(nat, bool)>)
    requires start <= |raw|
    ensures r.Some? ==> start < r.value.0 <= |raw|
  {
    match TokenEnds(raw, start)
    case None => None
    case Some(e) => Some((e.exponent, e.fraction == e.whole && e.exponent == e.fraction))
  }

  /** The longest number token that starts at p, if there is one. */
  function ReadToken(raw: string, start: nat): Option<Token>
    requires start <= |raw|
  {
    match TokenEnds(raw, start)
    case None => None
    case Some(e) =>
      var fraction := if e.fraction == e.whole then None else Some(raw[e.whole + 1..e.fraction]);
      var exponent := ReadExponent(raw, e.fraction, e.exponent);
      Some(Token(start < e.sign, raw[e.sign..e.whole], fraction, exponent))
  }

  function ReadExponent(raw: string, f: nat, x: nat): Option<Exponent>
    requires f <= x <= |raw|
  {
    if x == f then None
    else
      var s := ExponentDigits(raw, f);
      if s <= x then Some(Exponent(raw[f], raw[f + 1..s], raw[s..x])) else None
  }

  lemma Slices(raw: string, a: nat, b: nat, c: nat)
    requires a <= b <= c <= |raw|
    ensures raw[a..b] + raw[b..c] == raw[a..c]
  {
  }

  lemma FractionRead(raw: string, w: nat, f: nat)
    requires w <= f <= |raw| && FractionEnd(raw, w) == Some(f)
    ensures f != w ==> raw[w..f] == "." + raw[w + 1..f] && raw[w + 1..f] != "" && AllDigits(raw[w + 1..f])
  {
    if f != w {
      Slices(raw, w, w + 1, f);
    }
  }

  lemma ExponentRead(raw: string, f: nat, x: nat)
    requires f <= x <= |raw| && ExponentEnd(raw, f) == Some(x) && f != x
    ensures ReadExponent(raw, f, x).Some?
    ensures var e := ReadExponent(raw, f, x).value;
            && raw[f..x] == [e.marker] + e.sign + e.digits
            && (e.marker == 'e' || e.marker == 'E') && (e.sign == "" || e.sign == "+" || e.sign == "-")
            && e.digits != "" && AllDigits(e.digits)
  {
    var s := ExponentDigits(raw, f);
    Slices(raw, f, f + 1, s);
    Slices(raw, f, s, x);
  }

  lemma ReadTokenValid(raw: string, start: nat)
    requires start <= |raw| && ReadToken(raw, start).Some?
    ensures ReadToken(raw, start).value.Valid()
  {
    hide DigitsEnd;
    var e := TokenEnds(raw, start).value;
    FractionRead(raw, e.whole, e.fraction);
    if e.fraction != e.exponent {
      ExponentRead(raw, e.fraction, e.exponent);
    }
  }

  lemma ReadTokenTexts(raw: string, start: nat)
    requires start <= |raw| && ReadToken(raw, start).Some?
    ensures TokenEnds(raw, start).Some?
    ensures var e, t := TokenEnds(raw, start).value, ReadToken(raw, start).value;
            && raw[start..e.sign] == t.Sign() && raw[e.sign..e.whole] == t.whole
            && raw[e.whole..e.fraction] == t.FractionText() && raw[e.fraction..e.exponent] == t.ExponentText()
            && t.Integer() == (e.fraction == e.whole && e.exponent == e.fraction)
  {
    hide DigitsEnd, AllDigits, WholeEnd, FractionEnd, ExponentEnd, ReadExponent;
    var e := TokenEnds(raw, start).value;
    FractionRead(raw, e.whole, e.fraction);
    ExponentTextRead(raw, e.fraction, e.exponent);
  }

  lemma ExponentTextRead(raw: string, f: nat, x: nat)
    requires f <= x <= |raw| && ExponentEnd(raw, f) == Some(x)
    ensures ReadExponent(raw, f, x).Some? <==> f != x
    ensures f != x ==>
              var e := ReadExponent(raw, f, x).value; raw[f..x] == [e.marker] + e.sign + e.digits
  {
    if f != x {
      ExponentRead(raw, f, x);
    }
  }

  /** A token that is read is in the grammar and is the text that was read. */
  lemma ReadTokenSound(raw: string, start: nat)
    requires start <= |raw| && ReadToken(raw, start).Some?
    ensures var t := ReadToken(raw, start).value;
            && t.Valid() && Occurs(raw, start, t.Spell())
            && NumberEnd(raw, start) == Some((start + |t.Spell()|, t.Integer()))
  {
    hide DigitsEnd, AllDigits, ReadExponent, ReadToken, Token.Valid, Token.Integer;
    hide Token.Sign, Token.FractionText, Token.ExponentText;
    ReadTokenValid(raw, start);
    ReadTokenTexts(raw, start);
    var e := TokenEnds(raw, start).value;
    Slices(raw, e.sign, e.whole, e.fraction);
    Slices(raw, e.sign, e.fraction, e.exponent);
    Slices(raw, start, e.sign, e.exponent);
  }

  /** No token that ends at p could be continued there. */
  predicate Stops(raw: string, p: nat)
    requires p <= |raw|
  {
    p == |raw| || !(Digit(raw[p]) || raw[p] == '.' || raw[p] == 'e' || raw[p] == 'E')
  }

  lemma {:induction false} DigitsEndAt(raw: string, p: nat, e: nat)
    requires p <= e <= |raw| && AllDigits(raw[p..e]) && (e < |raw| ==> !Digit(raw[e]))
    ensures DigitsEnd(raw, p) == e
    decreases e - p
  {
    if p < e {
      assert raw[p] == raw[p..e][0];
      assert raw[p + 1..e] == raw[p..e][1..];
      DigitsEndAt(raw, p + 1, e);
    }
  }

  lemma TokenParts(raw: string, start: nat, t: Token)
    requires Occurs(raw, start, t.Spell())
    ensures var p := start + |t.Sign()|;
            var w := p + |t.whole|;
            var f := w + |t.FractionText()|;
            && Occurs(raw, start, t.Sign()) && Occurs(raw, p, t.whole) && Occurs(raw, w, t.FractionText())
            && Occurs(raw, f, t.ExponentText())
  {
    hide Occurs, Token.Sign, Token.FractionText, Token.ExponentText;
    OccursParts(raw, start, t.Sign(), t.Body());
    OccursParts(raw, start + |t.Sign()|, t.Mantissa(), t.ExponentText());
    OccursParts(raw, start + |t.Sign()|, t.whole, t.FractionText());
  }

  lemma SignSpelled(raw: string, start: nat, t: Token)
    requires t.Valid() && Occurs(raw, start, t.Sign()) && Occurs(raw, start + |t.Sign()|, t.whole)
    ensures start < |raw| && raw[start] == '-' <==> t.negative
  {
    hide AllDigits;
    ValidDigits(t);
    if t.negative {
      OccursHead(raw, start, t.Sign());
    } else {
      OccursHead(raw, start, t.whole);
    }
  }

  /** The parts of a spelled token follow each other. */
  lemma PartsSpelled(raw: string, start: nat, t: Token)
    requires t.Valid() && Occurs(raw, start, t.Spell())
    ensures var p := start + |t.Sign()|;
            var w := p + |t.whole|;
            var f := w + |t.FractionText()|;
            var x := f + |t.ExponentText()|;
            && p < w <= f <= x <= |raw| && x == start + |t.Spell()|
            && raw[p..w] == t.whole && raw[w..f] == t.FractionText() && raw[f..x] == t.ExponentText()
  {
    hide AllDigits, Token.Spell, Token.Sign, Token.FractionText, Token.ExponentText;
    EndIsSpelling(start, t);
    TokenParts(raw, start, t);
  }

  lemma FractionHead(raw: string, w: nat, t: Token)
    requires Occurs(raw, w, t.FractionText()) && t.FractionText() != ""
    ensures raw[w] == '.'
  {
    hide Occurs;
    OccursHead(raw, w, t.FractionText());
  }

  lemma ExponentHead(raw: string, f: nat, t: Token)
    requires t.Valid() && Occurs(raw, f, t.ExponentText()) && t.ExponentText() != ""
    ensures raw[f] == 'e' || raw[f] == 'E'
  {
    hide Occurs, AllDigits;
    OccursHead(raw, f, t.ExponentText());
  }

  lemma EndStops(raw: string, x: nat)
    requires x <= |raw| && Stops(raw, x)
    ensures x < |raw| ==> !Digit(raw[x]) && raw[x] != '.' && raw[x] != 'e' && raw[x] != 'E'
  {
  }

  /** What stands where the parts of a spelled token meet. */
  lemma SpelledHeads(raw: string, start: nat, t: Token)
    requires t.Valid() && Occurs(raw, start, t.Spell()) && Stops(raw, start + |t.Spell()|)
    ensures var p := start + |t.Sign()|;
            var w := p + |t.whole|;
            var f := w + |t.FractionText()|;
            var x := f + |t.ExponentText()|;
            && p < w <= f <= x <= |raw|
            && (start < |raw| && raw[start] == '-' <==> t.negative)
            && raw[p..w] == t.whole && raw[w..f] == t.FractionText() && raw[f..x] == t.ExponentText()
            && (x < |raw| ==> !Digit(raw[x]) && raw[x] != '.' && raw[x] != 'e' && raw[x] != 'E')
            && (f < x ==> raw[f] == 'e' || raw[f] == 'E')
            && (w < f ==> raw[w] == '.')
  {
    hide AllDigits, Digit, Stops, Occurs, Token.Spell, Token.Valid, Token.Sign, Token.FractionText, Token.ExponentText;
    PartsSpelled(raw, start, t);
    TokenParts(raw, start, t);
    SignSpelled(raw, start, t);
    var w := start + |t.Sign()| + |t.whole|;
    EndStops(raw, start + |t.Spell()|);
    if t.FractionText() != "" {
      FractionHead(raw, w, t);
    }
    if t.ExponentText() != "" {
      ExponentHead(raw, w + |t.FractionText()|, t);
    }
  }

  lemma EndsSpelled(raw: string, start: nat, t: Token)
    requires t.Valid() && Occurs(raw, start, t.Spell()) && Stops(raw, start + |t.Spell()|)
    ensures var p := start + |t.Sign()|;
            var w := p + |t.whole|;
            var f := w + |t.FractionText()|;
            var x := f + |t.ExponentText()|;
            && TokenEnds(raw, start) == Some(Ends(p, w, f, x))
            && raw[p..w] == t.whole
            && (f == w <==> t.fraction.None?) && (f != w ==> t.fraction == Some(raw[w + 1..f]))
            && ReadExponent(raw, f, x) == t.exponent
  {
    hide AllDigits, DigitsEnd, WholeEnd, FractionEnd, ExponentEnd, ReadExponent, Occurs, Stops, Token.Valid;
    hide Token.Spell, Token.ExponentText;
    SpelledHeads(raw, start, t);
    var p := start + |t.Sign()|;
    var w := p + |t.whole|;
    var f := w + |t.FractionText()|;
    var x := f + |t.ExponentText()|;
    WholeSpelled(raw, p, w, t);
    FractionSpelled(raw, w, f, t);
    ExponentSpelled(raw, f, x, t);
  }

  /** The grammar is unambiguous: a spelled token that cannot be continued is read back. */
  lemma ReadsSpelled(raw: string, start: nat, t: Token)
    requires t.Valid() && Occurs(raw, start, t.Spell()) && Stops(raw, start + |t.Spell()|)
    ensures ReadToken(raw, start) == Some(t)
    ensures NumberEnd(raw, start) == Some((start + |t.Spell()|, t.Integer()))
  {
    hide TokenEnds, ReadExponent, Occurs, Stops, Token.Valid, Token.Spell, Token.FractionText, Token.ExponentText;
    EndsSpelled(raw, start, t);
    EndIsSpelling(start, t);
  }

  lemma EndIsSpelling(start: nat, t: Token)
    ensures start + |t.Sign()| + |t.whole| + |t.FractionText()| + |t.ExponentText()| == start + |t.Spell()|
    ensures t.exponent.None? <==> t.ExponentText() == ""
  {
  }

  lemma WholeSpelled(raw: string, p: nat, w: nat, t: Token)
    requires t.Valid() && p < w <= |raw| && raw[p..w] == t.whole && (w < |raw| ==> !Digit(raw[w]))
    ensures WholeEnd(raw, p) == Some(w)
  {
    assert raw[p] == t.whole[0];
    if raw[p] == '0' {
      assert w == p + 1;
    } else {
      assert raw[p + 1..w] == t.whole[1..];
      DigitsEndAt(raw, p + 1, w);
    }
  }

  lemma FractionSpelled(raw: string, w: nat, f: nat, t: Token)
    requires t.Valid() && w <= f <= |raw| && raw[w..f] == t.FractionText()
    requires f < |raw| ==> !Digit(raw[f]) && raw[f] != '.'
    ensures FractionEnd(raw, w) == Some(f)
    ensures f != w ==> t.fraction == Some(raw[w + 1..f])
  {
    if t.fraction.Some? {
      assert raw[w] == raw[w..f][0];
      assert raw[w + 1..f] == raw[w..f][1..] == t.fraction.value;
      DigitsEndAt(raw, w + 1, f);
    }
  }

  lemma ExponentSpelled(raw: string, f: nat, x: nat, t: Token)
    requires t.Valid() && f <= x <= |raw| && raw[f..x] == t.ExponentText()
    requires x < |raw| ==> !Digit(raw[x]) && raw[x] != 'e' && raw[x] != 'E'
    ensures ExponentEnd(raw, f) == Some(x)
    ensures ReadExponent(raw, f, x) == t.exponent
  {
    if t.exponent.Some? {
      var e := t.exponent.value;
      var text := raw[f..x];
      var s := f + 1 + |e.sign|;
      assert raw[f] == text[0] == e.marker;
      assert raw[f + 1] == text[1];
      assert raw[f + 1..s] == text[1..1 + |e.sign|] == e.sign;
      assert raw[s..x] == text[1 + |e.sign|..] == e.digits;
      assert e.sign == "" ==> Digit(text[1]);
      assert s == ExponentDigits(raw, f);
      DigitsEndAt(raw, s, x);
    }
  }

  method ReviewedNumberEnd(raw: string, start: nat) returns (r: Option<(nat, bool)>)
    requires start <= |raw|
    ensures r == NumberEnd(raw, start)
  {
    hide AllDigits, DigitsEnd, WholeEnd;
    var p := start;
    if p < |raw| && raw[p] == '-' {
      p := p + 1;
    }
    var whole := ReadWhole(raw, p);
    if whole.None? {
      return None;
    }
    p := whole.value;
    var integer := true;
    if p < |raw| && raw[p] == '.' {
      integer := false;
      p := p + 1;
      var first := p;
      p := SkipDigits(raw, p);
      if p == first {
        return None;
      }
    }
    ghost var fraction := p;
    assert FractionEnd(raw, whole.value) == Some(fraction);
    if p < |raw| && (raw[p] == 'e' || raw[p] == 'E') {
      integer := false;
      p := p + 1;
      if p < |raw| && (raw[p] == '+' || raw[p] == '-') {
        p := p + 1;
      }
      var first := p;
      p := SkipDigits(raw, p);
      if p == first {
        return None;
      }
    }
    assert ExponentEnd(raw, fraction) == Some(p);
    return Some((p, integer));
  }

  method ReadWhole(raw: string, start: nat) returns (r: Option<nat>)
    requires start <= |raw|
    ensures r == WholeEnd(raw, start)
  {
    var p := start;
    if p < |raw| && raw[p] == '0' {
      p := p + 1;
      if p < |raw| && Digit(raw[p]) {
        return None;
      }
    } else if p < |raw| && '1' <= raw[p] <= '9' {
      p := SkipDigits(raw, p + 1);
    } else {
      return None;
    }
    return Some(p);
  }

  method SkipDigits(raw: string, start: nat) returns (p: nat)
    requires start <= |raw|
    ensures p == DigitsEnd(raw, start)
  {
    p := start;
    while p < |raw| && Digit(raw[p])
      invariant start <= p <= |raw|
      invariant DigitsEnd(raw, p) == DigitsEnd(raw, start)
    {
      p := p + 1;
    }
  }

  // ---- decimals ----

  /** coefficient * 10^exponent with a sign; the coefficient is digits without outer zeros. */
  datatype Decimal = Decimal(negative: bool, coefficient: string, exponent: int)

  const ZERO := Decimal(false, "0", 0)

  predicate Canonical(d: Decimal) {
    || d == ZERO
    || (&& d.coefficient != "" && AllDigits(d.coefficient)
        && d.coefficient[0] != '0' && d.coefficient[|d.coefficient| - 1] != '0'
        && InI64(d.exponent))
  }

  function IndexOf(s: string, marks: set<char>): (i: nat)
    ensures i <= |s| && (i < |s| ==> s[i] in marks)
    ensures forall j :: 0 <= j < i ==> s[j] !in marks
  {
    if s == "" || s[0] in marks then 0 else IndexOf(s[1..], marks) + 1
  }

  function Without(s: string, c: char): string {
    if s == "" then "" else (if s[0] == c then "" else [s[0]]) + Without(s[1..], c)
  }

  function TrimStart(s: string): (r: string)
    ensures |r| <= |s|
    ensures r != "" ==> r[0] != '0'
  {
    if s != "" && s[0] == '0' then TrimStart(s[1..]) else s
  }

  lemma {:induction false} TrimStartCuts(s: string)
    ensures TrimStart(s) == s[|s| - |TrimStart(s)|..]
    ensures forall i :: 0 <= i < |s| - |TrimStart(s)| ==> s[i] == '0'
  {
    if s != "" && s[0] == '0' {
      TrimStartCuts(s[1..]);
    }
  }

  function TrimEnd(s: string): (r: string)
    ensures |r| <= |s| && r == s[..|r|]
    ensures forall i :: |r| <= i < |s| ==> s[i] == '0'
    ensures r != "" ==> r[|r| - 1] != '0'
  {
    if s != "" && s[|s| - 1] == '0' then TrimEnd(s[..|s| - 1]) else s
  }

  /** Rust's `str::parse::<i64>`. */
  function ParseI64(s: string): Option<int> {
    var negative := s != "" && s[0] == '-';
    var body := if s != "" && (s[0] == '-' || s[0] == '+') then s[1..] else s;
    if body == "" || !AllDigits(body) then None
    else
      var v := if negative then -DigitsValue(body) else DigitsValue(body);
      if InI64(v) then Some(v) else None
  }

  function ReviewedDecimal(raw: string): Result<Decimal> {
    if NumberEnd(raw, 0).None? || NumberEnd(raw, 0).value.0 != |raw| then Err(Invalid)
    else
      var negative := raw[0] == '-';
      BodyDecimal(negative, if negative then raw[1..] else raw)
  }

  function BodyDecimal(negative: bool, body: string): Result<Decimal> {
    var cut := IndexOf(body, {'e', 'E'});
    var exponent := if cut < |body| then ParseI64(body[cut + 1..]) else Some(0);
    if exponent.None? then Err(Invalid) else MantissaDecimal(negative, body[..cut], exponent.value)
  }

  function MantissaDecimal(negative: bool, mantissa: string, exponent: int): Result<Decimal> {
    var dot := IndexOf(mantissa, {'.'});
    var fraction := if dot < |mantissa| then |mantissa| - dot - 1 else 0;
    Normalize(negative, Without(mantissa, '.'), exponent, fraction)
  }

  /** The checked subtraction, the zero rule and the checked addition, in the source's order. */
  function Normalize(negative: bool, all: string, exponent: int, fraction: nat): Result<Decimal> {
    if InI64(exponent - fraction) then Trimmed(negative, TrimStart(all), exponent - fraction) else Err(Invalid)
  }

  function Trimmed(negative: bool, digits: string, exponent: int): Result<Decimal> {
    if digits == "" then Ok(ZERO)
    else
      var coefficient := TrimEnd(digits);
      var shifted := exponent + (|digits| - |coefficient|);
      if InI64(shifted) then Ok(Decimal(negative, coefficient, shifted)) else Err(Invalid)
  }

  /** What the normal form of a token is, said on its grammatical parts. */
  function DecimalOf(t: Token): Result<Decimal>
    requires t.Valid()
  {
    if !InI64(t.ExponentValue()) then Err(Invalid)
    else Normalize(t.negative, t.Digits(), t.ExponentValue(), t.FractionLength())
  }

  lemma IndexOfAt(s: string, marks: set<char>, i: nat)
    requires i <= |s| && (i < |s| ==> s[i] in marks)
    requires forall j :: 0 <= j < i ==> s[j] !in marks
    ensures IndexOf(s, marks) == i
  {
    var k := IndexOf(s, marks);
    assert !(i < k <= |s|);
  }

  lemma {:induction false} WithoutConcat(a: string, b: string, c: char)
    ensures Without(a + b, c) == Without(a, c) + Without(b, c)
  {
    if a == "" {
      assert a + b == b;
    } else {
      assert (a + b)[1..] == a[1..] + b;
      WithoutConcat(a[1..], b, c);
    }
  }

  lemma {:induction false} WithoutDigits(s: string)
    requires AllDigits(s)
    ensures Without(s, '.') == s
  {
    if s != "" {
      WithoutDigits(s[1..]);
    }
  }

  /** The string surgery of the source computes the normal form of the token it spells. */
  lemma DecimalOfSpelled(t: Token)
    requires t.Valid()
    ensures ReviewedDecimal(t.Spell()) == DecimalOf(t)
  {
    hide ReadToken, NumberEnd, BodyDecimal, DecimalOf, Token.Spell, Token.Valid, AllDigits;
    var raw := t.Spell();
    assert raw[0..|raw|] == raw;
    ReadsSpelled(raw, 0, t);
    SpelledBody(t);
    BodyOfSpelled(t);
  }

  lemma SpelledBody(t: Token)
    requires t.Valid()
    ensures t.Spell() != "" && (t.Spell()[0] == '-' <==> t.negative)
    ensures t.Body() == if t.negative then t.Spell()[1..] else t.Spell()
  {
    ValidDigits(t);
    assert t.Body()[0] == t.whole[0];
  }

  lemma BodyOfSpelled(t: Token)
    requires t.Valid()
    ensures BodyDecimal(t.negative, t.Body()) == DecimalOf(t)
  {
    hide IndexOf, ParseI64, Normalize, MantissaDecimal, Token.Mantissa, AllDigits, DigitsValue;
    MantissaCut(t);
    BodyCut(t);
    if t.exponent.Some? {
      ExponentParsed(t.exponent.value);
    }
    MantissaOfSpelled(t);
  }

  lemma BodyCut(t: Token)
    ensures t.Body()[..|t.Mantissa()|] == t.Mantissa()
    ensures t.exponent.None? <==> |t.Mantissa()| == |t.Body()|
    ensures t.exponent.Some? ==> t.Body()[|t.Mantissa()| + 1..] == t.exponent.value.sign + t.exponent.value.digits
  {
  }

  lemma MantissaOfSpelled(t: Token)
    requires t.Valid()
    ensures MantissaDecimal(t.negative, t.Mantissa(), t.ExponentValue())
         == Normalize(t.negative, t.Digits(), t.ExponentValue(), t.FractionLength())
  {
    hide Normalize, Without, IndexOf, AllDigits, DigitsValue;
    MantissaDigits(t);
  }

  lemma MantissaCut(t: Token)
    requires t.Valid()
    ensures IndexOf(t.Body(), {'e', 'E'}) == |t.Mantissa()|
  {
    var mantissa := t.Mantissa();
    assert forall j :: 0 <= j < |mantissa| ==> Digit(mantissa[j]) || mantissa[j] == '.';
    IndexOfAt(t.Body(), {'e', 'E'}, |mantissa|);
  }

  lemma MantissaDigits(t: Token)
    requires t.Valid()
    ensures IndexOf(t.Mantissa(), {'.'}) == |t.whole|
    ensures Without(t.Mantissa(), '.') == t.Digits()
  {
    IndexOfAt(t.Mantissa(), {'.'}, |t.whole|);
    WithoutConcat(t.whole, t.FractionText(), '.');
    WithoutDigits(t.whole);
    if t.fraction.Some? {
      FractionDigits(t.fraction.value);
    }
  }

  lemma FractionDigits(f: string)
    requires AllDigits(f)
    ensures Without("." + f, '.') == f
  {
    assert ("." + f)[1..] == f;
    WithoutDigits(f);
  }

  lemma ExponentParsed(e: Exponent)
    requires e.sign == "" || e.sign == "+" || e.sign == "-"
    requires e.digits != "" && AllDigits(e.digits)
    ensures var v := if e.sign == "-" then -DigitsValue(e.digits) else DigitsValue(e.digits);
            ParseI64(e.sign + e.digits) == if InI64(v) then Some(v) else None
  {
    var s := e.sign + e.digits;
    assert s[|e.sign|..] == e.digits;
  }

  /** Every accepted text is a token of the grammar. */
  lemma DecimalToken(raw: string) returns (t: Token)
    requires ReviewedDecimal(raw).Ok?
    ensures t.Valid() && t.Spell() == raw && ReadToken(raw, 0) == Some(t)
    ensures ReviewedDecimal(raw) == DecimalOf(t)
  {
    t := ReadToken(raw, 0).value;
    ReadTokenSound(raw, 0);
    assert raw[0..|raw|] == raw;
    DecimalOfSpelled(t);
  }

  // ---- meaning ----

  /** x * 10^e. */
  function Scale(x: real, e: int): real
    decreases if e < 0 then -e else e
  {
    if e == 0 then x else if e > 0 then 10.0 * Scale(x, e - 1) else Scale(x, e + 1) / 10.0
  }

  lemma {:induction false} ScaleStep(x: real, e: int)
    ensures Scale(x, e + 1) == 10.0 * Scale(x, e)
  {
  }

  lemma {:induction false} ScaleAdd(x: real, a: nat, b: int)
    ensures Scale(Scale(x, a), b) == Scale(x, a + b)
    decreases if b < 0 then -b else b
  {
    if b > 0 {
      ScaleAdd(x, a, b - 1);
      ScaleStep(x, a + (b - 1));
    } else if b < 0 {
      ScaleAdd(x, a, b + 1);
      ScaleStep(x, a + b);
    }
  }

  lemma {:induction false} ScaleOrder(x: real, y: real, e: int)
    ensures x < y <==> Scale(x, e) < Scale(y, e)
    ensures Scale(0.0, e) == 0.0
    decreases if e < 0 then -e else e
  {
    if e > 0 {
      ScaleOrder(x, y, e - 1);
    } else if e < 0 {
      ScaleOrder(x, y, e + 1);
    }
  }

  function Signed(negative: bool, magnitude: real): real {
    if negative then -magnitude else magnitude
  }

  /** The rational a token denotes, from the grammar alone. */
  function TokenValue(t: Token): real
    requires t.Valid()
  {
    Signed(t.negative, Scale(DigitsValue(t.Digits()) as real, t.ExponentValue() - t.FractionLength()))
  }

  function Rational(d: Decimal): real
    requires Canonical(d)
  {
    Signed(d.negative, Scale(DigitsValue(d.coefficient) as real, d.exponent))
  }

  lemma {:induction false} LeadingZeros(s: string, r: string)
    requires AllDigits(s) && |r| <= |s| && r == s[|s| - |r|..]
    requires forall i :: 0 <= i < |s| - |r| ==> s[i] == '0'
    ensures AllDigits(r) && DigitsValue(s) == DigitsValue(r)
    decreases |r|
  {
    assert forall i :: 0 <= i < |r| ==> r[i] == s[|s| - |r| + i];
    if r == "" {
      ZerosValue(s);
    } else {
      assert r[..|r| - 1] == s[..|s| - 1][|s| - |r|..];
      LeadingZeros(s[..|s| - 1], r[..|r| - 1]);
    }
  }

  lemma {:induction false} ZerosValue(s: string)
    requires AllDigits(s) && forall i :: 0 <= i < |s| ==> s[i] == '0'
    ensures DigitsValue(s) == 0
  {
    if s != "" {
      ZerosValue(s[..|s| - 1]);
    }
  }

  lemma {:induction false} TrailingZeros(s: string, r: string)
    requires AllDigits(s) && |r| <= |s| && r == s[..|r|]
    requires forall i :: |r| <= i < |s| ==> s[i] == '0'
    ensures AllDigits(r) && DigitsValue(s) as real == Scale(DigitsValue(r) as real, |s| - |r|)
    decreases |s|
  {
    if |r| == |s| {
      assert r == s;
    } else {
      var shorter := s[..|s| - 1];
      assert r == shorter[..|r|];
      TrailingZeros(shorter, r);
    }
  }

  lemma {:induction false} PositiveValue(s: string)
    requires AllDigits(s) && s != "" && s[0] != '0'
    ensures DigitsValue(s) > 0
  {
    if |s| > 1 {
      PositiveValue(s[..|s| - 1]);
    }
  }

  lemma TrimmedMeaning(negative: bool, digits: string, base: int)
    requires AllDigits(digits) && (digits != "" ==> digits[0] != '0')
    requires Trimmed(negative, digits, base).Ok?
    ensures var d := Trimmed(negative, digits, base).value;
            Canonical(d) && Rational(d) == Signed(negative, Scale(DigitsValue(digits) as real, base))
  {
    if digits == "" {
      ZeroMeaning(negative, base);
    } else {
      var coefficient := TrimEnd(digits);
      assert coefficient != "" by {
        assert digits[0] != '0';
      }
      assert coefficient[0] == digits[0];
      TrailingZeros(digits, coefficient);
      ScaleAdd(DigitsValue(coefficient) as real, |digits| - |coefficient|, base);
    }
  }

  lemma NormalizeMeaning(negative: bool, all: string, exponent: int, fraction: nat)
    requires AllDigits(all) && Normalize(negative, all, exponent, fraction).Ok?
    ensures var d := Normalize(negative, all, exponent, fraction).value;
            && Canonical(d)
            && Rational(d) == Signed(negative, Scale(DigitsValue(all) as real, exponent - fraction))
  {
    hide AllDigits, DigitsValue, Scale, Trimmed, Canonical, Rational, Signed;
    TrimStartCuts(all);
    LeadingZeros(all, TrimStart(all));
    TrimmedMeaning(negative, TrimStart(all), exponent - fraction);
  }

  lemma ZeroMeaning(negative: bool, e: int)
    ensures AllDigits("") && Canonical(ZERO) && Rational(ZERO) == Signed(negative, Scale(DigitsValue("") as real, e))
  {
    assert DigitsValue("0") == 0;
    ScaleOrder(0.0, 0.0, e);
  }

  lemma ValidDigits(t: Token)
    requires t.Valid()
    ensures AllDigits(t.Digits()) && Digit(t.whole[0])
  {
  }

  /** An accepted token and its normal form denote the same rational, and the form is canonical. */
  lemma DecimalMeaning(t: Token)
    requires t.Valid() && DecimalOf(t).Ok?
    ensures Canonical(DecimalOf(t).value)
    ensures Rational(DecimalOf(t).value) == TokenValue(t)
  {
    hide Normalize, Canonical, AllDigits, Rational, Token.ExponentValue, Scale, Token.Valid, Token.Digits, DigitsValue;
    ValidDigits(t);
    NormalizeMeaning(t.negative, t.Digits(), t.ExponentValue(), t.FractionLength());
  }

  lemma {:induction false} DigitsInjective(a: string, b: string)
    requires AllDigits(a) && a != "" && a[0] != '0'
    requires AllDigits(b) && b != "" && b[0] != '0'
    requires DigitsValue(a) == DigitsValue(b)
    ensures a == b
  {
    var a', b' := a[..|a| - 1], b[..|b| - 1];
    assert a == a' + [a[|a| - 1]] && b == b' + [b[|b| - 1]];
    assert DigitsValue(a') == DigitsValue(b') && a[|a| - 1] == b[|b| - 1];
    if a' != "" {
      PositiveValue(a');
    }
    if b' != "" {
      PositiveValue(b');
    }
    if a' != "" && b' != "" {
      DigitsInjective(a', b');
    }
  }

  lemma LastDigit(s: string)
    requires AllDigits(s) && s != "" && s[|s| - 1] != '0'
    ensures DigitsValue(s) % 10 != 0
  {
  }

  lemma {:induction false} ScaledNat(m: nat, k: nat) returns (n: nat)
    ensures Scale(m as real, k) == n as real
    ensures if k == 0 then n == m else n % 10 == 0
  {
    if k == 0 {
      n := m;
    } else {
      var before := ScaledNat(m, k - 1);
      n := 10 * before;
    }
  }

  /** A non-multiple of ten fixes both factors of m * 10^e. */
  lemma ScaledUnique(m: nat, n: nat, e: int, f: int)
    requires m % 10 != 0 && n % 10 != 0 && e >= f
    requires Scale(m as real, e) == Scale(n as real, f)
    ensures m == n && e == f
  {
    ScaleAdd(m as real, e - f, f);
    var scaled := ScaledNat(m, e - f);
    ScaleOrder(scaled as real, n as real, f);
    ScaleOrder(n as real, scaled as real, f);
  }

  /** Canonical decimals denote the same rational exactly when they are equal. */
  lemma CanonicalUnique(a: Decimal, b: Decimal)
    requires Canonical(a) && Canonical(b)
    ensures Rational(a) == Rational(b) <==> a == b
  {
    if Rational(a) == Rational(b) {
      Magnitude(a);
      Magnitude(b);
      if a != ZERO && b != ZERO {
        assert a.negative == b.negative;
        if a.exponent >= b.exponent {
          SameSize(a, b);
        } else {
          SameSize(b, a);
        }
      }
    }
  }

  lemma SameSize(a: Decimal, b: Decimal)
    requires Canonical(a) && Canonical(b) && a != ZERO && b != ZERO && a.exponent >= b.exponent
    requires a.negative == b.negative && Rational(a) == Rational(b)
    ensures a == b
  {
    Magnitude(a);
    Magnitude(b);
    ScaledUnique(DigitsValue(a.coefficient), DigitsValue(b.coefficient), a.exponent, b.exponent);
    DigitsInjective(a.coefficient, b.coefficient);
  }

  lemma Magnitude(d: Decimal)
    requires Canonical(d)
    ensures d == ZERO ==> Rational(d) == 0.0
    ensures d != ZERO ==> d.coefficient != "0"
    ensures d != ZERO && d.negative ==> Rational(d) < 0.0
    ensures d != ZERO && !d.negative ==> Rational(d) > 0.0
    ensures d != ZERO ==> DigitsValue(d.coefficient) % 10 != 0
  {
    if d != ZERO {
      PositiveValue(d.coefficient);
      LastDigit(d.coefficient);
      ScaleOrder(0.0, DigitsValue(d.coefficient) as real, d.exponent);
    } else {
      assert DigitsValue("0") == 0;
    }
  }

  /** Two accepted tokens have one normal form exactly when they denote one rational. */
  lemma SameDecimalSameRational(a: string, b: string)
    requires ReviewedDecimal(a).Ok? && ReviewedDecimal(b).Ok?
    ensures ReadToken(a, 0).Some? && ReadToken(a, 0).value.Valid()
    ensures ReadToken(b, 0).Some? && ReadToken(b, 0).value.Valid()
    ensures ReviewedDecimal(a) == ReviewedDecimal(b) <==>
            TokenValue(ReadToken(a, 0).value) == TokenValue(ReadToken(b, 0).value)
  {
    hide ReviewedDecimal, ReadToken, DecimalOf, TokenValue, Rational, Canonical;
    var s := DecimalToken(a);
    var t := DecimalToken(b);
    DecimalMeaning(s);
    DecimalMeaning(t);
    CanonicalUnique(DecimalOf(s).value, DecimalOf(t).value);
  }

  // ---- the comparison token ----

  function IntText(n: nat): (s: string)
    ensures s != "" && AllDigits(s) && DigitsValue(s) == n
    ensures n > 0 ==> s[0] != '0'
    ensures |s| > 1 ==> s[0] != '0'
  {
    var last := [('0' as int + n % 10) as char];
    if n < 10 then last
    else
      var front := IntText(n / 10);
      var s := front + last;
      assert s[..|s| - 1] == front;
      s
  }

  function SignedText(x: int): string {
    if x < 0 then "-" + IntText(-x) else IntText(x)
  }

  function ComparisonToken(d: Decimal): string {
    var sign := if d.negative then "-" else "";
    if d.coefficient == "0" then "0"
    else if d.exponent == 0 then sign + d.coefficient
    else sign + d.coefficient + "e" + SignedText(d.exponent)
  }

  function TokenFor(d: Decimal): Token {
    if d.exponent == 0 || d.coefficient == "0" then Token(d.negative, d.coefficient, None, None)
    else
      var sign := if d.exponent < 0 then "-" else "";
      var size := if d.exponent < 0 then -d.exponent else d.exponent;
      Token(d.negative, d.coefficient, None, Some(Exponent('e', sign, IntText(size))))
  }

  lemma TokenForValid(d: Decimal)
    requires Canonical(d)
    ensures TokenFor(d).Valid()
  {
    Magnitude(d);
  }

  lemma TokenForSpells(d: Decimal)
    requires Canonical(d)
    ensures TokenFor(d).Spell() == ComparisonToken(d)
  {
    hide Canonical, IntText, Rational, Token.Spell;
    if d == ZERO || d.exponent == 0 {
      PlainSpelling(d.negative, d.coefficient);
      ZeroSign(d);
    } else {
      Magnitude(d);
      var size := if d.exponent < 0 then -d.exponent else d.exponent;
      ExponentSpelling(d.negative, d.coefficient, if d.exponent < 0 then "-" else "", IntText(size));
    }
  }

  lemma ZeroSign(d: Decimal)
    requires Canonical(d)
    ensures d.coefficient == "0" <==> d == ZERO
    ensures (if d.negative then "-" else "") + "0" == "0" || d != ZERO
  {
    Magnitude(d);
  }

  lemma PlainSpelling(negative: bool, coefficient: string)
    ensures Token(negative, coefficient, None, None).Spell() == (if negative then "-" else "") + coefficient
  {
    var t := Token(negative, coefficient, None, None);
    assert t.Mantissa() == coefficient && t.Body() == coefficient;
  }

  lemma ExponentSpelling(negative: bool, coefficient: string, sign: string, digits: string)
    ensures Token(negative, coefficient, None, Some(Exponent('e', sign, digits))).Spell()
         == (if negative then "-" else "") + coefficient + "e" + (sign + digits)
  {
    var t := Token(negative, coefficient, None, Some(Exponent('e', sign, digits)));
    assert t.Mantissa() == coefficient;
    assert t.ExponentText() == "e" + (sign + digits);
  }

  lemma TokenForDenotes(d: Decimal)
    requires Canonical(d)
    ensures TokenFor(d).Valid() && DecimalOf(TokenFor(d)) == Ok(d)
  {
    var t := TokenFor(d);
    TokenForValid(d);
    assert t.Digits() == d.coefficient;
    Magnitude(d);
    if d == ZERO {
      assert TrimStart("0") == TrimStart("0"[1..]) == "";
    } else {
      assert t.ExponentValue() == d.exponent;
    }
  }

  /** Normalising the comparison token of a canonical decimal gives that decimal back. */
  lemma ComparisonTokenRoundTrip(d: Decimal)
    requires Canonical(d)
    ensures ReviewedDecimal(ComparisonToken(d)) == Ok(d)
  {
    TokenForValid(d);
    TokenForSpells(d);
    TokenForDenotes(d);
    DecimalOfSpelled(TokenFor(d));
  }

  lemma DecimalCanonical(raw: string)
    requires ReviewedDecimal(raw).Ok?
    ensures Canonical(ReviewedDecimal(raw).value)
  {
    var t := DecimalToken(raw);
    DecimalMeaning(t);
  }
}
