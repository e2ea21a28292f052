/** Masking source text in place: comments, strings and characters become blanks, and nothing moves. */
module Mask {
  import opened Wrappers

  function Blank(c: char): char {
    if c == '\n' then '\n' else ' '
  }

  function Blanked(s: string): (r: string)
    ensures |r| == |s| && forall i :: 0 <= i < |r| ==> r[i] == Blank(s[i])
  {
    seq(|s|, i requires 0 <= i < |s| => Blank(s[i]))
  }

  predicate Starts(text: string, i: nat, token: string) {
    i + |token| <= |text| && text[i..i + |token|] == token
  }

  // ---- tokens ----

  /** The next newline, or the end. */
  function LineEnd(text: string, i: nat): (e: nat)
    requires i <= |text|
    ensures i <= e <= |text|
    decreases |text| - i
  {
    if i == |text| || text[i] == '\n' then i else LineEnd(text, i + 1)
  }

  /** The end of a block comment of which `depth` levels are open. */
  function CommentEnd(text: string, i: nat, depth: nat): (e: Option<nat>)
    requires i <= |text|
    ensures e.Some? ==> i <= e.value <= |text|
    decreases |text| - i
  {
    if depth == 0 then Some(i)
    else if i == |text| then None
    else if Starts(text, i, "/*") then CommentEnd(text, i + 2, depth + 1)
    else if Starts(text, i, "*/") then CommentEnd(text, i + 2, depth - 1)
    else CommentEnd(text, i + 1, depth)
  }

  /** How many hash signs stand at i. */
  function Hashes(text: string, i: nat): (n: nat)
    requires i <= |text|
    ensures i + n <= |text| && forall j :: i <= j < i + n ==> text[j] == '#'
    ensures i + n < |text| ==> text[i + n] != '#'
    decreases |text| - i
  {
    if i < |text| && text[i] == '#' then 1 + Hashes(text, i + 1) else 0
  }

  /** Where the hash signs of a raw string would start. */
  function RawPrefix(text: string, i: nat): (p: Option<nat>)
    requires i <= |text|
    ensures p.Some? ==> i < p.value <= |text|
  {
    if Starts(text, i, "br") || Starts(text, i, "cr") then Some(i + 2)
    else if Starts(text, i, "r") then Some(i + 1)
    else None
  }

  /** A raw string starts at i: its number of hash signs. */
  function RawStart(text: string, i: nat): (h: Option<nat>)
    requires i <= |text|
    ensures h.Some? ==> RawPrefix(text, i).Some? && RawPrefix(text, i).value + h.value < |text|
                        && text[RawPrefix(text, i).value + h.value] == '"'
  {
    match RawPrefix(text, i)
    case None => None
    case Some(p) =>
      var h := Hashes(text, p);
      if p + h < |text| && text[p + h] == '"' then Some(h) else None
  }

  function Delimiter(h: nat): (s: string)
    ensures |s| == h + 1
  {
    "\"" + seq(h, _ => '#')
  }

  /** The end of the first occurrence of the delimiter. */
  function DelimiterEnd(text: string, i: nat, delimiter: string): (e: Option<nat>)
    requires i <= |text| && delimiter != ""
    ensures e.Some? ==> i < e.value <= |text|
    decreases |text| - i
  {
    if Starts(text, i, delimiter) then Some(i + |delimiter|)
    else if i == |text| then None
    else DelimiterEnd(text, i + 1, delimiter)
  }

  /** The end of a string whose body continues at i. */
  function StringEnd(text: string, i: nat): (e: Option<nat>)
    ensures e.Some? ==> i < e.value <= |text|
    decreases |text| - i
  {
    if i >= |text| then None
    else if text[i] == '\\' then StringEnd(text, i + 2)
    else if text[i] == '"' then Some(i + 1)
    else StringEnd(text, i + 1)
  }

  predicate Hex(c: char) {
    '0' <= c <= '9' || 'a' <= c <= 'f' || 'A' <= c <= 'F'
  }

  function HexRun(text: string, i: nat): (n: nat)
    requires i <= |text|
    ensures i + n <= |text| && forall j :: i <= j < i + n ==> Hex(text[j])
    ensures i + n < |text| ==> !Hex(text[i + n])
    decreases |text| - i
  {
    if i < |text| && Hex(text[i]) then 1 + HexRun(text, i + 1) else 0
  }

  predicate Is(text: string, i: nat, c: char) {
    i < |text| && text[i] == c
  }

  /** A Unicode escape in quotes at i. */
  predicate UnicodeChar(text: string, i: nat) {
    && Starts(text, i, "'\\u{")
    && var n := HexRun(text, i + 4);
       n >= 1 && Is(text, i + 4 + n, '}') && Is(text, i + 5 + n, '\'')
  }

  /** A hexadecimal escape in quotes at i. */
  predicate HexChar(text: string, i: nat) {
    Starts(text, i, "'\\x") && i + 5 < |text| && Hex(text[i + 3]) && Hex(text[i + 4]) && text[i + 5] == '\''
  }

  /** Any other escape in quotes at i. */
  predicate EscapedChar(text: string, i: nat) {
    Starts(text, i, "'\\") && i + 3 < |text| && text[i + 2] != '\n' && text[i + 3] == '\''
  }

  predicate PlainChar(text: string, i: nat) {
    i + 2 < |text| && text[i] == '\'' && text[i + 1] != '\'' && text[i + 1] != '\\' && text[i + 2] == '\''
  }

  /** The end of a character literal at i. */
  function CharEnd(text: string, i: nat): (e: Option<nat>)
    ensures e.Some? ==> i + 2 < e.value <= |text|
    ensures e.Some? <==> UnicodeChar(text, i) || HexChar(text, i) || EscapedChar(text, i) || PlainChar(text, i)
  {
    if UnicodeChar(text, i) then Some(i + 6 + HexRun(text, i + 4))
    else if HexChar(text, i) then Some(i + 6)
    else if EscapedChar(text, i) then Some(i + 4)
    else if PlainChar(text, i) then Some(i + 3)
    else None
  }

  /** What starts at a position: a token up to `end`, one that does not end, or none. */
  datatype Scan = Token(end: nat) | Broken | Code

  function Ended(e: Option<nat>): Scan {
    match e case Some(end) => Token(end) case None => Broken
  }

  function ScanAt(text: string, i: nat): (s: Scan)
    requires i < |text|
    ensures s.Token? ==> i + 2 <= s.end <= |text|
  {
    if Starts(text, i, "//") then
      LineEndFrom(text, i);
      Token(LineEnd(text, i))
    else if Starts(text, i, "/*") then Ended(CommentEnd(text, i + 2, 1))
    else
      match RawStart(text, i)
      case Some(h) => Ended(DelimiterEnd(text, RawPrefix(text, i).value + h + 1, Delimiter(h)))
      case None =>
        if text[i] == '"' then Ended(StringEnd(text, i + 1))
        else if text[i] == '\'' && CharEnd(text, i).Some? then Token(CharEnd(text, i).value)
        else Code
  }

  lemma LineEndFrom(text: string, i: nat)
    requires Starts(text, i, "//")
    ensures LineEnd(text, i) >= i + 2
  {
    assert text[i] == text[i..i + 2][0] && text[i + 1] == text[i..i + 2][1];
    assert LineEnd(text, i) == LineEnd(text, i + 1);
  }

  // ---- the mask ----

  /** Every token met from i on ends. */
  predicate Terminated(text: string, i: nat)
    requires i <= |text|
    decreases |text| - i
  {
    i == |text| ||
    var scan := ScanAt(text, i);
    if scan.Token? then Terminated(text, scan.end) else scan == Code && Terminated(text, i + 1)
  }

  /** Scanning from i, position p lies in a token. */
  predicate InToken(text: string, i: nat, p: nat)
    requires i <= |text|
    decreases |text| - i
  {
    i < |text| && i <= p &&
    var scan := ScanAt(text, i);
    if scan.Token? then p < scan.end || InToken(text, scan.end, p) else InToken(text, i + 1, p)
  }

  /** The text with every token blanked in its place. */
  function Masked(text: string): (r: string)
    ensures |r| == |text|
    ensures forall p :: 0 <= p < |text| ==> r[p] == if InToken(text, 0, p) then Blank(text[p]) else text[p]
  {
    seq(|text|, p requires 0 <= p < |text| => if InToken(text, 0, p) then Blank(text[p]) else text[p])
  }

  /** Tokens are longer than one character: a token position has a neighbour in its token. */
  lemma {:induction false} TokenNeighbour(text: string, i: nat, p: nat)
    requires i <= |text| && p < |text| && InToken(text, i, p)
    ensures (p + 1 < |text| && InToken(text, i, p + 1)) || (p > i && InToken(text, i, p - 1))
    decreases |text| - i
  {
    hide ScanAt;
    var scan := ScanAt(text, i);
    if scan.Token? {
      if p >= scan.end {
        TokenNeighbour(text, scan.end, p);
      }
    } else {
      TokenNeighbour(text, i + 1, p);
    }
  }

  /** Outside tokens no token starts. */
  lemma {:induction false} CodeStartsNone(text: string, i: nat, p: nat)
    requires i <= p < |text| && Terminated(text, i) && !InToken(text, i, p)
    ensures ScanAt(text, p) == Code
    decreases |text| - i
  {
    hide ScanAt;
    var scan := ScanAt(text, i);
    if scan.Token? {
      CodeStartsNone(text, scan.end, p);
    } else if p > i {
      CodeStartsNone(text, i + 1, p);
    }
  }

  lemma InTokenStep(text: string, i: nat)
    requires i < |text|
    ensures var scan := ScanAt(text, i); var next := if scan.Token? then scan.end else i + 1;
            && i < next <= |text|
            && (forall p :: next <= p < |text| ==> InToken(text, i, p) == InToken(text, next, p))
            && (forall p :: i <= p < next ==> InToken(text, i, p) == scan.Token?)
            && (scan != Broken ==> Terminated(text, i) == Terminated(text, next))
            && (scan == Broken ==> !Terminated(text, i))
  {
    hide ScanAt;
  }

  // ---- the loop over the character list ----

  method LexicalCode(text: string) returns (r: Result<string>)
    ensures r == if Terminated(text, 0) then Ok(Masked(text)) else Err(Invalid)
  {
    hide ScanAt, InToken, Terminated;
    var out := new char[|text|](k requires 0 <= k < |text| => text[k]);
    var i := 0;
    while i < |text|
      invariant 0 <= i <= |text| == out.Length
      invariant forall p :: 0 <= p < i ==> out[p] == if InToken(text, 0, p) then Blank(text[p]) else text[p]
      invariant forall p :: i <= p < |text| ==> out[p] == text[p]
      invariant forall p :: i <= p < |text| ==> InToken(text, 0, p) == InToken(text, i, p)
      invariant Terminated(text, 0) == Terminated(text, i)
    {
      InTokenStep(text, i);
      match ScanAt(text, i) {
        case Broken => return Err(Invalid);
        case Token(e) =>
          BlankSlice(out, i, e);
          i := e;
        case Code => i := i + 1;
      }
    }
    AllTerminated(text);
    assert out[..] == Masked(text);
    return Ok(out[..]);
  }

  lemma AllTerminated(text: string)
    ensures Terminated(text, |text|)
  {
  }

  method BlankSlice(out: array<char>, i: nat, e: nat)
    requires i <= e <= out.Length
    modifies out
    ensures forall p :: 0 <= p < out.Length ==> out[p] == if i <= p < e then Blank(old(out[p])) else old(out[p])
  {
    for k := i to e
      invariant forall p :: 0 <= p < out.Length ==> out[p] == if i <= p < k then Blank(old(out[p])) else old(out[p])
    {
      out[k] := Blank(out[k]);
    }
  }

  // ---- what masking keeps, and what it removes ----

  /** Nothing moves: every character is kept or blanked, so newlines stay exactly where they were. */
  lemma MaskedKeepsPlaces(text: string)
    ensures |Masked(text)| == |text|
    ensures forall p :: 0 <= p < |text| ==> Masked(text)[p] == text[p] || Masked(text)[p] == Blank(text[p])
    ensures forall p :: 0 <= p < |text| ==> (Masked(text)[p] == '\n' <==> text[p] == '\n')
  {
    hide InToken;
  }

  lemma QuoteScans(text: string, p: nat)
    requires p < |text| && text[p] == '"'
    ensures ScanAt(text, p) != Code
  {
    hide CommentEnd, LineEnd, StringEnd, CharEnd, DelimiterEnd;
  }

  /** No double quote is left. */
  lemma MaskedHasNoQuote(text: string)
    requires Terminated(text, 0)
    ensures '"' !in Masked(text)
  {
    hide ScanAt, InToken, Terminated;
    forall p | 0 <= p < |text|
      ensures Masked(text)[p] != '"'
    {
      if !InToken(text, 0, p) {
        CodeStartsNone(text, 0, p);
        if text[p] == '"' {
          QuoteScans(text, p);
        }
      }
    }
  }

  // ---- masking again changes nothing ----

  lemma NotBlankKept(text: string, p: nat)
    requires Terminated(text, 0) && p < |text| && Masked(text)[p] != ' ' && Masked(text)[p] != '\n'
    ensures !InToken(text, 0, p) && Masked(text)[p] == text[p] && ScanAt(text, p) == Code
  {
    hide ScanAt, InToken, Terminated;
    CodeStartsNone(text, 0, p);
  }

  /** Between two kept characters a single character is kept. */
  lemma LoneKept(text: string, p: nat)
    requires 0 < p && p + 1 < |text| && !InToken(text, 0, p - 1) && !InToken(text, 0, p + 1)
    ensures !InToken(text, 0, p) && Masked(text)[p] == text[p]
  {
    hide ScanAt, InToken;
    if InToken(text, 0, p) {
      TokenNeighbour(text, 0, p);
    }
  }

  /** What starts in the masked text, without blanks in it, starts in the text. */
  lemma StartsKept(text: string, p: nat, token: string)
    requires Terminated(text, 0) && Starts(Masked(text), p, token)
    requires forall j :: 0 <= j < |token| ==> token[j] != ' ' && token[j] != '\n'
    ensures Starts(text, p, token)
    ensures forall j :: p <= j < p + |token| ==> !InToken(text, 0, j) && Masked(text)[j] == text[j]
  {
    hide ScanAt, InToken, Terminated;
    var m := Masked(text);
    forall j | 0 <= j < |token|
      ensures !InToken(text, 0, p + j) && m[p + j] == text[p + j] == token[j]
    {
      assert m[p + j] == m[p..p + |token|][j];
      NotBlankKept(text, p + j);
    }
    assert text[p..p + |token|] == token;
  }

  lemma {:induction false} HexRunSame(a: string, b: string, i: nat, n: nat)
    requires |a| == |b| && i + n < |a| && HexRun(a, i) == n && forall j :: i <= j <= i + n ==> a[j] == b[j]
    ensures HexRun(b, i) == n
    decreases n
  {
    if n > 0 {
      HexRunSame(a, b, i + 1, n - 1);
    }
  }

  lemma StartsChars(text: string, p: nat, token: string)
    requires Starts(text, p, token)
    ensures forall j :: 0 <= j < |token| ==> text[p + j] == token[j]
  {
    forall j | 0 <= j < |token|
      ensures text[p + j] == token[j]
    {
      assert text[p + j] == text[p..p + |token|][j];
    }
  }

  lemma UnicodeKept(text: string, p: nat)
    requires Terminated(text, 0) && UnicodeChar(Masked(text), p)
    ensures UnicodeChar(text, p)
  {
    hide ScanAt, InToken, Terminated;
    var m := Masked(text);
    var n := HexRun(m, p + 4);
    StartsKept(text, p, "'\\u{");
    forall j | p + 4 <= j <= p + 5 + n
      ensures m[j] == text[j]
    {
      NotBlankKept(text, j);
    }
    HexRunSame(m, text, p + 4, n);
  }

  lemma HexKept(text: string, p: nat)
    requires Terminated(text, 0) && HexChar(Masked(text), p)
    ensures HexChar(text, p)
  {
    hide ScanAt, InToken, Terminated;
    StartsKept(text, p, "'\\x");
    NotBlankKept(text, p + 3);
    NotBlankKept(text, p + 4);
    NotBlankKept(text, p + 5);
  }

  lemma EscapedKept(text: string, p: nat)
    requires Terminated(text, 0) && EscapedChar(Masked(text), p)
    ensures EscapedChar(text, p)
  {
    hide ScanAt, InToken, Terminated;
    StartsKept(text, p, "'\\");
    NotBlankKept(text, p + 3);
    LoneKept(text, p + 2);
  }

  lemma PlainKept(text: string, p: nat)
    requires Terminated(text, 0) && PlainChar(Masked(text), p)
    ensures PlainChar(text, p)
  {
    hide ScanAt, InToken, Terminated;
    NotBlankKept(text, p);
    NotBlankKept(text, p + 2);
    LoneKept(text, p + 1);
  }

  lemma CharKept(text: string, p: nat)
    requires Terminated(text, 0) && CharEnd(Masked(text), p).Some?
    ensures CharEnd(text, p).Some?
  {
    hide ScanAt, InToken, Terminated, UnicodeChar, HexChar, EscapedChar, PlainChar;
    var m := Masked(text);
    if UnicodeChar(m, p) {
      UnicodeKept(text, p);
    } else if HexChar(m, p) {
      HexKept(text, p);
    } else if EscapedChar(m, p) {
      EscapedKept(text, p);
    } else {
      PlainKept(text, p);
    }
  }

  /** A token starts where its first characters stand. */
  lemma TokensScan(text: string, p: nat)
    requires p < |text|
    ensures Starts(text, p, "//") || Starts(text, p, "/*") ==> ScanAt(text, p) != Code
    ensures text[p] == '\'' && CharEnd(text, p).Some? ==> ScanAt(text, p) != Code
    ensures ScanAt(text, p) != Code ==>
              || Starts(text, p, "//") || Starts(text, p, "/*") || '"' in text
              || (text[p] == '\'' && CharEnd(text, p).Some?)
  {
    hide CommentEnd, LineEnd, StringEnd, CharEnd, DelimiterEnd, RawPrefix, Hashes;
  }

  lemma MaskedIsCode(text: string, p: nat)
    requires Terminated(text, 0) && p < |text|
    ensures ScanAt(Masked(text), p) == Code
  {
    hide ScanAt, InToken, Terminated, CharEnd;
    var m := Masked(text);
    MaskedHasNoQuote(text);
    TokensScan(m, p);
    TokensScan(text, p);
    if Starts(m, p, "//") {
      StartsKept(text, p, "//");
      FirstKept(text, p, "//");
    } else if Starts(m, p, "/*") {
      StartsKept(text, p, "/*");
      FirstKept(text, p, "/*");
    } else if m[p] == '\'' && CharEnd(m, p).Some? {
      CharKept(text, p);
      NotBlankKept(text, p);
    }
  }

  lemma FirstKept(text: string, p: nat, token: string)
    requires Terminated(text, 0) && Starts(Masked(text), p, token) && token != "" && token[0] != ' ' && token[0] != '\n'
    ensures ScanAt(text, p) == Code
  {
    hide ScanAt, InToken, Terminated;
    StartsChars(Masked(text), p, token);
    NotBlankKept(text, p);
  }

  lemma {:induction false} PlainCode(text: string, i: nat)
    requires i <= |text| && forall p :: 0 <= p < |text| ==> ScanAt(text, p) == Code
    ensures Terminated(text, i) && forall p :: 0 <= p < |text| ==> !InToken(text, i, p)
    decreases |text| - i
  {
    hide ScanAt;
    if i < |text| {
      PlainCode(text, i + 1);
    }
  }

  /** Masking makes no comment, string or character: a masked text masks to itself. */
  lemma MaskingIsIdempotent(text: string)
    requires Terminated(text, 0)
    ensures Terminated(Masked(text), 0) && Masked(Masked(text)) == Masked(text)
  {
    hide ScanAt, InToken, Terminated;
    var m := Masked(text);
    forall p | 0 <= p < |m|
      ensures ScanAt(m, p) == Code
    {
      MaskedIsCode(text, p);
    }
    PlainCode(m, 0);
  }
}
