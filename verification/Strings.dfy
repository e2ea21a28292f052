/** JSON string texts (section 7 of RFC 8259): scanning, decoding and compact writing. */
module Strings {
  import opened Wrappers

  // ---- writing ----

  function HexDigit(n: nat): char
    requires n < 16
  {
    if n < 10 then ('0' as int + n) as char else ('a' as int + (n - 10)) as char
  }

  function EscapeChar(c: char): (s: string)
    ensures s != ""
  {
    if c == '"' then "\\\"" else if c == '\\' then "\\\\"
    else if c == '\n' then "\\n" else if c == '\r' then "\\r" else if c == '\t' then "\\t"
    else if c as int == 0x08 then "\\b" else if c as int == 0x0c then "\\f"
    else if c as int < 0x20 then "\\u00" + [HexDigit(c as int / 16), HexDigit(c as int % 16)]
    else [c]
  }

  function Escape(s: string): string {
    if s == "" then "" else EscapeChar(s[0]) + Escape(s[1..])
  }

  /** The compact JSON text of a string. */
  function Quote(s: string): string {
    "\"" + Escape(s) + "\""
  }

  /** Bytes the source charges for one character, without writing it. */
  function CharSize(c: char): nat {
    if c == '"' || c == '\\' || c == '\n' || c == '\r' || c == '\t' || c as int == 0x08 || c as int == 0x0c then 2
    else if c as int <= 0x1f then 6
    else CharBytes(c)
  }

  function CharSizes(s: string): nat {
    if s == "" then 0 else CharSize(s[0]) + CharSizes(s[1..])
  }

  function StringJsonLen(s: string): nat {
    2 + CharSizes(s)
  }

  lemma EscapeCharBytes(c: char)
    ensures Bytes(EscapeChar(c)) == CharSize(c)
  {
    var s := EscapeChar(c);
    if |s| == 1 {
      assert s == [c];
    } else {
      BytesAscii(s);
    }
  }

  lemma {:induction false} EscapeBytes(s: string)
    ensures Bytes(Escape(s)) == CharSizes(s)
  {
    if s != "" {
      hide EscapeChar, CharSize, CharBytes;
      EscapeCharBytes(s[0]);
      BytesConcat(EscapeChar(s[0]), Escape(s[1..]));
      EscapeBytes(s[1..]);
    }
  }

  /** The size computed without writing is the size of what is written. */
  lemma QuoteBytes(s: string)
    ensures Bytes(Quote(s)) == StringJsonLen(s)
  {
    BytesConcat("\"" + Escape(s), "\"");
    BytesConcat("\"", Escape(s));
    BytesAscii("\"");
    EscapeBytes(s);
  }

  // ---- reading ----

  /** The position after the closing quote, scanning from inside the string. */
  function StringEnd(raw: string, q: nat): (e: Option<nat>)
    requires q <= |raw|
    ensures e.Some? ==> q < e.value <= |raw|
    decreases |raw| - q
  {
    if q == |raw| then None
    else if raw[q] == '"' then Some(q + 1)
    else if raw[q] == '\\' then
      if q + 2 > |raw| then None else StringEnd(raw, q + 2)
    else StringEnd(raw, q + 1)
  }

  function HexValue(c: char): Option<nat> {
    if '0' <= c <= '9' then Some(c as int - '0' as int)
    else if 'a' <= c <= 'f' then Some(c as int - 'a' as int + 10)
    else if 'A' <= c <= 'F' then Some(c as int - 'A' as int + 10)
    else None
  }

  function Hex4(s: string, p: nat): (r: Option<nat>)
    requires p + 4 <= |s|
    ensures r.Some? ==> r.value < 0x1_0000
  {
    match (HexValue(s[p]), HexValue(s[p + 1]), HexValue(s[p + 2]), HexValue(s[p + 3]))
    case (Some(a), Some(b), Some(c), Some(d)) =>
      if a < 16 && b < 16 && c < 16 && d < 16 then Some(((a * 16 + b) * 16 + c) * 16 + d) else None
    case _ => None
  }

  /** The first character of a string body and how much text spells it. */
  function DecodeChar(body: string): (r: Option<(char, nat)>)
    requires body != ""
    ensures r.Some? ==> 0 < r.value.1 <= |body|
  {
    if body[0] as int < 0x20 || body[0] == '"' then None
    else if body[0] != '\\' then Some((body[0], 1))
    else if |body| < 2 then None
    else
      match body[1]
      case '"' => Some(('"', 2))
      case '\\' => Some(('\\', 2))
      case '/' => Some(('/', 2))
      case 'b' => Some((0x08 as char, 2))
      case 'f' => Some((0x0c as char, 2))
      case 'n' => Some(('\n', 2))
      case 'r' => Some(('\r', 2))
      case 't' => Some(('\t', 2))
      case 'u' => DecodeHex(body)
      case _ => None
  }

  /** A four-digit escape, or a pair of them for a character outside the basic plane. */
  function DecodeHex(body: string): (r: Option<(char, nat)>)
    ensures r.Some? ==> 0 < r.value.1 <= |body|
  {
    if |body| < 6 then None
    else
      match Hex4(body, 2)
      case None => None
      case Some(u) =>
        if 0xd800 <= u < 0xdc00 then
          if |body| < 12 || body[6] != '\\' || body[7] != 'u' then None
          else
            match Hex4(body, 8)
            case Some(low) =>
              if 0xdc00 <= low < 0xe000 then
                Some(((0x1_0000 + (u - 0xd800) * 0x400 + (low - 0xdc00)) as char, 12))
              else None
            case None => None
        else if 0xdc00 <= u < 0xe000 then None
        else Some((u as char, 6))
  }

  function Decode(body: string): Option<string> {
    if body == "" then Some("")
    else
      match DecodeChar(body)
      case None => None
      case Some((c, n)) =>
        match Decode(body[n..])
        case None => None
        case Some(rest) => Some([c] + rest)
  }

  /** The string at p and the position after it. */
  function ReadString(raw: string, p: nat): (r: Option<(string, nat)>)
    requires p <= |raw|
    ensures r.Some? ==> p < r.value.1 <= |raw|
  {
    if p == |raw| || raw[p] != '"' then None
    else
      match StringEnd(raw, p + 1)
      case None => None
      case Some(e) =>
        match Decode(raw[p + 1..e - 1])
        case None => None
        case Some(s) => Some((s, e))
  }

  // ---- the grammar of strings ----

  predicate HexDigits(h: string) {
    |h| == 4 && Hex4(h, 0).Some?
  }

  function Unit(h: string): nat
    requires HexDigits(h)
  {
    Hex4(h, 0).value
  }

  const SHORT := "\"\\/bfnrt"

  /** One character as a string may spell it: itself, a short escape, or one or two four-digit escapes. */
  datatype Piece = Plain(c: char) | Short(letter: char) | Hex(h: string) | Pair(high: string, low: string) {

    predicate Valid() {
      match this
      case Plain(c) => c as int >= 0x20 && c != '"' && c != '\\'
      case Short(letter) => letter in SHORT
      case Hex(h) => HexDigits(h) && !(0xd800 <= Unit(h) < 0xe000)
      case Pair(high, low) =>
        HexDigits(high) && HexDigits(low) && 0xd800 <= Unit(high) < 0xdc00 && 0xdc00 <= Unit(low) < 0xe000
    }

    function Text(): (s: string)
      ensures s != ""
    {
      match this
      case Plain(c) => [c]
      case Short(letter) => ['\\', letter]
      case Hex(h) => "\\u" + h
      case Pair(high, low) => "\\u" + high + "\\u" + low
    }

    /** The character that is spelled (section 7 of RFC 8259). */
    function Meaning(): char
      requires Valid()
    {
      match this
      case Plain(c) => c
      case Short(letter) =>
        (match letter
         case 'b' => 0x08 as char
         case 'f' => 0x0c as char
         case 'n' => '\n'
         case 'r' => '\r'
         case 't' => '\t'
         case _ => letter)
      case Hex(h) => Unit(h) as char
      case Pair(high, low) => (0x1_0000 + (Unit(high) - 0xd800) * 0x400 + (Unit(low) - 0xdc00)) as char
    }
  }

  predicate AllValid(ps: seq<Piece>) {
    forall i :: 0 <= i < |ps| ==> ps[i].Valid()
  }

  function Spelling(ps: seq<Piece>): string {
    if ps == [] then "" else ps[0].Text() + Spelling(ps[1..])
  }

  function Meanings(ps: seq<Piece>): string
    requires AllValid(ps)
  {
    if ps == [] then "" else [ps[0].Meaning()] + Meanings(ps[1..])
  }

  lemma HexAt(s: string, p: nat, h: string)
    requires |h| == 4 && Occurs(s, p, h)
    ensures Hex4(s, p) == Hex4(h, 0)
  {
    assert forall i {:trigger h[i]} :: 0 <= i < 4 ==> s[p + i] == h[i] by {
      assert forall i :: 0 <= i < 4 ==> s[p..p + 4][i] == h[i];
    }
    assert s[p] == h[0] && s[p + 1] == h[1] && s[p + 2] == h[2] && s[p + 3] == h[3];
  }

  /** Decoding takes one piece off the text. */
  lemma DecodesPiece(p: Piece, rest: string)
    requires p.Valid()
    ensures DecodeChar(p.Text() + rest) == Some((p.Meaning(), |p.Text()|))
  {
    hide Hex4;
    var s := p.Text() + rest;
    if p.Hex? {
      assert s[2..6] == p.h;
      HexAt(s, 2, p.h);
    } else if p.Pair? {
      assert s[2..6] == p.high && s[8..12] == p.low;
      HexAt(s, 2, p.high);
      HexAt(s, 8, p.low);
    }
  }

  /** What is decoded is a piece. */
  lemma DecodedPiece(body: string) returns (p: Piece)
    requires body != "" && DecodeChar(body).Some?
    ensures p.Valid() && p.Meaning() == DecodeChar(body).value.0 && p.Text() == body[..DecodeChar(body).value.1]
  {
    hide Hex4;
    if body[0] != '\\' {
      p := Plain(body[0]);
    } else if body[1] != 'u' {
      p := Short(body[1]);
      assert body[..2] == [body[0], body[1]];
    } else {
      HexAt(body, 2, body[2..6]);
      if DecodeChar(body).value.1 == 6 {
        p := Hex(body[2..6]);
        assert body[..6] == "\\u" + body[2..6];
      } else {
        HexAt(body, 8, body[8..12]);
        p := Pair(body[2..6], body[8..12]);
        assert body[..12] == "\\u" + body[2..6] + "\\u" + body[8..12];
      }
    }
  }

  lemma {:induction false} DecodesSpelling(ps: seq<Piece>)
    requires AllValid(ps)
    ensures Decode(Spelling(ps)) == Some(Meanings(ps))
  {
    hide DecodeChar, Piece.Text, Piece.Meaning, Piece.Valid;
    if ps != [] {
      var rest := Spelling(ps[1..]);
      DecodesPiece(ps[0], rest);
      assert (ps[0].Text() + rest)[|ps[0].Text()|..] == rest;
      DecodesSpelling(ps[1..]);
    }
  }

  lemma {:induction false} DecodedSpelling(body: string) returns (ps: seq<Piece>)
    requires Decode(body).Some?
    ensures AllValid(ps) && Spelling(ps) == body && Meanings(ps) == Decode(body).value
    decreases |body|
  {
    hide DecodeChar, Piece.Text, Piece.Meaning, Piece.Valid;
    ps := [];
    if body != "" {
      var n := DecodeChar(body).value.1;
      var p := DecodedPiece(body);
      var rest := DecodedSpelling(body[n..]);
      ps := [p] + rest;
      assert ps[1..] == rest;
      assert body == body[..n] + body[n..];
    }
  }

  lemma {:induction false} SkipsPlain(raw: string, q: nat, n: nat)
    requires q + n <= |raw| && forall i :: q <= i < q + n ==> raw[i] != '"' && raw[i] != '\\'
    ensures StringEnd(raw, q) == StringEnd(raw, q + n)
    decreases n
  {
    if n > 0 {
      SkipsPlain(raw, q + 1, n - 1);
    }
  }

  lemma SkipsHex(raw: string, q: nat, h: string)
    requires HexDigits(h) && Occurs(raw, q, "\\u" + h)
    ensures StringEnd(raw, q) == StringEnd(raw, q + 6)
  {
    var text := "\\u" + h;
    forall i | q + 2 <= i < q + 6
      ensures raw[i] != '"' && raw[i] != '\\'
    {
      assert raw[i] == raw[q..q + 6][i - q] == h[i - q - 2];
    }
    assert raw[q] == raw[q..q + 6][0];
    SkipsPlain(raw, q + 2, 4);
  }

  /** The scan for the closing quote passes over pieces. */
  lemma SkipsPiece(raw: string, q: nat, p: Piece)
    requires p.Valid() && Occurs(raw, q, p.Text())
    ensures StringEnd(raw, q) == StringEnd(raw, q + |p.Text()|)
  {
    hide Hex4, Occurs;
    OccursHead(raw, q, p.Text());
    OccursFits(raw, q, p.Text());
    match p
    case Hex(h) => SkipsHex(raw, q, h);
    case Pair(high, low) =>
      assert p.Text() == ("\\u" + high) + ("\\u" + low);
      OccursParts(raw, q, "\\u" + high, "\\u" + low);
      SkipsHex(raw, q, high);
      SkipsHex(raw, q + 6, low);
    case _ =>
  }

  lemma OccursFits(raw: string, q: nat, s: string)
    requires Occurs(raw, q, s)
    ensures q + |s| <= |raw|
  {
  }

  lemma {:induction false} EndOfSpelling(raw: string, q: nat, ps: seq<Piece>)
    requires AllValid(ps) && Occurs(raw, q, Spelling(ps) + "\"")
    ensures StringEnd(raw, q) == Some(q + |Spelling(ps)| + 1)
    decreases |ps|
  {
    hide Piece.Text, Piece.Valid, Occurs;
    OccursFits(raw, q, Spelling(ps) + "\"");
    if ps == [] {
      assert Spelling(ps) + "\"" == "\"";
      OccursHead(raw, q, "\"");
    } else {
      var text, rest := ps[0].Text(), Spelling(ps[1..]);
      assert Spelling(ps) + "\"" == text + (rest + "\"");
      OccursParts(raw, q, text, rest + "\"");
      SkipsPiece(raw, q, ps[0]);
      EndOfSpelling(raw, q + |text|, ps[1..]);
    }
  }

  lemma {:induction false} EndsAtQuote(raw: string, q: nat)
    requires q <= |raw| && StringEnd(raw, q).Some?
    ensures raw[StringEnd(raw, q).value - 1] == '"'
    decreases |raw| - q
  {
    if raw[q] != '"' {
      EndsAtQuote(raw, if raw[q] == '\\' then q + 2 else q + 1);
    }
  }

  /** Every spelling of a string is read as what it means, wherever it stands. */
  lemma ReadsSpelling(raw: string, p: nat, ps: seq<Piece>)
    requires AllValid(ps) && Occurs(raw, p, "\"" + Spelling(ps) + "\"")
    ensures ReadString(raw, p) == Some((Meanings(ps), p + |Spelling(ps)| + 2))
  {
    hide Spelling, Meanings, Decode, StringEnd, AllValid;
    var body := Spelling(ps);
    assert "\"" + body + "\"" == "\"" + (body + "\"");
    OccursParts(raw, p, "\"", body + "\"");
    OccursParts(raw, p + 1, body, "\"");
    OccursHead(raw, p, "\"");
    EndOfSpelling(raw, p + 1, ps);
    DecodesSpelling(ps);
  }

  /** What is read is a spelling of a string between quotes, and the string is what it means. */
  lemma ReadIsSpelling(raw: string, p: nat) returns (ps: seq<Piece>)
    requires p <= |raw| && ReadString(raw, p).Some?
    ensures AllValid(ps) && Meanings(ps) == ReadString(raw, p).value.0
    ensures raw[p..ReadString(raw, p).value.1] == "\"" + Spelling(ps) + "\""
  {
    hide Spelling, Meanings, Decode, StringEnd, AllValid;
    var e := StringEnd(raw, p + 1).value;
    EndsAtQuote(raw, p + 1);
    ps := DecodedSpelling(raw[p + 1..e - 1]);
    assert raw[p..e] == [raw[p]] + raw[p + 1..e - 1] + [raw[e - 1]];
  }

  // ---- round trip ----

  /** The piece a character is written as. */
  function Written(c: char): Piece {
    if c == '"' || c == '\\' then Short(c)
    else if c == '\n' then Short('n') else if c == '\r' then Short('r') else if c == '\t' then Short('t')
    else if c as int == 0x08 then Short('b') else if c as int == 0x0c then Short('f')
    else if c as int < 0x20 then Hex("00" + [HexDigit(c as int / 16), HexDigit(c as int % 16)])
    else Plain(c)
  }

  lemma WrittenMeans(c: char)
    ensures Written(c).Valid() && Written(c).Meaning() == c && Written(c).Text() == EscapeChar(c)
  {
    if Written(c).Hex? {
      var h := Written(c).h;
      assert h[0] == '0' && h[1] == '0' && h[2] == HexDigit(c as int / 16) && h[3] == HexDigit(c as int % 16);
      assert HexValue(HexDigit(c as int / 16)) == Some(c as int / 16);
      assert HexValue(HexDigit(c as int % 16)) == Some(c as int % 16);
      assert Written(c).Text() == EscapeChar(c);
    }
  }

  lemma {:induction false} EscapeSpells(s: string) returns (ps: seq<Piece>)
    ensures AllValid(ps) && Spelling(ps) == Escape(s) && Meanings(ps) == s
  {
    hide EscapeChar, Piece.Text, Piece.Meaning, Piece.Valid, Written;
    ps := [];
    if s != "" {
      WrittenMeans(s[0]);
      var rest := EscapeSpells(s[1..]);
      ps := [Written(s[0])] + rest;
      assert ps[1..] == rest;
      assert s == [s[0]] + s[1..];
    }
  }

  /** Reading a written string gives the string back, wherever it stands. */
  lemma ReadsQuoted(raw: string, p: nat, s: string)
    requires Occurs(raw, p, Quote(s))
    ensures ReadString(raw, p) == Some((s, p + |Quote(s)|))
  {
    hide Escape;
    var ps := EscapeSpells(s);
    ReadsSpelling(raw, p, ps);
  }
}
