/** The restore script's own decimal normaliser, proved to be the one of the Rust reader. */
module HostDecimal {
  import opened Wrappers
  import opened Numbers

  /** The number expression of the script matched against the whole text, with its groups. */
  function FullMatch(token: string): Option<Token> {
    match NumberEnd(token, 0)
    case None => None
    case Some((end, _)) => if end == |token| then ReadToken(token, 0) else None
  }

  /** The match is exactly membership in the grammar, and the groups are the only possible ones. */
  lemma FullMatchIsGrammar(token: string, t: Token)
    ensures FullMatch(token) == Some(t) <==> t.Valid() && t.Spell() == token
  {
    hide ReadExponent, TokenEnds, Token.Valid, Token.Spell, AllDigits;
    assert token[0..|token|] == token;
    if FullMatch(token) == Some(t) {
      ReadTokenSound(token, 0);
    }
    if t.Valid() && t.Spell() == token {
      ReadsSpelled(token, 0, t);
    }
  }

  lemma {:induction false} LongerIsLarger(a: string, b: string)
    requires AllDigits(a) && AllDigits(b) && |a| > |b| && a[0] != '0'
    ensures DigitsValue(a) > DigitsValue(b)
  {
    if b == "" {
      PositiveValue(a);
    } else {
      LongerIsLarger(a[..|a| - 1], b[..|b| - 1]);
    }
  }

  lemma {:induction false} EqualLengthOrder(a: string, b: string)
    requires AllDigits(a) && AllDigits(b) && |a| == |b|
    ensures DigitsValue(a) < DigitsValue(b) <==> Less(a, b)
    decreases |a|
  {
    if a != "" {
      var a', b' := a[..|a| - 1], b[..|b| - 1];
      assert a == a' + [a[|a| - 1]] && b == b' + [b[|b| - 1]];
      EqualLengthOrder(a', b');
      EqualLengthOrder(b', a');
      LessTotal(a', b');
      LessLast(a', b', a[|a| - 1], b[|b| - 1]);
    }
  }

  const POSITIVE_LIMIT := "9223372036854775807"
  const NEGATIVE_LIMIT := "9223372036854775808"

  /** The length-then-text comparison of the script is the numeric comparison. */
  predicate Exceeds(digits: string, limit: string) {
    |digits| > |limit| || (|digits| == |limit| && Less(limit, digits))
  }

  lemma ExceedsIsGreater(digits: string, limit: string)
    requires AllDigits(digits) && AllDigits(limit) && digits != "" && limit != ""
    requires digits[0] != '0' || digits == "0"
    requires limit[0] != '0'
    ensures Exceeds(digits, limit) <==> DigitsValue(digits) > DigitsValue(limit)
  {
    if |digits| > |limit| {
      LongerIsLarger(digits, limit);
    } else if |digits| < |limit| {
      LongerIsLarger(limit, digits);
    } else {
      EqualLengthOrder(limit, digits);
    }
  }

  lemma PrefixValue(s: string, k: nat)
    requires AllDigits(s) && k < |s|
    ensures DigitsValue(s[..k + 1]) == 10 * DigitsValue(s[..k]) + Place(s, k)
  {
    assert s[..k + 1][..k] == s[..k];
  }

  function Place(s: string, k: nat): int
    requires k < |s|
  {
    s[k] as int - '0' as int
  }

  lemma ThreeMore(s: string, k: nat)
    requires AllDigits(s) && k + 3 <= |s|
    ensures DigitsValue(s[..k + 3]) ==
            1000 * DigitsValue(s[..k]) + 100 * Place(s, k) + 10 * Place(s, k + 1) + Place(s, k + 2)
  {
    hide DigitsValue, AllDigits;
    PrefixValue(s, k);
    PrefixValue(s, k + 1);
    PrefixValue(s, k + 2);
  }

  lemma NineteenDigits(s: string)
    requires AllDigits(s) && |s| == 19
    ensures DigitsValue(s) == 10 * DigitsValue(s[..18]) + Place(s, 18)
    ensures DigitsValue(s[..9]) ==
            1000_000 * (100 * Place(s, 0) + 10 * Place(s, 1) + Place(s, 2)) +
            1000 * (100 * Place(s, 3) + 10 * Place(s, 4) + Place(s, 5)) +
            100 * Place(s, 6) + 10 * Place(s, 7) + Place(s, 8)
    ensures DigitsValue(s[..18]) ==
            1000_000_000 * DigitsValue(s[..9]) +
            1000_000 * (100 * Place(s, 9) + 10 * Place(s, 10) + Place(s, 11)) +
            1000 * (100 * Place(s, 12) + 10 * Place(s, 13) + Place(s, 14)) +
            100 * Place(s, 15) + 10 * Place(s, 16) + Place(s, 17)
  {
    hide AllDigits, Place;
    assert s[..19] == s;
    PrefixValue(s, 18);
    ThreeMore(s, 0);
    ThreeMore(s, 3);
    ThreeMore(s, 6);
    ThreeMore(s, 9);
    ThreeMore(s, 12);
    ThreeMore(s, 15);
  }

  lemma LimitValues()
    ensures AllDigits(POSITIVE_LIMIT) && DigitsValue(POSITIVE_LIMIT) == I64_MAX
    ensures AllDigits(NEGATIVE_LIMIT) && DigitsValue(NEGATIVE_LIMIT) == -I64_MIN
  {
    PositiveLimitValue();
    NegativeLimitValue();
  }

  lemma PositiveLimitValue()
    ensures AllDigits(POSITIVE_LIMIT) && DigitsValue(POSITIVE_LIMIT) == I64_MAX
  {
    hide DigitsValue;
    NineteenDigits(POSITIVE_LIMIT);
  }

  lemma NegativeLimitValue()
    ensures AllDigits(NEGATIVE_LIMIT) && DigitsValue(NEGATIVE_LIMIT) == -I64_MIN
  {
    hide DigitsValue;
    NineteenDigits(NEGATIVE_LIMIT);
  }

  /** Normalises one number token: accepts what the Rust reader accepts, with the same parts. */
  method HostDecimalParts(token: string) returns (r: Result<Decimal>)
    ensures r == ReviewedDecimal(token)
  {
    hide FullMatch, ReviewedDecimal, StripZeros, Exceeds, TrimStart, TrimEnd, AllDigits, DigitsValue;
    hide Token.Spell, Token.ExponentValue, Token.Digits, Token.FractionLength;
    FullMatchRejects(token);
    var parsed := FullMatch(token);
    if parsed.None? {
      return Err(Invalid);
    }
    var t := parsed.value;
    FullMatchIsGrammar(token, t);
    DecimalOfSpelled(t);
    var sign := if t.exponent.Some? then t.exponent.value.sign else "";
    var digits := StripZeros(if t.exponent.Some? then t.exponent.value.digits else "0");
    var limit := if sign == "-" then NEGATIVE_LIMIT else POSITIVE_LIMIT;
    ExponentFits(t);
    if Exceeds(digits, limit) {
      return Err(Invalid);
    }
    var exponent := if sign == "-" then -DigitsValue(digits) else DigitsValue(digits);
    exponent := exponent - t.FractionLength();
    if !InI64(exponent) {
      return Err(Invalid);
    }
    var coefficient := TrimStart(t.Digits());
    if coefficient == "" {
      return Ok(Decimal(false, "0", 0));
    }
    var trimmed := TrimEnd(coefficient);
    exponent := exponent + |coefficient| - |trimmed|;
    if !InI64(exponent) {
      return Err(Invalid);
    }
    return Ok(Decimal(t.negative, trimmed, exponent));
  }

  /** `lstrip("0") or "0"`. */
  function StripZeros(s: string): string {
    if TrimStart(s) == "" then "0" else TrimStart(s)
  }

  lemma FullMatchRejects(token: string)
    ensures FullMatch(token).None? ==> ReviewedDecimal(token) == Err(Invalid)
  {
    hide TokenEnds, ReadExponent, BodyDecimal;
  }

  lemma StripZerosValue(s: string)
    requires AllDigits(s)
    ensures var d := StripZeros(s);
            AllDigits(d) && d != "" && (d[0] != '0' || d == "0") && DigitsValue(d) == DigitsValue(s)
  {
    hide DigitsValue, AllDigits;
    TrimStartCuts(s);
    LeadingZeros(s, TrimStart(s));
    ZeroValue();
  }

  lemma ExponentFits(t: Token)
    requires t.Valid()
    ensures var negative := t.exponent.Some? && t.exponent.value.sign == "-";
            var digits := StripZeros(if t.exponent.Some? then t.exponent.value.digits else "0");
            && AllDigits(digits)
            && t.ExponentValue() == (if negative then -DigitsValue(digits) else DigitsValue(digits))
            && (Exceeds(digits, if negative then NEGATIVE_LIMIT else POSITIVE_LIMIT) <==> !InI64(t.ExponentValue()))
  {
    hide TrimStart, StripZeros, Exceeds, DigitsValue;
    var text := if t.exponent.Some? then t.exponent.value.digits else "0";
    var digits := StripZeros(text);
    StripZerosValue(text);
    LimitValues();
    ExceedsIsGreater(digits, POSITIVE_LIMIT);
    ExceedsIsGreater(digits, NEGATIVE_LIMIT);
    ZeroValue();
  }

  lemma ZeroValue()
    ensures AllDigits("0") && DigitsValue("0") == 0 && DigitsValue("") == 0
  {
  }
}
