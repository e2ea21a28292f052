/** Failure-compatible datatypes and the UTF-8 size of a string. */
module Wrappers {

  datatype Option<+T> = None | Some(value: T)

  /** The error classes of the modelled code; messages are not modelled. */
  datatype Error = Invalid | Resource | Conflict | Forbidden

  datatype Result<+T> = Ok(value: T) | Err(error: Error)

  /** Bytes of one Unicode scalar value in UTF-8. */
  function CharBytes(c: char): (n: nat)
    ensures 1 <= n <= 4
  {
    if c as int < 0x80 then 1 else if c as int < 0x800 then 2 else if c as int < 0x1_0000 then 3 else 4
  }

  /** Bytes of a string in UTF-8: what the source calls `len()`. */
  function Bytes(s: string): (n: nat)
    ensures |s| <= n
  {
    if s == "" then 0 else Bytes(s[..|s| - 1]) + CharBytes(s[|s| - 1])
  }

  lemma {:induction false} BytesConcat(a: string, b: string)
    ensures Bytes(a + b) == Bytes(a) + Bytes(b)
    decreases |b|
  {
    if b == "" {
      assert a + b == a;
    } else {
      assert (a + b)[..|a + b| - 1] == a + b[..|b| - 1];
      BytesConcat(a, b[..|b| - 1]);
    }
  }

  lemma {:induction false} BytesBound(s: string)
    ensures Bytes(s) <= 4 * |s|
  {
    if s != "" {
      BytesBound(s[..|s| - 1]);
    }
  }

  /** A string of ASCII characters has one byte per character. */
  lemma {:induction false} BytesAscii(s: string)
    requires forall i :: 0 <= i < |s| ==> s[i] as int < 0x80
    ensures Bytes(s) == |s|
  {
    if s != "" {
      BytesAscii(s[..|s| - 1]);
    }
  }

  /** Strict lexicographic order by code point, which is also the byte order of the UTF-8 texts. */
  predicate Less(a: string, b: string) {
    b != "" && (a == "" || a[0] < b[0] || (a[0] == b[0] && Less(a[1..], b[1..])))
  }

  lemma {:induction false} LessTotal(a: string, b: string)
    ensures Less(a, b) || Less(b, a) || a == b
    ensures !(Less(a, b) && Less(b, a))
    ensures !Less(a, a)
  {
    if a != "" && b != "" && a[0] == b[0] {
      LessTotal(a[1..], b[1..]);
      assert a[1..] == b[1..] ==> a == [a[0]] + a[1..] == [b[0]] + b[1..] == b;
    }
    if a != "" {
      LessTotal(a[1..], a[1..]);
    }
  }

  lemma {:induction false} LessTransitive(a: string, b: string, c: string)
    requires Less(a, b) && Less(b, c)
    ensures Less(a, c)
  {
    if a != "" && a[0] == b[0] && b[0] == c[0] {
      LessTransitive(a[1..], b[1..], c[1..]);
    }
  }

  /** Equal-length texts compare by their fronts, and by their last characters when the fronts agree. */
  lemma {:induction false} LessLast(a: string, b: string, x: char, y: char)
    requires |a| == |b|
    ensures Less(a + [x], b + [y]) <==> Less(a, b) || (a == b && x < y)
  {
    if a == "" {
      assert !Less([x][1..], [y][1..]);
    } else {
      assert (a + [x])[1..] == a[1..] + [x] && (b + [y])[1..] == b[1..] + [y];
      LessLast(a[1..], b[1..], x, y);
      assert a == [a[0]] + a[1..] && b == [b[0]] + b[1..];
    }
  }

  /** s stands in raw at p. */
  predicate Occurs(raw: string, p: nat, s: string) {
    p + |s| <= |raw| && raw[p..p + |s|] == s
  }

  lemma OccursParts(raw: string, p: nat, a: string, b: string)
    requires Occurs(raw, p, a + b)
    ensures Occurs(raw, p, a) && Occurs(raw, p + |a|, b)
  {
    var s := a + b;
    assert raw[p..p + |a|] == raw[p..p + |s|][..|a|] == a;
    assert raw[p + |a|..p + |s|] == raw[p..p + |s|][|a|..] == b;
  }

  lemma OccursHead(raw: string, p: nat, a: string)
    requires Occurs(raw, p, a) && a != ""
    ensures raw[p] == a[0]
  {
    assert raw[p] == raw[p..p + |a|][0];
  }
}
