/** Identifiers, bounded texts and digests, as the core validates them. */
module Texts {
  import opened Wrappers

  /** Unicode White_Space. */
  predicate WhiteSpace(c: char) {
    var n := c as int;
    || 0x9 <= n <= 0xD || n == 0x20 || n == 0x85 || n == 0xA0 || n == 0x1680 || 0x2000 <= n <= 0x200A
    || n == 0x2028 || n == 0x2029 || n == 0x202F || n == 0x205F || n == 0x3000
  }

  /** Nothing is left of the text when it is trimmed. */
  predicate AllWhite(s: string) {
    s == "" || (WhiteSpace(s[|s| - 1]) && AllWhite(s[..|s| - 1]))
  }

  lemma {:induction false} AllWhiteIs(s: string)
    ensures AllWhite(s) <==> forall i :: 0 <= i < |s| ==> WhiteSpace(s[i])
  {
    if s != "" {
      AllWhiteIs(s[..|s| - 1]);
    }
  }

  /** Not blank, at most max bytes, no NUL. */
  predicate IsText(s: string, max: nat) {
    !AllWhite(s) && Bytes(s) <= max && '\0' !in s
  }

  predicate IdentifierChar(c: char) {
    '0' <= c <= '9' || 'a' <= c <= 'z' || 'A' <= c <= 'Z' || c == '-' || c == '_' || c == '.' || c == ':'
  }

  predicate IsIdentifier(s: string) {
    IsText(s, 128) && forall i :: 0 <= i < |s| ==> IdentifierChar(s[i])
  }

  predicate HexChar(c: char) {
    '0' <= c <= '9' || 'a' <= c <= 'f'
  }

  predicate IsHexDigest(s: string) {
    |s| == 64 && forall i :: 0 <= i < 64 ==> HexChar(s[i])
  }

  /** An identifier with a short note before it is a text. */
  lemma NotedIdentifier(note: string, id: string)
    requires IsIdentifier(id)
    requires 0 < |note| <= 20 && !WhiteSpace(note[0]) && forall i :: 0 <= i < |note| ==> 0 < note[i] as int < 0x80
    ensures IsText(note + id, 256)
  {
    var s := note + id;
    AllWhiteIs(s);
    assert s[0] == note[0];
    BytesConcat(note, id);
    BytesAscii(note);
    forall i | 0 <= i < |s|
      ensures s[i] != '\0'
    {
      assert s[i] == if i < |note| then note[i] else id[i - |note|];
      assert i >= |note| ==> IdentifierChar(id[i - |note|]);
    }
  }
}
