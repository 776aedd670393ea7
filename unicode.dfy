/**
 * Character classes shared by the tokenizer of the chat view model and by the
 * colour parser.
 */
module Unicode {

  /**
   * The Unicode White_Space property, taken as the set both
   * `Character.isWhitespace || Character.isNewline` and
   * `CharacterSet.whitespacesAndNewlines` select (the newline class, U+000A
   * to U+000D, U+0085, U+2028 and U+2029, is a subset of it).
   */
  predicate IsWhitespace(c: char)
  {
    ('\t' <= c <= '\r') || c == ' ' || c == '\U{85}' || c == '\U{A0}' || c == '\U{1680}'
    || ('\U{2000}' <= c <= '\U{200A}') || c == '\U{2028}' || c == '\U{2029}'
    || c == '\U{202F}' || c == '\U{205F}' || c == '\U{3000}'
  }

  /** No character of `s` is whitespace. */
  predicate NoWhitespace(s: string)
  {
    forall i :: 0 <= i < |s| ==> !IsWhitespace(s[i])
  }

  /** Every character of `s` is whitespace (vacuously true of ""). */
  predicate AllWhitespace(s: string)
  {
    forall i :: 0 <= i < |s| ==> IsWhitespace(s[i])
  }
}
