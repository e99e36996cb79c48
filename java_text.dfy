/**
 * The string test the session code uses to validate identifiers and principal
 * names: Spring's StringUtils.hasText, built on java.lang.Character.isWhitespace.
 */
module JavaText {

  /** Character.isWhitespace: the Unicode space, line and paragraph separators other
      than the non-breaking ones (U+00A0, U+2007, U+202F), and the listed controls. */
  predicate IsWhitespace(c: char) {
    || c == ' ' || c == '\t' || c == '\n' || c == '\U{B}' || c == '\U{C}' || c == '\r'
    || ('\U{1C}' <= c <= '\U{1F}')
    || c == '\U{1680}'
    || ('\U{2000}' <= c <= '\U{2006}')
    || ('\U{2008}' <= c <= '\U{200A}')
    || c == '\U{2028}' || c == '\U{2029}' || c == '\U{205F}' || c == '\U{3000}'
  }

  /** StringUtils.hasText: some character is not whitespace (a null string has none). */
  predicate HasText(s: string) {
    exists i :: 0 <= i < |s| && !IsWhitespace(s[i])
  }

  /** A string with text is not empty; the blank id " " and a tab-and-newline id have
      none, while an ordinary id such as "abc123" has. */
  lemma HasTextMeansNonEmpty(s: string)
    ensures HasText(s) ==> |s| > 0
    ensures !HasText(" ") && !HasText("\t\n")
    ensures HasText("abc123")
  {
    assert !IsWhitespace("abc123"[0]);
  }
}
