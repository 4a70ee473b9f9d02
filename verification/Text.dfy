/** White space as Python's `str.strip` sees it. */
module Text {

  predicate Whitespace(c: char) {
    || '\t' <= c <= '\r' || '\U{001C}' <= c <= ' ' || c == '\U{0085}' || c == '\U{00A0}' || c == '\U{1680}'
    || '\U{2000}' <= c <= '\U{200A}' || c == '\U{2028}' || c == '\U{2029}' || c == '\U{202F}' || c == '\U{205F}'
    || c == '\U{3000}'
  }

  predicate BlankText(s: string) { forall i :: 0 <= i < |s| ==> Whitespace(s[i]) }
}
