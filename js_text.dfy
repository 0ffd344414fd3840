/** The JavaScript string primitives the component relies on. A JavaScript
    string is a sequence of UTF-16 code units; here each `char` stands for one
    code unit. */
module JsText {

  /** ECMAScript WhiteSpace or LineTerminator: exactly the characters that
      `String.prototype.trim` removes. */
  predicate IsJsWhitespace(c: char) {
    c == '\t' || c == '\U{B}' || c == '\U{C}' || c == ' ' || c == '\U{A0}' || c == '\U{FEFF}'
    || c == '\U{1680}' || ('\U{2000}' <= c <= '\U{200A}') || c == '\U{202F}' || c == '\U{205F}'
    || c == '\U{3000}' || c == '\n' || c == '\r' || c == '\U{2028}' || c == '\U{2029}'
  }

  /** `s.trim().length === 0`: the string is made of white space only. */
  predicate TrimsToEmpty(s: string) {
    forall i :: 0 <= i < |s| ==> IsJsWhitespace(s[i])
  }

  /** `s.substr(start, length)` for a non-negative start and length: the
      `length` code units from `start`, cut off at the end of `s`. */
  function Substr(s: string, start: nat, length: nat): (r: string)
    ensures start >= |s| ==> r == ""
    ensures start < |s| ==> |r| == (if start + length <= |s| then length else |s| - start)
    ensures forall i :: 0 <= i < |r| ==> r[i] == s[start + i]
  {
    if start >= |s| then "" else s[start..if start + length <= |s| then start + length else |s|]
  }

  /** `val.substr(end, 1)`: the one character at the cursor, or the empty
      string when the cursor is at or past the end of the text. */
  function CharAt(val: string, end: nat): (r: string)
    ensures end < |val| ==> r == [val[end]]
    ensures end >= |val| ==> r == ""
  {
    Substr(val, end, 1)
  }

  /** `val.substr(0, end + 1)`: the text up to and including the character
      at the cursor. */
  function Prefix(val: string, end: nat): (r: string)
    ensures r <= val
    ensures |r| == if end < |val| then end + 1 else |val|
  {
    Substr(val, 0, end + 1)
  }
}
