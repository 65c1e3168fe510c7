/** C `char` data: bytes, and the ASCII codes the JSON code tests for. */
module Bytes {

  newtype Byte = b: int | 0 <= b < 256

  type Text = seq<Byte>

  /** The bytes of a NUL-terminated C string, without the NUL. */
  type CStr = t: Text | NUL !in t

  const NUL: Byte := 0
  const BACKSPACE: Byte := 8
  const TAB: Byte := 9
  const LF: Byte := 10
  const FORM_FEED: Byte := 12
  const CR: Byte := 13
  const SPACE: Byte := 32
  const QUOTE: Byte := 34
  const COMMA: Byte := 44
  const MINUS: Byte := 45
  const SLASH: Byte := 47
  const ZERO: Byte := 48
  const COLON: Byte := 58
  const QUESTION: Byte := 63
  const OPEN_BRACKET: Byte := 91
  const BACKSLASH: Byte := 92
  const CLOSE_BRACKET: Byte := 93
  const LOWER_A: Byte := 97
  const LOWER_B: Byte := 98
  const LOWER_E: Byte := 101
  const LOWER_F: Byte := 102
  const LOWER_L: Byte := 108
  const LOWER_N: Byte := 110
  const LOWER_R: Byte := 114
  const LOWER_S: Byte := 115
  const LOWER_T: Byte := 116
  const LOWER_U: Byte := 117
  const OPEN_BRACE: Byte := 123
  const CLOSE_BRACE: Byte := 125

  /** A string literal of the source, as bytes. */
  function Ascii(s: string): (t: Text)
    ensures |t| == |s|
  {
    seq(|s|, i requires 0 <= i < |s| => (s[i] as int % 256) as Byte)
  }

  /** At most the first `n` bytes, as snprintf and strlcpy keep them in n + 1 bytes of room. */
  function Cut(t: Text, n: nat): Text {
    if |t| <= n then t else t[..n]
  }

  /** A buffer read as a C string: the bytes before the first NUL. */
  function CString(t: Text): (c: Text)
    ensures NUL !in c && c <= t
  {
    if t == [] || t[0] == NUL then [] else [t[0]] + CString(t[1..])
  }

  predicate IsDigit(c: Byte) {
    48 <= c <= 57
  }

  predicate IsHexDigit(c: Byte) {
    48 <= c <= 57 || 65 <= c <= 70 || 97 <= c <= 102
  }

  predicate IsWhitespace(c: Byte) {
    c == TAB || c == CR || c == LF || c == SPACE
  }
}

/** Optional values. */
module Options {
  datatype Option<+T> = None | Some(value: T)
}
