/** JSON string escapes and decimal integers: what the writer prints and what the reader makes of it. */
module JsonText {
  import opened Bytes
  import opened Options
  import opened JsmnSpec

  /** The text `x` stands in `js` at position `p`. */
  ghost predicate Occurs(js: Text, p: nat, x: Text) {
    p + |x| <= |js| && js[p..p + |x|] == x
  }

  lemma OccursIndex(js: Text, p: nat, x: Text)
    requires Occurs(js, p, x)
    ensures forall k :: p <= k < p + |x| ==> js[k] == x[k - p]
  {
    forall k | p <= k < p + |x| ensures js[k] == x[k - p] {
      assert js[k] == js[p..p + |x|][k - p];
    }
  }

  lemma OccursParts(js: Text, p: nat, x: Text, y: Text)
    requires Occurs(js, p, x + y)
    ensures Occurs(js, p, x) && Occurs(js, p + |x|, y)
  {
    assert x == (x + y)[..|x|] && y == (x + y)[|x|..];
  }

  // ---- Literals and escapes ----

  const NULL: Text := [LOWER_N, LOWER_U, LOWER_L, LOWER_L]
  const TRUE: Text := [LOWER_T, LOWER_R, LOWER_U, LOWER_E]
  const FALSE: Text := [LOWER_F, LOWER_A, LOWER_L, LOWER_S, LOWER_E]

  function HexChar(n: int): Byte
    requires 0 <= n < 16
  {
    (if n < 10 then 48 + n else 87 + n) as Byte
  }

  function HexValue(c: Byte): int {
    if 48 <= c <= 57 then c as int - 48
    else if 97 <= c <= 102 then c as int - 87
    else if 65 <= c <= 70 then c as int - 55
    else -1
  }

  /** A byte as two lower-case hex characters. */
  function HexPair(c: Byte): Text {
    [HexChar(c as int / 16), HexChar(c as int % 16)]
  }

  /** One byte as put_escaped writes it. */
  function EscapeByte(c: Byte): Text {
    if c == QUOTE then [BACKSLASH, QUOTE]
    else if c == BACKSLASH then [BACKSLASH, BACKSLASH]
    else if c == LF then [BACKSLASH, LOWER_N]
    else if c == CR then [BACKSLASH, LOWER_R]
    else if c == TAB then [BACKSLASH, LOWER_T]
    else if c < 32 then [BACKSLASH, LOWER_U, ZERO, ZERO] + HexPair(c)
    else [c]
  }

  function Escape(s: Text): Text {
    if s == [] then [] else EscapeByte(s[0]) + Escape(s[1..])
  }

  function Quoted(s: Text): Text {
    [QUOTE] + Escape(s) + [QUOTE]
  }

  lemma {:induction false} EscapeAppend(s: Text, t: Text)
    ensures Escape(s + t) == Escape(s) + Escape(t)
  {
    hide EscapeByte;
    if s == [] {
      assert s + t == t;
    } else {
      EscapeAppend(s[1..], t);
      assert (s + t)[0] == s[0] && (s + t)[1..] == s[1..] + t;
    }
  }

  lemma EscapeSplit(s: Text, i: nat)
    requires i <= |s|
    ensures Escape(s) == Escape(s[..i]) + Escape(s[i..])
  {
    hide Escape;
    var a, b := s[..i], s[i..];
    assert a + b == s;
    EscapeAppend(a, b);
  }

  lemma EscapeSnoc(s: Text, i: nat)
    requires i < |s|
    ensures Escape(s[..i + 1]) == Escape(s[..i]) + EscapeByte(s[i])
  {
    EscapeAppend(s[..i], [s[i]]);
    assert s[..i + 1] == s[..i] + [s[i]];
    assert Escape([s[i]]) == EscapeByte(s[i]) + Escape([]);
  }

  lemma {:induction false} EscapeLength(s: Text)
    ensures |s| <= |Escape(s)| <= 6 * |s|
  {
    if s != [] {
      EscapeLength(s[1..]);
    }
  }

  /** UTF-8 of a code point below 0x10000 (section 3 of RFC 3629), as str_at shifts it together. */
  function Utf8(code: int): Text
    requires 0 <= code < 0x10000
  {
    if code < 0x80 then [code as Byte]
    else if code < 0x800 then [(0xC0 + code / 64) as Byte, (0x80 + code % 64) as Byte]
    else [(0xE0 + code / 4096) as Byte, (0x80 + code / 64 % 64) as Byte, (0x80 + code % 64) as Byte]
  }

  predicate IsSurrogate(code: int) {
    0xD800 <= code <= 0xDFFF
  }

  /** A strict UTF-8 decoder for one character of at most three bytes, from the table in section 3 of RFC 3629. */
  function Utf8Value(b: Text): Option<int> {
    if |b| == 1 && b[0] <= 0x7F then Some(b[0] as int)
    else if |b| == 2 && 0xC2 <= b[0] <= 0xDF && 0x80 <= b[1] <= 0xBF then Some((b[0] as int - 0xC0) * 64 + (b[1] as int - 0x80))
    else if |b| == 3 && 0xE0 <= b[0] <= 0xEF && 0x80 <= b[1] <= 0xBF && 0x80 <= b[2] <= 0xBF then
      var code := (b[0] as int - 0xE0) * 4096 + (b[1] as int - 0x80) * 64 + (b[2] as int - 0x80);
      if code < 0x800 || IsSurrogate(code) then None else Some(code)
    else None
  }

  lemma Utf8RoundTrip(code: int)
    requires 0 <= code < 0x10000
    ensures Utf8Value(Utf8(code)) == if IsSurrogate(code) then None else Some(code)
  {
    if code >= 0x800 {
      assert code / 64 / 64 == code / 4096;
    }
  }

  function HexCode(js: Text, p: nat): (code: int)
    requires p + 4 <= |js|
    ensures code >= 0 ==> code < 0x10000
  {
    var a, b, c, d := HexValue(js[p]), HexValue(js[p + 1]), HexValue(js[p + 2]), HexValue(js[p + 3]);
    if a < 0 || b < 0 || c < 0 || d < 0 then -1 else ((a * 16 + b) * 16 + c) * 16 + d
  }

  /** What a \uXXXX escape stands for: a surrogate becomes '?'. */
  function UnicodeEscape(code: int): Text
    requires 0 <= code < 0x10000
  {
    if IsSurrogate(code) then [QUESTION] else Utf8(code)
  }

  function SimpleEscape(c: Byte): Byte {
    if c == LOWER_B then BACKSPACE
    else if c == LOWER_F then FORM_FEED
    else if c == LOWER_N then LF
    else if c == LOWER_R then CR
    else if c == LOWER_T then TAB
    else c
  }

  /** The bytes that the next piece of js[p..e] stands for and its length, or None where str_at gives up. */
  function DecodeOne(js: Text, p: nat, e: nat): (r: Option<(Text, nat)>)
    requires p < e <= |js|
    ensures r.Some? ==> 0 < r.value.1 && p + r.value.1 <= e && 1 <= |r.value.0| <= 3
  {
    if js[p] != BACKSLASH then Some(([js[p]], 1))
    else if p + 1 >= e then None
    else if js[p + 1] == LOWER_U then
      if e - (p + 2) < 4 || HexCode(js, p + 2) < 0 then None
      else Some((UnicodeEscape(HexCode(js, p + 2)), 6))
    else Some(([SimpleEscape(js[p + 1])], 2))
  }

  /** The string value of the raw text js[p..e]. */
  function Decode(js: Text, p: nat, e: nat): (r: Option<Text>)
    requires p <= e <= |js|
    decreases e - p
  {
    if p == e then Some([])
    else match DecodeOne(js, p, e)
      case None => None
      case Some((bytes, n)) =>
        match Decode(js, p + n, e)
        case None => None
        case Some(rest) => Some(bytes + rest)
  }

  lemma NothingLeft(js: Text, e: nat)
    requires e <= |js|
    ensures Decode(js, e, e) == Some([])
  {
  }

  lemma DecodeStep(js: Text, p: nat, e: nat, done: Text)
    requires p < e <= |js| && Decode(js, p, e).Some?
    ensures DecodeOne(js, p, e).Some?
    ensures var (bytes, n) := DecodeOne(js, p, e).value;
            && Decode(js, p + n, e).Some?
            && done + Decode(js, p, e).value == (done + bytes) + Decode(js, p + n, e).value
  {
  }

  /** Every string the tokenizer accepts can be decoded: str_at then fails only for lack of room. */
  lemma {:induction false} AcceptedStringDecodes(js: Text, p: nat)
    requires StringEnd(js, p).Found?
    ensures Decode(js, p, StringEnd(js, p).at).Some?
    decreases |js| - p
  {
    var e := StringEnd(js, p).at;
    if js[p] == QUOTE {
    } else if js[p] == BACKSLASH && p + 1 < |js| {
      if js[p + 1] == LOWER_U {
        HexRunFull(js, p + 2, 4);
        AcceptedStringDecodes(js, p + 6);
      } else {
        AcceptedStringDecodes(js, p + 2);
      }
    } else {
      AcceptedStringDecodes(js, p + 1);
    }
  }

  /** A run of hex digits cut short ends the text, so no closing quote can follow it. */
  lemma {:induction false} HexRunFull(js: Text, p: nat, n: nat)
    requires HexRun(js, p, n) >= 0 && StringEnd(js, p + HexRun(js, p, n)).Found?
    ensures HexRun(js, p, n) == n && p + n <= |js| && forall i :: p <= i < p + n ==> IsHexDigit(js[i])
    decreases n
  {
    if n > 0 && p < |js| && js[p] != NUL {
      HexRunFull(js, p + 1, n - 1);
    }
  }

  /** A \uXXXX escape decodes to the UTF-8 of its code point; a surrogate, which has none, to '?'. */
  lemma UnicodeEscapeDecodes(js: Text, p: nat, e: nat)
    requires p + 6 <= e <= |js| && js[p] == BACKSLASH && js[p + 1] == LOWER_U
    requires forall i :: p + 2 <= i < p + 6 ==> IsHexDigit(js[i])
    ensures var code := HexCode(js, p + 2);
            && 0 <= code < 0x10000
            && DecodeOne(js, p, e) == Some((UnicodeEscape(code), 6))
            && (IsSurrogate(code) ==> UnicodeEscape(code) == [QUESTION])
            && (!IsSurrogate(code) ==> Utf8Value(UnicodeEscape(code)) == Some(code))
  {
    Utf8RoundTrip(HexCode(js, p + 2));
  }

  // ---- Integers ----

  function Digits(n: nat): (t: Text)
    ensures |t| > 0
  {
    if n < 10 then [(48 + n) as Byte] else Digits(n / 10) + [(48 + n % 10) as Byte]
  }

  /** printf %d of any width. */
  function Decimal(v: int): Text {
    if v < 0 then [MINUS] + Digits(-v) else Digits(v)
  }

  predicate AllDigits(t: Text) {
    forall i :: 0 <= i < |t| ==> IsDigit(t[i])
  }

  function DigitsValue(t: Text): nat
    requires AllDigits(t)
  {
    if t == [] then 0 else DigitsValue(t[..|t| - 1]) * 10 + (t[|t| - 1] as int - 48)
  }

  /** strtoll in base 10 over the whole of `t` (no surrounding space or plus sign): its value, range left aside. */
  function ParseInt(t: Text): Option<int> {
    if t != [] && t[0] == MINUS then
      if |t| > 1 && AllDigits(t[1..]) then Some(-(DigitsValue(t[1..]) as int)) else None
    else if t != [] && AllDigits(t) then Some(DigitsValue(t))
    else None
  }

  lemma {:induction false} DigitsRoundTrip(n: nat)
    ensures AllDigits(Digits(n)) && DigitsValue(Digits(n)) == n
  {
    if n >= 10 {
      DigitsRoundTrip(n / 10);
      assert Digits(n)[..|Digits(n)| - 1] == Digits(n / 10);
    }
  }

  lemma DecimalRoundTrip(v: int)
    ensures ParseInt(Decimal(v)) == Some(v)
    ensures StartsPrimitive(Decimal(v)[0])
    ensures forall i :: 0 <= i < |Decimal(v)| ==> Decimal(v)[i] == MINUS || IsDigit(Decimal(v)[i])
  {
    DigitsRoundTrip(if v < 0 then -v else v);
    if v < 0 {
      assert Decimal(v)[1..] == Digits(-v);
    }
  }

  lemma {:induction false} DigitsLength(n: nat, k: nat)
    requires k > 0 && n < Pow10(k)
    ensures |Digits(n)| <= k
  {
    if n >= 10 {
      DigitsLength(n / 10, k - 1);
    }
  }

  function Pow10(k: nat): nat {
    if k == 0 then 1 else 10 * Pow10(k - 1)
  }

  /** Lower-case hex, two characters a byte. */
  function Hex(bytes: Text): Text {
    if bytes == [] then [] else HexPair(bytes[0]) + Hex(bytes[1..])
  }

  lemma {:induction false} HexAppend(a: Text, b: Text)
    ensures Hex(a + b) == Hex(a) + Hex(b)
  {
    if a == [] {
      assert a + b == b;
    } else {
      HexAppend(a[1..], b);
      assert (a + b)[1..] == a[1..] + b;
    }
  }

  lemma HexSplit(s: Text, i: nat)
    requires i <= |s|
    ensures Hex(s) == Hex(s[..i]) + Hex(s[i..])
  {
    hide Hex;
    var a, b := s[..i], s[i..];
    assert a + b == s;
    HexAppend(a, b);
  }

  lemma HexSnoc(s: Text, i: nat)
    requires i < |s|
    ensures Hex(s[..i + 1]) == Hex(s[..i]) + Hex([s[i]])
    ensures Hex([s[i]]) == HexPair(s[i])
  {
    HexAppend(s[..i], [s[i]]);
    assert s[..i + 1] == s[..i] + [s[i]];
  }

  const INT64_MIN := -0x8000_0000_0000_0000
  const INT64_MAX := 0x7FFF_FFFF_FFFF_FFFF
}
