/**
 JSON texts as the grammar of RFC 8259 has them, spelled by byte values and without reference to any scanner, and
 what each part of them stands for.
 */
module JsonGrammar {
  import opened Bytes
  import opened Options
  import JsonText

  // ---- Section 2: white space ----

  type Space = t: Text | forall i :: 0 <= i < |t| ==> t[i] == 9 || t[i] == 10 || t[i] == 13 || t[i] == 32

  // ---- Section 7: strings ----

  /** The RFC also keeps raw control characters out; the client's tokenizer lets them pass. */
  type RawByte = b: Byte | b != 0 && b != 34 && b != 92 witness 32

  /** The letter of each two-character escape and the character it stands for. */
  const SHORT: seq<(Byte, Byte)> := [(34, 34), (92, 92), (47, 47), (98, 8), (102, 12), (110, 10), (114, 13), (116, 9)]

  type ShortIndex = k: nat | k < 8

  type CodeUnit = c: nat | c < 0x10000

  /** `caps` says which of the four hex digits are capitals. */
  datatype Piece = Raw(b: RawByte) | Short(k: ShortIndex) | Unicode(code: CodeUnit, caps: (bool, bool, bool, bool))

  const LOWER_HEX: Text := [48, 49, 50, 51, 52, 53, 54, 55, 56, 57, 97, 98, 99, 100, 101, 102]
  const UPPER_HEX: Text := [48, 49, 50, 51, 52, 53, 54, 55, 56, 57, 65, 66, 67, 68, 69, 70]

  function HexDigit(v: nat, capital: bool): Byte
    requires v < 16
  {
    if capital then UPPER_HEX[v] else LOWER_HEX[v]
  }

  function SpellPiece(p: Piece): Text {
    match p
    case Raw(b) => [b]
    case Short(k) => [92, SHORT[k].0]
    case Unicode(code, caps) =>
      [92, 117, HexDigit(code / 4096, caps.0), HexDigit(code / 256 % 16, caps.1), HexDigit(code / 16 % 16, caps.2), HexDigit(code % 16, caps.3)]
  }

  function SpellPieces(ps: seq<Piece>): Text {
    if ps == [] then [] else SpellPiece(ps[0]) + SpellPieces(ps[1..])
  }

  function SpellString(ps: seq<Piece>): Text {
    [34] + SpellPieces(ps) + [34]
  }

  /** The bytes a piece stands for; a surrogate, which has no UTF-8 of its own, becomes a question mark. */
  function PieceMeaning(p: Piece): Text {
    match p
    case Raw(b) => [b]
    case Short(k) => [SHORT[k].1]
    case Unicode(code, _) => JsonText.UnicodeEscape(code)
  }

  function StringMeaning(ps: seq<Piece>): Text {
    if ps == [] then [] else PieceMeaning(ps[0]) + StringMeaning(ps[1..])
  }

  // ---- Section 6: numbers ----

  type DigitText = t: Text | t != [] && forall i :: 0 <= i < |t| ==> 48 <= t[i] <= 57 witness [48]

  /** No leading zero. */
  type Whole = t: DigitText | |t| == 1 || t[0] != 48 witness [48]

  datatype Sign = NoSign | Plus | Minus

  datatype Exponent = Exponent(capital: bool, sign: Sign, digits: DigitText)

  datatype Number = Number(minus: bool, whole: Whole, fraction: Option<DigitText>, exponent: Option<Exponent>)

  function SpellFraction(f: Option<DigitText>): Text {
    if f.Some? then [46] + f.value else []
  }

  function SpellExponent(e: Option<Exponent>): Text {
    match e
    case None => []
    case Some(Exponent(capital, sign, digits)) =>
      [if capital then 69 else 101] + (match sign case NoSign => [] case Plus => [43] case Minus => [45]) + digits
  }

  function SpellNumber(n: Number): Text {
    (if n.minus then [45] else []) + n.whole + SpellFraction(n.fraction) + SpellExponent(n.exponent)
  }

  /** The number that decimal digits denote, the first one weighing most. */
  function DigitSum(t: Text): int {
    if t == [] then 0 else (t[0] as int - 48) * JsonText.Pow10(|t| - 1) + DigitSum(t[1..])
  }

  /** The integer a number is, if it is written as one. */
  function IntegerMeaning(n: Number): Option<int> {
    if n.fraction.Some? || n.exponent.Some? then None
    else Some(if n.minus then -DigitSum(n.whole) else DigitSum(n.whole))
  }

  // ---- Sections 3 to 5: values ----

  datatype Word = NullWord | TrueWord | FalseWord

  function SpellWord(w: Word): Text {
    match w
    case NullWord => [110, 117, 108, 108]
    case TrueWord => [116, 114, 117, 101]
    case FalseWord => [102, 97, 108, 115, 101]
  }

  /**
   White space stands around every value, key, comma, colon and bracket: `gap` before the comma, `before` behind
   it, `tail` before the closing bracket.
   */
  datatype Value =
    | Lit(word: Word)
    | Num(n: Number)
    | Str(pieces: seq<Piece>)
    | Arr(elems: seq<Elem>, tail: Space)
    | Obj(members: seq<Member>, tail: Space)

  datatype Elem = Elem(gap: Space, before: Space, value: Value)

  datatype Member = Member(gap: Space, before: Space, key: seq<Piece>, afterKey: Space, beforeValue: Space, value: Value)

  /** What stands before an element or a key: a comma, except before the first one. */
  function Lead(gap: Space, first: bool, before: Space): Text {
    gap + (if first then [] else [44]) + before
  }

  function Spell(v: Value): Text {
    match v
    case Lit(w) => SpellWord(w)
    case Num(n) => SpellNumber(n)
    case Str(ps) => SpellString(ps)
    case Arr(es, tail) => [91] + (SpellElems(es, true) + (tail + [93]))
    case Obj(ms, tail) => [123] + (SpellMembers(ms, true) + (tail + [125]))
  }

  function SpellElems(es: seq<Elem>, first: bool): Text {
    if es == [] then [] else Lead(es[0].gap, first, es[0].before) + Spell(es[0].value) + SpellElems(es[1..], false)
  }

  function SpellKey(m: Member): Text {
    SpellString(m.key) + m.afterKey + [58] + m.beforeValue
  }

  function SpellMembers(ms: seq<Member>, first: bool): Text {
    if ms == [] then []
    else Lead(ms[0].gap, first, ms[0].before) + SpellKey(ms[0]) + Spell(ms[0].value) + SpellMembers(ms[1..], false)
  }

  /** A whole text. */
  datatype Document = Document(before: Space, value: Value, after: Space)

  function SpellDocument(d: Document): Text {
    d.before + Spell(d.value) + d.after
  }
}
