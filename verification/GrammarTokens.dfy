/** The tokenizer on JSON texts: the pre-order tokens of the text's tree, and nothing else. */
module GrammarTokens {
  import opened Bytes
  import opened Options
  import opened JsonGrammar
  import opened JsmnSpec
  import opened JsonText

  /** The tokens of a value whose text begins at `p`: one per value, one per key. */
  function Layout(v: Value, p: nat): seq<Token> {
    match v
    case Str(ps) => [Token(String, p + 1, p + 1 + |SpellPieces(ps)|, 0)]
    case Arr(es, _) => [Token(Array, p, p + |Spell(v)|, |es|)] + LayoutElems(es, true, p + 1)
    case Obj(ms, _) => [Token(Object, p, p + |Spell(v)|, |ms|)] + LayoutMembers(ms, true, p + 1)
    case _ => [Token(Primitive, p, p + |Spell(v)|, 0)]
  }

  function LayoutElems(es: seq<Elem>, first: bool, p: nat): seq<Token> {
    if es == [] then []
    else
      var q := p + |Lead(es[0].gap, first, es[0].before)|;
      Layout(es[0].value, q) + LayoutElems(es[1..], false, q + |Spell(es[0].value)|)
  }

  function KeyToken(key: seq<Piece>, p: nat, size: nat): Token {
    Token(String, p + 1, p + 1 + |SpellPieces(key)|, size)
  }

  function LayoutMembers(ms: seq<Member>, first: bool, p: nat): seq<Token> {
    if ms == [] then []
    else
      var q := p + |Lead(ms[0].gap, first, ms[0].before)|;
      var v := q + |SpellKey(ms[0])|;
      [KeyToken(ms[0].key, q, 1)] + Layout(ms[0].value, v) + LayoutMembers(ms[1..], false, v + |Spell(ms[0].value)|)
  }

  ghost predicate AllClosed(toks: seq<Token>) {
    forall i :: 0 <= i < |toks| ==> !IsOpen(toks[i])
  }

  lemma {:induction false} LastOpenIs(toks: seq<Token>, n: nat, i: int)
    requires n <= |toks| && -1 <= i < n && (i >= 0 ==> IsOpen(toks[i])) && forall k :: i < k < n ==> !IsOpen(toks[k])
    ensures LastOpen(toks, n) == i
  {
  }

  lemma LastOpenContainerIs(toks: seq<Token>, n: nat, i: nat)
    requires n <= |toks| && i < n && IsOpen(toks[i]) && IsContainer(toks[i]) && forall k :: i < k < n ==> !IsOpen(toks[k])
    ensures LastOpenContainer(toks, n) == i
  {
  }

  lemma LastOpenGrow(toks: seq<Token>, i: int, n: nat)
    requires -1 <= i < |toks| && n <= |toks|
    ensures LastOpen(Grow(toks, i), n) == LastOpen(toks, n)
  {
    LastOpenIs(Grow(toks, i), n, LastOpen(toks, n));
  }

  /** Where toksuper is after a value: unmoved by a string or primitive, at the innermost open token after a container. */
  function SuperAfter(st: State, v: Value): int {
    if v.Arr? || v.Obj? then LastOpen(st.toks, |st.toks|) else st.super
  }

  function StateAfter(st: State, v: Value): State
    requires Valid(st)
  {
    State(st.pos + |Spell(v)|, Grow(st.toks, st.super) + Layout(v, st.pos), SuperAfter(st, v))
  }

  predicate IsWord(v: Value) {
    v.Lit? || v.Num?
  }

  /** A value may start here, and if it is a primitive a delimiter follows it. */
  ghost predicate MayStart(js: Text, cap: nat, st: State, v: Value) {
    && Valid(st)
    && Occurs(js, st.pos, Spell(v))
    && |st.toks| + |Layout(v, st.pos)| <= cap
    && (st.super != -1 ==> st.toks[st.super].kind == Array || (st.toks[st.super].kind == String && st.toks[st.super].size == 0))
    && (IsWord(v) ==> st.pos + |Spell(v)| < |js| && EndsPrimitive(js[st.pos + |Spell(v)|]))
  }

  lemma LayoutElemsUnfold(es: seq<Elem>, first: bool, pos: nat)
    requires es != []
    ensures var q := pos + |Lead(es[0].gap, first, es[0].before)|;
            LayoutElems(es, first, pos) == Layout(es[0].value, q) + LayoutElems(es[1..], false, q + |Spell(es[0].value)|)
  {
    hide Spell, Layout, Lead;
  }

  lemma LayoutMembersUnfold(ms: seq<Member>, first: bool, pos: nat)
    requires ms != []
    ensures var q := pos + |Lead(ms[0].gap, first, ms[0].before)|;
            var v := q + |SpellKey(ms[0])|;
            LayoutMembers(ms, first, pos)
            == [KeyToken(ms[0].key, q, 1)] + Layout(ms[0].value, v) + LayoutMembers(ms[1..], false, v + |Spell(ms[0].value)|)
  {
    hide Spell, Layout, SpellKey, Lead, KeyToken;
  }

  lemma ClosedParts(a: seq<Token>, b: seq<Token>, c: seq<Token>)
    requires AllClosed(a) && AllClosed(b) && AllClosed(c)
    ensures AllClosed(a + b + c)
  {
  }

  lemma NothingClosed(first: bool, p: nat)
    ensures AllClosed(LayoutMembers([], first, p))
  {
  }

  lemma KeyClosed(key: seq<Piece>, q: nat)
    ensures AllClosed([KeyToken(key, q, 1)])
  {
  }

  lemma {:induction false} LayoutClosed(v: Value, p: nat)
    ensures AllClosed(Layout(v, p)) && |Layout(v, p)| > 0
    decreases v
  {
    if v.Arr? {
      LayoutElemsClosed(v.elems, true, p + 1);
    } else if v.Obj? {
      LayoutMembersClosed(v.members, true, p + 1);
    }
  }

  lemma {:induction false} LayoutElemsClosed(es: seq<Elem>, first: bool, p: nat)
    ensures AllClosed(LayoutElems(es, first, p))
    decreases es
  {
    hide Spell, Lead;
    if es != [] {
      LayoutElemsUnfold(es, first, p);
      var q := p + |Lead(es[0].gap, first, es[0].before)|;
      LayoutClosed(es[0].value, q);
      LayoutElemsClosed(es[1..], false, q + |Spell(es[0].value)|);
    }
  }

  lemma {:induction false} LayoutMembersClosed(ms: seq<Member>, first: bool, p: nat)
    ensures AllClosed(LayoutMembers(ms, first, p))
    decreases ms
  {
    hide SpellKey, Spell, Lead, Layout, KeyToken, AllClosed;
    NothingClosed(first, p);
    if ms != [] {
      LayoutMembersUnfold(ms, first, p);
      var q := p + |Lead(ms[0].gap, first, ms[0].before)|;
      var v := q + |SpellKey(ms[0])|;
      LayoutClosed(ms[0].value, v);
      KeyClosed(ms[0].key, q);
      LayoutMembersClosed(ms[1..], false, v + |Spell(ms[0].value)|);
      ClosedParts([KeyToken(ms[0].key, q, 1)], Layout(ms[0].value, v), LayoutMembers(ms[1..], false, v + |Spell(ms[0].value)|));
    }
  }

  // ---- Strings and primitives ----

  lemma PieceScan(js: Text, p: nat, x: Piece)
    requires Occurs(js, p, SpellPiece(x))
    ensures StringEnd(js, p) == StringEnd(js, p + |SpellPiece(x)|)
  {
    OccursIndex(js, p, SpellPiece(x));
    if x.Unicode? {
      UnicodeScan(js, p, x);
    }
  }

  lemma UnicodeScan(js: Text, p: nat, x: Piece)
    requires Occurs(js, p, SpellPiece(x)) && x.Unicode?
    ensures StringEnd(js, p) == StringEnd(js, p + 6)
  {
    hide HexDigit;
    OccursIndex(js, p, SpellPiece(x));
    HexDigitValue(x.code / 4096, x.caps.0);
    HexDigitValue(x.code / 256 % 16, x.caps.1);
    HexDigitValue(x.code / 16 % 16, x.caps.2);
    HexDigitValue(x.code % 16, x.caps.3);
    FourHexDigits(js, p + 2);
    hide HexRun;
  }

  lemma FourHexDigits(js: Text, p: nat)
    requires p + 4 <= |js| && IsHexDigit(js[p]) && IsHexDigit(js[p + 1]) && IsHexDigit(js[p + 2]) && IsHexDigit(js[p + 3])
    ensures HexRun(js, p, 4) == 4
  {
    assert HexRun(js, p + 3, 1) == 1;
    assert HexRun(js, p + 2, 2) == 2;
    assert HexRun(js, p + 1, 3) == 3;
  }

  lemma SpellPiecesUncons(ps: seq<Piece>, tail: Text)
    requires ps != []
    ensures SpellPieces(ps) + tail == SpellPiece(ps[0]) + (SpellPieces(ps[1..]) + tail)
  {
  }

  /** String contents end at the closing quote, whatever raw bytes and escapes they are made of. */
  lemma {:induction false} StringScan(js: Text, p: nat, ps: seq<Piece>)
    requires Occurs(js, p, SpellPieces(ps) + [34])
    ensures StringEnd(js, p) == Found(p + |SpellPieces(ps)|)
    decreases |ps|
  {
    hide SpellPiece, HexRun;
    if ps == [] {
      OccursIndex(js, p, [34]);
    } else {
      SpellPiecesUncons(ps, [34]);
      OccursParts(js, p, SpellPiece(ps[0]), SpellPieces(ps[1..]) + [34]);
      PieceScan(js, p, ps[0]);
      StringScan(js, p + |SpellPiece(ps[0])|, ps[1..]);
    }
  }

  lemma ValueDigit(c: Byte)
    requires IsHexDigit(c)
    ensures 0 <= HexValue(c) < 16 && HexDigit(HexValue(c), 65 <= c <= 70) == c
  {
  }

  lemma DigitsOf(a: nat, b: nat, c: nat, d: nat)
    requires a < 16 && b < 16 && c < 16 && d < 16
    ensures var code := ((a * 16 + b) * 16 + c) * 16 + d;
            code < 0x10000 && code / 4096 == a && code / 256 % 16 == b && code / 16 % 16 == c && code % 16 == d
  {
    var code := ((a * 16 + b) * 16 + c) * 16 + d;
    assert code / 16 == (a * 16 + b) * 16 + c;
    assert code / 16 / 16 == a * 16 + b && code / 256 == code / 16 / 16;
    assert code / 256 / 16 == a && code / 4096 == code / 256 / 16;
  }

  lemma SpelledDigits(a: nat, b: nat, c: nat, d: nat, caps: (bool, bool, bool, bool)) returns (x: Piece)
    requires a < 16 && b < 16 && c < 16 && d < 16
    ensures SpellPiece(x) == [92, 117, HexDigit(a, caps.0), HexDigit(b, caps.1), HexDigit(c, caps.2), HexDigit(d, caps.3)]
  {
    hide HexDigit;
    DigitsOf(a, b, c, d);
    x := Unicode(((a * 16 + b) * 16 + c) * 16 + d, caps);
  }

  lemma UnicodeUnscan(js: Text, p: nat) returns (x: Piece)
    requires p + 6 <= |js| && js[p] == 92 && js[p + 1] == 117
    requires IsHexDigit(js[p + 2]) && IsHexDigit(js[p + 3]) && IsHexDigit(js[p + 4]) && IsHexDigit(js[p + 5])
    ensures SpellPiece(x) == js[p..p + 6]
  {
    hide HexDigit, HexValue, SpellPiece, IsHexDigit;
    ValueDigit(js[p + 2]);
    ValueDigit(js[p + 3]);
    ValueDigit(js[p + 4]);
    ValueDigit(js[p + 5]);
    x := SpelledDigits(HexValue(js[p + 2]), HexValue(js[p + 3]), HexValue(js[p + 4]), HexValue(js[p + 5]),
                       (65 <= js[p + 2] <= 70, 65 <= js[p + 3] <= 70, 65 <= js[p + 4] <= 70, 65 <= js[p + 5] <= 70));
    assert js[p..p + 6] == [js[p], js[p + 1], js[p + 2], js[p + 3], js[p + 4], js[p + 5]];
  }

  lemma ShortUnscan(c: Byte) returns (x: Piece)
    requires IsSimpleEscape(c)
    ensures SpellPiece(x) == [92, c]
  {
    var k: nat :| k < 8 && SHORT[k].0 == c by {
      assert SHORT[0].0 == 34 && SHORT[1].0 == 92 && SHORT[2].0 == 47 && SHORT[3].0 == 98;
      assert SHORT[4].0 == 102 && SHORT[5].0 == 110 && SHORT[6].0 == 114 && SHORT[7].0 == 116;
    }
    x := Short(k);
  }

  /** The first piece of contents that end at a closing quote. */
  lemma PieceUnscan(js: Text, p: nat) returns (x: Piece)
    requires StringEnd(js, p).Found? && StringEnd(js, p).at > p
    ensures var n := |SpellPiece(x)|;
            0 < n && p + n <= |js| && js[p..p + n] == SpellPiece(x) && StringEnd(js, p) == StringEnd(js, p + n)
  {
    if js[p] != BACKSLASH {
      x := Raw(js[p]);
    } else if js[p + 1] == LOWER_U {
      HexRunFull(js, p + 2, 4);
      hide HexRun, IsHexDigit;
      x := UnicodeUnscan(js, p);
    } else {
      x := ShortUnscan(js[p + 1]);
    }
  }

  /** Conversely, whatever ends at a closing quote is made of raw bytes and escapes. */
  lemma {:induction false} StringUnscan(js: Text, p: nat) returns (ps: seq<Piece>)
    requires StringEnd(js, p).Found?
    ensures js[p..StringEnd(js, p).at] == SpellPieces(ps)
    decreases |js| - p
  {
    var e := StringEnd(js, p).at;
    hide StringEnd, SpellPiece;
    if e == p {
      ps := [];
    } else {
      var x := PieceUnscan(js, p);
      var n := |SpellPiece(x)|;
      var rest := StringUnscan(js, p + n);
      ps := [x] + rest;
      assert js[p..e] == js[p..p + n] + js[p + n..e];
    }
  }

  /** A string ends exactly at the first quote behind well-formed contents. */
  lemma StringEndsIff(js: Text, p: nat, e: nat)
    requires p <= e <= |js|
    ensures StringEnd(js, p) == Found(e) <==> e < |js| && js[e] == 34 && exists ps :: js[p..e] == SpellPieces(ps)
  {
    hide StringEnd, SpellPieces;
    if StringEnd(js, p) == Found(e) {
      var ps := StringUnscan(js, p);
    } else if e < |js| && js[e] == 34 && exists ps :: js[p..e] == SpellPieces(ps) {
      var ps :| js[p..e] == SpellPieces(ps);
      assert js[p..e + 1] == SpellPieces(ps) + [34];
      StringScan(js, p, ps);
    }
  }

  /** Unescaping string contents gives what their pieces stand for. */
  lemma {:induction false} StringDecodes(js: Text, p: nat, ps: seq<Piece>)
    requires Occurs(js, p, SpellPieces(ps))
    ensures Decode(js, p, p + |SpellPieces(ps)|) == Some(StringMeaning(ps))
    decreases |ps|
  {
    hide SpellPiece, PieceMeaning, DecodeOne;
    if ps != [] {
      OccursParts(js, p, SpellPiece(ps[0]), SpellPieces(ps[1..]));
      PieceDecodes(js, p, ps[0], p + |SpellPieces(ps)|);
      StringDecodes(js, p + |SpellPiece(ps[0])|, ps[1..]);
    }
  }

  lemma PieceDecodes(js: Text, p: nat, x: Piece, e: nat)
    requires Occurs(js, p, SpellPiece(x)) && p + |SpellPiece(x)| <= e <= |js|
    ensures DecodeOne(js, p, e) == Some((PieceMeaning(x), |SpellPiece(x)|)) && |SpellPiece(x)| > 0
  {
    OccursIndex(js, p, SpellPiece(x));
    if x.Unicode? {
      hide HexCode, UnicodeEscape;
      UnicodeReads(js, p, x);
    }
  }

  lemma UnicodeReads(js: Text, p: nat, x: Piece)
    requires Occurs(js, p, SpellPiece(x)) && x.Unicode?
    ensures HexCode(js, p + 2) == x.code
  {
    hide HexDigit, HexValue;
    OccursIndex(js, p, SpellPiece(x));
    HexDigitValue(x.code / 4096, x.caps.0);
    HexDigitValue(x.code / 256 % 16, x.caps.1);
    HexDigitValue(x.code / 16 % 16, x.caps.2);
    HexDigitValue(x.code % 16, x.caps.3);
    FourDigits(x.code);
  }

  lemma HexDigitValue(v: nat, capital: bool)
    requires v < 16
    ensures HexValue(HexDigit(v, capital)) == v && IsHexDigit(HexDigit(v, capital))
  {
  }

  lemma FourDigits(code: nat)
    requires code < 0x10000
    ensures code / 4096 < 16 && ((code / 4096 * 16 + code / 256 % 16) * 16 + code / 16 % 16) * 16 + code % 16 == code
  {
    assert code / 256 / 16 == code / 4096 && code / 16 / 16 == code / 256;
  }

  lemma StringParses(js: Text, cap: nat, st: State, ps: seq<Piece>)
    requires Valid(st) && Occurs(js, st.pos, SpellString(ps)) && |st.toks| < cap
    ensures !AtEnd(js, st)
    ensures Step(js, cap, st) == Continue(State(st.pos + |SpellString(ps)|, Grow(st.toks, st.super) + [KeyToken(ps, st.pos, 0)], st.super))
  {
    hide StepOpen, StepClose, StepPrimitive, StepComma, StringEnd;
    OccursIndex(js, st.pos, SpellString(ps));
    assert SpellString(ps) == [34] + (SpellPieces(ps) + [34]);
    OccursParts(js, st.pos, [34], SpellPieces(ps) + [34]);
    StringScan(js, st.pos + 1, ps);
  }

  /** A byte that can stand inside a number or a literal. */
  predicate Inside(b: Byte) {
    IsPrintable(b) && !EndsPrimitive(b)
  }

  predicate AllInside(x: Text) {
    forall i :: 0 <= i < |x| ==> Inside(x[i])
  }

  lemma NumberText(n: Number)
    ensures var x := SpellNumber(n);
            x != [] && StartsPrimitive(x[0]) && AllInside(x)
  {
    assert AllInside(n.whole) && AllInside(SpellFraction(n.fraction));
    ExponentText(n.exponent);
  }

  lemma ExponentText(e: Option<Exponent>)
    ensures AllInside(SpellExponent(e))
  {
    if e.Some? {
      assert AllInside(e.value.digits);
    }
  }

  lemma WordText(v: Value)
    requires IsWord(v)
    ensures var x := Spell(v);
            x != [] && StartsPrimitive(x[0]) && AllInside(x)
  {
    hide SpellNumber;
    if v.Num? {
      NumberText(v.n);
    }
  }

  lemma {:induction false} PrimitiveEndAt(js: Text, p: nat, e: nat)
    requires p <= e < |js| && EndsPrimitive(js[e]) && forall i :: p <= i < e ==> Inside(js[i])
    ensures PrimitiveEnd(js, p) == Found(e)
    decreases e - p
  {
    if p < e {
      PrimitiveEndAt(js, p + 1, e);
    }
  }

  /** A number or literal ends exactly at the first delimiter, with only printable bytes before it. */
  lemma PrimitiveEndsIff(js: Text, p: nat, e: nat)
    requires p <= e
    ensures PrimitiveEnd(js, p) == Found(e)
            <==> e < |js| && js[e] in {9, 10, 13, 32, 44, 93, 125} && forall i :: p <= i < e ==> 33 <= js[i] <= 126 && js[i] !in {44, 93, 125}
  {
    if e < |js| && js[e] in {9, 10, 13, 32, 44, 93, 125} && forall i :: p <= i < e ==> 33 <= js[i] <= 126 && js[i] !in {44, 93, 125} {
      PrimitiveEndAt(js, p, e);
    }
  }

  lemma PrimitiveParses(js: Text, cap: nat, st: State, v: Value)
    requires IsWord(v) && MayStart(js, cap, st, v)
    ensures !AtEnd(js, st) && Step(js, cap, st) == Continue(StateAfter(st, v))
  {
    hide Spell, PrimitiveEnd;
    WordText(v);
    OccursIndex(js, st.pos, Spell(v));
    forall i | st.pos <= i < st.pos + |Spell(v)| ensures Inside(js[i]) {
      assert js[i] == Spell(v)[i - st.pos];
    }
    PrimitiveEndAt(js, st.pos, st.pos + |Spell(v)|);
    assert js[st.pos] == Spell(v)[0];
    LayoutOfWord(v, st.pos);
  }

  lemma LayoutOfWord(v: Value, p: nat)
    requires IsWord(v)
    ensures Layout(v, p) == [Token(Primitive, p, p + |Spell(v)|, 0)]
  {
  }

  // ---- Inside a container ----

  /** Inside a container `c` opened after the tokens `base`, with the closed tokens `done` behind it. */
  function Within(base: seq<Token>, c: Token, done: seq<Token>, pos: nat, super: int): State {
    State(pos, base + [c] + done, super)
  }

  lemma LastOpenWithin(base: seq<Token>, c: Token, done: seq<Token>)
    requires IsOpen(c) && AllClosed(done)
    ensures LastOpen(base + [c] + done, |base| + 1 + |done|) == |base|
    ensures IsContainer(c) ==> LastOpenContainer(base + [c] + done, |base| + 1 + |done|) == |base|
  {
    var toks := base + [c] + done;
    LastOpenIs(toks, |toks|, |base|);
    if IsContainer(c) {
      LastOpenContainerIs(toks, |toks|, |base|);
    }
  }

  lemma GrowWithin(base: seq<Token>, c: Token, done: seq<Token>, more: seq<Token>)
    ensures Grow(base + [c] + done, |base|) + more == base + [c.(size := c.size + 1)] + (done + more)
  {
  }

  lemma GrowKey(base: seq<Token>, c: Token, done: seq<Token>, key: seq<Piece>, q: nat, more: seq<Token>)
    ensures Grow(base + [c] + (done + [KeyToken(key, q, 0)]), |base| + 1 + |done|) + more
            == base + [c] + (done + [KeyToken(key, q, 1)] + more)
  {
  }

  lemma SpaceStep(js: Text, cap: nat, st: State)
    requires Valid(st) && st.pos < |js| && js[st.pos] in {9, 10, 13, 32}
    ensures !AtEnd(js, st) && Step(js, cap, st) == Continue(st.(pos := st.pos + 1))
  {
    hide StepOpen, StepClose, StepString, StepPrimitive, StepComma;
  }

  /** White space is skipped. */
  lemma {:induction false} SpaceParses(js: Text, cap: nat, st: State, ws: Space)
    requires Valid(st) && Occurs(js, st.pos, ws)
    ensures Run(js, cap, st) == Run(js, cap, st.(pos := st.pos + |ws|))
    decreases |ws|
  {
    hide Step;
    if ws != [] {
      OccursIndex(js, st.pos, ws);
      assert ws == [ws[0]] + ws[1..];
      OccursParts(js, st.pos, [ws[0]], ws[1..]);
      SpaceStep(js, cap, st);
      SpaceParses(js, cap, st.(pos := st.pos + 1), ws[1..]);
    }
  }

  lemma SpaceWithin(js: Text, cap: nat, base: seq<Token>, c: Token, done: seq<Token>, pos: nat, super: int, ws: Space)
    requires -1 <= super <= |base| + |done| && Occurs(js, pos, ws)
    ensures Run(js, cap, Within(base, c, done, pos, super)) == Run(js, cap, Within(base, c, done, pos + |ws|, super))
  {
    hide Run, Occurs;
    SpaceParses(js, cap, Within(base, c, done, pos, super), ws);
  }

  /** The comma before a member or element puts toksuper back on the container. */
  lemma CommaParses(js: Text, cap: nat, base: seq<Token>, c: Token, done: seq<Token>, pos: nat, super: int)
    requires IsOpen(c) && IsContainer(c) && AllClosed(done) && Occurs(js, pos, [44])
    requires super == |base| || (|base| < super <= |base| + |done| && done[super - |base| - 1].kind == String)
    ensures Run(js, cap, Within(base, c, done, pos, super)) == Run(js, cap, Within(base, c, done, pos + 1, |base|))
  {
    var st := Within(base, c, done, pos, super);
    OccursIndex(js, pos, [44]);
    LastOpenWithin(base, c, done);
    assert st.toks[|base|] == c && (super > |base| ==> st.toks[super] == done[super - |base| - 1]);
    assert Step(js, cap, st) == Continue(StepComma(st));
  }

  /** What stands before a value brings toksuper back to the container. */
  lemma LeadParses(js: Text, cap: nat, base: seq<Token>, c: Token, done: seq<Token>, pos: nat, super: int,
                   gap: Space, first: bool, before: Space)
    requires IsContainer(c) && IsOpen(c) && AllClosed(done) && Occurs(js, pos, Lead(gap, first, before))
    requires super == |base| || (!first && |base| < super <= |base| + |done| && done[super - |base| - 1].kind == String)
    ensures Run(js, cap, Within(base, c, done, pos, super))
            == Run(js, cap, Within(base, c, done, pos + |Lead(gap, first, before)|, |base|))
  {
    hide Run, Within, Occurs, AllClosed;
    var comma: Text := if first then [] else [44];
    OccursParts(js, pos, gap + comma, before);
    OccursParts(js, pos, gap, comma);
    SpaceWithin(js, cap, base, c, done, pos, super, gap);
    if !first {
      CommaParses(js, cap, base, c, done, pos + |gap|, super);
    }
    SpaceWithin(js, cap, base, c, done, pos + |gap| + |comma|, |base|, before);
  }

  /** A byte that may follow a primitive value. */
  predicate Delimits(x: Text) {
    x != [] && EndsPrimitive(x[0])
  }

  /** The parts of a text, one behind the other. */
  lemma PartsOccur(js: Text, p: nat, a: Text, b: Text, c: Text, d: Text, end: Text)
    requires Occurs(js, p, a + b + c + d + end) && (d == [] || Delimits(d)) && Delimits(end)
    ensures var q := p + |a| + |b| + |c|;
            && Occurs(js, p, a) && Occurs(js, p + |a|, b) && Occurs(js, p + |a| + |b|, c) && Occurs(js, q, d + end)
            && q < |js| && EndsPrimitive(js[q])
  {
    assert a + b + c + d + end == a + b + c + (d + end);
    OccursParts(js, p, a + b + c, d + end);
    OccursParts(js, p, a + b, c);
    OccursParts(js, p, a, b);
    OccursIndex(js, p + |a| + |b| + |c|, d + end);
    assert (d + end)[0] == if d == [] then end[0] else d[0];
  }

  lemma LeadDelimits(gap: Space, before: Space)
    ensures Delimits(Lead(gap, false, before))
  {
  }

  lemma TailDelimits(tail: Space, close: Byte)
    requires EndsPrimitive(close)
    ensures Delimits(tail + [close])
  {
  }

  lemma {:induction false} ValueParses(js: Text, cap: nat, st: State, v: Value)
    requires MayStart(js, cap, st, v)
    ensures Run(js, cap, st) == Run(js, cap, StateAfter(st, v))
    decreases v, 2
  {
    if v.Str? {
      StringParses(js, cap, st, v.pieces);
    } else if v.Arr? {
      ArrayParses(js, cap, st, v);
    } else if v.Obj? {
      ObjectParses(js, cap, st, v);
    } else {
      PrimitiveParses(js, cap, st, v);
    }
  }

  lemma OpenParses(js: Text, cap: nat, st: State, open: Byte, kind: Kind)
    requires Valid(st) && Occurs(js, st.pos, [open]) && |st.toks| < cap
    requires if kind == Array then open == 91 else kind == Object && open == 123
    requires st.super != -1 ==> st.toks[st.super].kind != Object
    ensures var base := Grow(st.toks, st.super);
            Run(js, cap, st) == Run(js, cap, Within(base, Token(kind, st.pos, -1, 0), [], st.pos + 1, |base|))
  {
    OccursIndex(js, st.pos, [open]);
    var base := Grow(st.toks, st.super);
    var c := Token(kind, st.pos, -1, 0);
    assert base + [c] + [] == base + [c];
    assert Step(js, cap, st) == Continue(Within(base, c, [], st.pos + 1, |base|));
  }

  lemma BracketParses(js: Text, cap: nat, base: seq<Token>, c: Token, done: seq<Token>, pos: nat, super: int)
    requires IsOpen(c) && IsContainer(c) && AllClosed(done) && -1 <= super <= |base| + |done|
    requires Occurs(js, pos, [if c.kind == Array then 93 else 125])
    ensures Run(js, cap, Within(base, c, done, pos, super))
            == Run(js, cap, Within(base, c.(end := pos + 1), done, pos + 1, LastOpen(base, |base|)))
  {
    hide StepOpen, StepString, StepPrimitive, StepComma;
    var st := Within(base, c, done, pos, super);
    OccursIndex(js, pos, [if c.kind == Array then 93 else 125]);
    LastOpenWithin(base, c, done);
    assert st.toks[|base|] == c;
    LastOpenIs(st.toks, |base|, LastOpen(base, |base|));
    assert st.toks[|base| := c.(end := pos + 1)] == base + [c.(end := pos + 1)] + done;
    assert Step(js, cap, st) == StepClose(st, c.kind);
  }

  /** White space, then the closing bracket. */
  lemma CloseParses(js: Text, cap: nat, base: seq<Token>, c: Token, done: seq<Token>, pos: nat, super: int, tail: Space)
    requires IsOpen(c) && IsContainer(c) && AllClosed(done) && -1 <= super <= |base| + |done|
    requires Occurs(js, pos, tail + [if c.kind == Array then 93 else 125])
    ensures var end := pos + |tail| + 1;
            Run(js, cap, Within(base, c, done, pos, super))
            == Run(js, cap, Within(base, c.(end := end), done, end, LastOpen(base, |base|)))
  {
    hide Run, Within, Occurs, AllClosed, LastOpen;
    OccursParts(js, pos, tail, [if c.kind == Array then 93 else 125]);
    SpaceWithin(js, cap, base, c, done, pos, super, tail);
    BracketParses(js, cap, base, c, done, pos + |tail|, super);
  }

  /** The state after a container, put together from its parts. */
  lemma ContainerAfter(st: State, v: Value, kind: Kind, inner: seq<Token>, n: nat)
    requires Valid(st) && (v.Arr? || v.Obj?)
    requires Layout(v, st.pos) == [Token(kind, st.pos, st.pos + |Spell(v)|, n)] + inner
    ensures var base, end := Grow(st.toks, st.super), st.pos + |Spell(v)|;
            StateAfter(st, v) == Within(base, Token(kind, st.pos, end, n), inner, end, LastOpen(base, |base|))
  {
    hide Spell, Layout;
    var base := Grow(st.toks, st.super);
    LastOpenGrow(st.toks, st.super, |st.toks|);
    var c := Token(kind, st.pos, st.pos + |Spell(v)|, n);
    assert base + [c] + inner == base + ([c] + inner);
  }

  lemma ArrayText(v: Value, p: nat)
    requires v.Arr?
    ensures var body := SpellElems(v.elems, true);
            && Spell(v) == [91] + (body + (v.tail + [93])) && |Spell(v)| == 1 + |body| + |v.tail| + 1
            && Layout(v, p) == [Token(Array, p, p + |Spell(v)|, |v.elems|)] + LayoutElems(v.elems, true, p + 1)
  {
  }

  lemma Brackets(js: Text, p: nat, open: Byte, body: Text, end: Text)
    requires Occurs(js, p, [open] + (body + end))
    ensures Occurs(js, p, [open]) && Occurs(js, p + 1, body + end) && Occurs(js, p + 1 + |body|, end)
  {
    OccursParts(js, p, [open], body + end);
    OccursParts(js, p + 1, body, end);
  }

  /** Up to the white space before the closing bracket. */
  lemma {:induction false} ArrayBody(js: Text, cap: nat, st: State, items: seq<Elem>, end: Text)
    requires Valid(st) && Occurs(js, st.pos, [91] + (SpellElems(items, true) + end)) && Delimits(end)
    requires |st.toks| + 1 + |LayoutElems(items, true, st.pos + 1)| <= cap
    requires st.super != -1 ==> st.toks[st.super].kind != Object
    ensures var base, inner, at := Grow(st.toks, st.super), LayoutElems(items, true, st.pos + 1), st.pos + 1 + |SpellElems(items, true)|;
            && AllClosed(inner)
            && Occurs(js, at, end)
            && Run(js, cap, st) == Run(js, cap, Within(base, Token(Array, st.pos, -1, |items|), inner, at, |base|))
    decreases items, 2
  {
    hide Run, Within, Occurs, Grow, SpellElems, SpellMembers, LayoutElems, LayoutMembers, Step;
    var p, base := st.pos, Grow(st.toks, st.super);
    Brackets(js, p, 91, SpellElems(items, true), end);
    OpenParses(js, cap, st, 91, Array);
    ElemsParse(js, cap, base, Token(Array, p, -1, 0), [], p + 1, items, true, end);
    LayoutElemsClosed(items, true, p + 1);
    assert [] + LayoutElems(items, true, p + 1) == LayoutElems(items, true, p + 1);
  }

  lemma {:induction false} ArrayParses(js: Text, cap: nat, st: State, v: Value)
    requires MayStart(js, cap, st, v) && v.Arr?
    ensures Run(js, cap, st) == Run(js, cap, StateAfter(st, v))
    decreases v, 1
  {
    hide Run, Within, Occurs, Spell, Layout, Grow, LastOpen, SpellElems, LayoutElems, StateAfter, AllClosed;
    ArrayText(v, st.pos);
    TailDelimits(v.tail, 93);
    var base, inner, at := Grow(st.toks, st.super), LayoutElems(v.elems, true, st.pos + 1), st.pos + 1 + |SpellElems(v.elems, true)|;
    ArrayBody(js, cap, st, v.elems, v.tail + [93]);
    CloseParses(js, cap, base, Token(Array, st.pos, -1, |v.elems|), inner, at, |base|, v.tail);
    ContainerAfter(st, v, Array, inner, |v.elems|);
  }

  lemma ObjectText(v: Value, p: nat)
    requires v.Obj?
    ensures var body := SpellMembers(v.members, true);
            && Spell(v) == [123] + (body + (v.tail + [125])) && |Spell(v)| == 1 + |body| + |v.tail| + 1
            && Layout(v, p) == [Token(Object, p, p + |Spell(v)|, |v.members|)] + LayoutMembers(v.members, true, p + 1)
  {
  }

  lemma {:induction false} ObjectBody(js: Text, cap: nat, st: State, items: seq<Member>, end: Text)
    returns (super: int)
    requires Valid(st) && Occurs(js, st.pos, [123] + (SpellMembers(items, true) + end)) && Delimits(end)
    requires |st.toks| + 1 + |LayoutMembers(items, true, st.pos + 1)| <= cap
    requires st.super != -1 ==> st.toks[st.super].kind != Object
    ensures var base, inner, at := Grow(st.toks, st.super), LayoutMembers(items, true, st.pos + 1), st.pos + 1 + |SpellMembers(items, true)|;
            && AllClosed(inner)
            && Occurs(js, at, end) && |base| <= super <= |base| + |inner|
            && Run(js, cap, st) == Run(js, cap, Within(base, Token(Object, st.pos, -1, |items|), inner, at, super))
    decreases items, 2
  {
    hide Run, Within, Occurs, Grow, SpellElems, SpellMembers, LayoutElems, LayoutMembers, Step;
    var p, base := st.pos, Grow(st.toks, st.super);
    Brackets(js, p, 123, SpellMembers(items, true), end);
    OpenParses(js, cap, st, 123, Object);
    super := MembersParse(js, cap, base, Token(Object, p, -1, 0), [], p + 1, |base|, items, true, end);
    LayoutMembersClosed(items, true, p + 1);
    assert [] + LayoutMembers(items, true, p + 1) == LayoutMembers(items, true, p + 1);
  }

  lemma {:induction false} ObjectParses(js: Text, cap: nat, st: State, v: Value)
    requires MayStart(js, cap, st, v) && v.Obj?
    ensures Run(js, cap, st) == Run(js, cap, StateAfter(st, v))
    decreases v, 1
  {
    hide Run, Within, Occurs, Spell, Layout, Grow, LastOpen, SpellMembers, LayoutMembers, StateAfter, AllClosed;
    ObjectText(v, st.pos);
    TailDelimits(v.tail, 125);
    var base, inner, at := Grow(st.toks, st.super), LayoutMembers(v.members, true, st.pos + 1), st.pos + 1 + |SpellMembers(v.members, true)|;
    var super := ObjectBody(js, cap, st, v.members, v.tail + [125]);
    CloseParses(js, cap, base, Token(Object, st.pos, -1, |v.members|), inner, at, super, v.tail);
    ContainerAfter(st, v, Object, inner, |v.members|);
  }

  /** One element of an array. */
  lemma {:induction false} ElementParses(js: Text, cap: nat, base: seq<Token>, c: Token, done: seq<Token>, q: nat, v: Value)
    requires c.kind == Array && IsOpen(c) && AllClosed(done)
    requires Occurs(js, q, Spell(v)) && q + |Spell(v)| < |js| && EndsPrimitive(js[q + |Spell(v)|])
    requires |base| + 1 + |done| + |Layout(v, q)| <= cap
    ensures Run(js, cap, Within(base, c, done, q, |base|))
            == Run(js, cap, Within(base, c.(size := c.size + 1), done + Layout(v, q), q + |Spell(v)|, |base|))
    ensures AllClosed(done + Layout(v, q))
    decreases v, 3
  {
    hide Run, Spell, Layout, LastOpen;
    var st := Within(base, c, done, q, |base|);
    assert st.toks[|base|] == c;
    ValueParses(js, cap, st, v);
    GrowWithin(base, c, done, Layout(v, q));
    LastOpenWithin(base, c, done);
    LayoutClosed(v, q);
  }

  lemma ElemsNil(first: bool, pos: nat)
    ensures SpellElems([], first) == [] && LayoutElems([], first, pos) == []
  {
  }

  lemma MembersNil(first: bool, pos: nat)
    ensures SpellMembers([], first) == [] && LayoutMembers([], first, pos) == []
  {
  }

  lemma ElemsUnfold(es: seq<Elem>, first: bool)
    requires es != []
    ensures SpellElems(es, first) == Lead(es[0].gap, first, es[0].before) + [] + Spell(es[0].value) + SpellElems(es[1..], false)
    ensures SpellElems(es[1..], false) == [] || Delimits(SpellElems(es[1..], false))
  {
    var lead, rest := Lead(es[0].gap, first, es[0].before), es[1..];
    assert lead + [] == lead;
    if rest != [] {
      LeadDelimits(rest[0].gap, rest[0].before);
      hide Spell, Lead;
      assert SpellElems(rest, false)[0] == Lead(rest[0].gap, false, rest[0].before)[0];
    }
  }

  lemma MembersUnfold(ms: seq<Member>, first: bool)
    requires ms != []
    ensures SpellMembers(ms, first) == Lead(ms[0].gap, first, ms[0].before) + SpellKey(ms[0]) + Spell(ms[0].value) + SpellMembers(ms[1..], false)
    ensures SpellMembers(ms[1..], false) == [] || Delimits(SpellMembers(ms[1..], false))
  {
    var rest := ms[1..];
    if rest != [] {
      LeadDelimits(rest[0].gap, rest[0].before);
      hide Spell, Lead, SpellKey;
      assert SpellMembers(rest, false)[0] == Lead(rest[0].gap, false, rest[0].before)[0];
    }
  }

  lemma {:induction false} ElemsParse(js: Text, cap: nat, base: seq<Token>, c: Token, done: seq<Token>, pos: nat, es: seq<Elem>, first: bool, end: Text)
    requires c.kind == Array && IsOpen(c) && AllClosed(done)
    requires Occurs(js, pos, SpellElems(es, first) + end) && Delimits(end)
    requires |base| + 1 + |done| + |LayoutElems(es, first, pos)| <= cap
    ensures Run(js, cap, Within(base, c, done, pos, |base|))
            == Run(js, cap, Within(base, c.(size := c.size + |es|), done + LayoutElems(es, first, pos), pos + |SpellElems(es, first)|, |base|))
    decreases es, 1
  {
    hide Run, Within, Occurs, Spell, Layout, SpellElems, LayoutElems, AllClosed, EndsPrimitive, Lead, Step, Delimits;
    if es == [] {
      ElemsNil(first, pos);
      assert done + [] == done;
    } else {
      var lead := Lead(es[0].gap, first, es[0].before);
      var q := pos + |lead|;
      var p := q + |Spell(es[0].value)|;
      var inner, tail := Layout(es[0].value, q), LayoutElems(es[1..], false, p);
      ElemsUnfold(es, first);
      LayoutElemsUnfold(es, first, pos);
      PartsOccur(js, pos, lead, [], Spell(es[0].value), SpellElems(es[1..], false), end);
      LeadParses(js, cap, base, c, done, pos, |base|, es[0].gap, first, es[0].before);
      ElementParses(js, cap, base, c, done, q, es[0].value);
      ElemsParse(js, cap, base, c.(size := c.size + 1), done + inner, p, es[1..], false, end);
      assert done + inner + tail == done + (inner + tail);
    }
  }

  lemma {:induction false} MembersParse(js: Text, cap: nat, base: seq<Token>, c: Token, done: seq<Token>, pos: nat, super: int,
                                        ms: seq<Member>, first: bool, end: Text)
    returns (super': int)
    requires c.kind == Object && IsOpen(c) && AllClosed(done)
    requires Occurs(js, pos, SpellMembers(ms, first) + end) && Delimits(end)
    requires |base| + 1 + |done| + |LayoutMembers(ms, first, pos)| <= cap
    requires super == |base| || (!first && |base| < super <= |base| + |done| && done[super - |base| - 1].kind == String)
    ensures |base| <= super' <= |base| + |done| + |LayoutMembers(ms, first, pos)|
    ensures Run(js, cap, Within(base, c, done, pos, super))
            == Run(js, cap, Within(base, c.(size := c.size + |ms|), done + LayoutMembers(ms, first, pos), pos + |SpellMembers(ms, first)|, super'))
    decreases ms, 1
  {
    hide Run, Within, Occurs, Spell, Layout, SpellKey, SpellMembers, LayoutMembers, AllClosed, EndsPrimitive, Lead, Step, Delimits, KeyToken, SpellPieces;
    if ms == [] {
      MembersNil(first, pos);
      super' := super;
      assert done + [] == done;
    } else {
      var lead := Lead(ms[0].gap, first, ms[0].before);
      var q := pos + |lead|;
      var v := q + |SpellKey(ms[0])|;
      var p := v + |Spell(ms[0].value)|;
      var inner, tail := [KeyToken(ms[0].key, q, 1)] + Layout(ms[0].value, v), LayoutMembers(ms[1..], false, p);
      MembersUnfold(ms, first);
      LayoutMembersUnfold(ms, first, pos);
      PartsOccur(js, pos, lead, SpellKey(ms[0]), Spell(ms[0].value), SpellMembers(ms[1..], false), end);
      LeadParses(js, cap, base, c, done, pos, super, ms[0].gap, first, ms[0].before);
      var super1 := MemberParses(js, cap, base, c, done, q, ms[0]);
      super' := MembersParse(js, cap, base, c.(size := c.size + 1), done + inner, p, super1, ms[1..], false, end);
      assert done + inner + tail == done + (inner + tail);
    }
  }

  lemma ColonParses(js: Text, cap: nat, st: State)
    requires Valid(st) && Occurs(js, st.pos, [58])
    ensures Run(js, cap, st) == Run(js, cap, State(st.pos + 1, st.toks, |st.toks| - 1))
  {
    OccursIndex(js, st.pos, [58]);
  }

  lemma KeyParts(js: Text, q: nat, m: Member)
    requires Occurs(js, q, SpellKey(m))
    ensures var a := q + |SpellString(m.key)|;
            && Occurs(js, q, SpellString(m.key)) && Occurs(js, a, m.afterKey)
            && Occurs(js, a + |m.afterKey|, [58]) && Occurs(js, a + |m.afterKey| + 1, m.beforeValue)
            && q + |SpellKey(m)| == a + |m.afterKey| + 1 + |m.beforeValue|
  {
    hide SpellString;
    OccursParts(js, q, SpellString(m.key) + m.afterKey + [58], m.beforeValue);
    OccursParts(js, q, SpellString(m.key) + m.afterKey, [58]);
    OccursParts(js, q, SpellString(m.key), m.afterKey);
  }

  lemma KeyString(js: Text, cap: nat, base: seq<Token>, c: Token, done: seq<Token>, q: nat, key: seq<Piece>)
    requires Occurs(js, q, SpellString(key)) && |base| + 1 + |done| < cap
    ensures Run(js, cap, Within(base, c, done, q, |base|))
            == Run(js, cap, Within(base, c.(size := c.size + 1), done + [KeyToken(key, q, 0)], q + |SpellString(key)|, |base|))
  {
    hide StringEnd, KeyToken, SpellString, Occurs;
    var st := Within(base, c, done, q, |base|);
    assert st.toks[|base|] == c;
    StringParses(js, cap, st, key);
    GrowWithin(base, c, done, [KeyToken(key, q, 0)]);
    hide Step;
    assert Step(js, cap, st) == Continue(Within(base, c.(size := c.size + 1), done + [KeyToken(key, q, 0)], q + |SpellString(key)|, |base|));
  }

  /** "key": with its white space. */
  lemma KeyParses(js: Text, cap: nat, base: seq<Token>, c: Token, done: seq<Token>, q: nat, m: Member)
    requires Occurs(js, q, SpellKey(m)) && |base| + 1 + |done| < cap
    ensures var done' := done + [KeyToken(m.key, q, 0)];
            Run(js, cap, Within(base, c, done, q, |base|))
            == Run(js, cap, Within(base, c.(size := c.size + 1), done', q + |SpellKey(m)|, |base| + |done'|))
  {
    hide Run, Occurs, KeyToken, SpellString, SpellKey;
    KeyParts(js, q, m);
    var c', done', a := c.(size := c.size + 1), done + [KeyToken(m.key, q, 0)], q + |SpellString(m.key)|;
    KeyString(js, cap, base, c, done, q, m.key);
    SpaceWithin(js, cap, base, c', done', a, |base|, m.afterKey);
    var st := Within(base, c', done', a + |m.afterKey|, |base|);
    ColonParses(js, cap, st);
    SpaceWithin(js, cap, base, c', done', st.pos + 1, |base| + |done'|, m.beforeValue);
  }

  /** "key":value */
  lemma {:induction false} MemberParses(js: Text, cap: nat, base: seq<Token>, c: Token, done: seq<Token>, q: nat, m: Member)
    returns (super: int)
    requires c.kind == Object && IsOpen(c) && AllClosed(done)
    requires var v := q + |SpellKey(m)|;
             && Occurs(js, q, SpellKey(m)) && Occurs(js, v, Spell(m.value))
             && v + |Spell(m.value)| < |js| && EndsPrimitive(js[v + |Spell(m.value)|])
             && |base| + 2 + |done| + |Layout(m.value, v)| <= cap
    ensures var v := q + |SpellKey(m)|;
            var done' := done + ([KeyToken(m.key, q, 1)] + Layout(m.value, v));
            && AllClosed(done')
            && (super == |base| || (|base| < super <= |base| + |done'| && done'[super - |base| - 1].kind == String))
            && Run(js, cap, Within(base, c, done, q, |base|))
               == Run(js, cap, Within(base, c.(size := c.size + 1), done', v + |Spell(m.value)|, super))
    decreases m, 3
  {
    hide Run, Spell, Layout, LastOpen, SpellKey;
    var v := q + |SpellKey(m)|;
    KeyParses(js, cap, base, c, done, q, m);
    var c', keyed, inner := c.(size := c.size + 1), done + [KeyToken(m.key, q, 0)], Layout(m.value, v);
    var st := Within(base, c', keyed, v, |base| + |keyed|);
    assert st.toks[st.super] == KeyToken(m.key, q, 0);
    ValueParses(js, cap, st, m.value);
    GrowKey(base, c', done, m.key, q, inner);
    LastOpenWithin(base, c', keyed);
    LayoutClosed(m.value, v);
    assert done + [KeyToken(m.key, q, 1)] + inner == done + ([KeyToken(m.key, q, 1)] + inner);
    super := SuperAfter(st, m.value);
    assert (done + ([KeyToken(m.key, q, 1)] + inner))[|done|] == KeyToken(m.key, q, 1);
  }

  // ---- Whole texts ----

  /** A text that needs n tokens is refused for lack of memory by every smaller token array, whatever the text. */
  lemma {:induction false} FewerTokens(js: Text, cap: nat, less: nat, st: State)
    requires Valid(st) && Run(js, cap, st).Tokens? && |st.toks| <= less < |Run(js, cap, st).toks|
    ensures Run(js, less, st) == Failure(NoMemory)
    decreases |js| - st.pos
  {
    var st' := Step(js, cap, st).st;
    if |st'.toks| <= less {
      SameStep(js, cap, less, st);
      FewerTokens(js, cap, less, st');
    }
  }

  lemma SameStep(js: Text, cap: nat, less: nat, st: State)
    requires Valid(st) && !AtEnd(js, st) && Step(js, cap, st).Continue? && |Step(js, cap, st).st.toks| <= less
    ensures Step(js, less, st) == Step(js, cap, st)
  {
  }

  /** The tokens of a text: those of its value. */
  function LayoutDocument(d: Document): seq<Token> {
    Layout(d.value, |d.before|)
  }

  lemma DocumentParts(d: Document)
    ensures var js := SpellDocument(d);
            Occurs(js, 0, d.before) && Occurs(js, |d.before|, Spell(d.value)) && Occurs(js, |d.before| + |Spell(d.value)|, d.after)
            && |js| == |d.before| + |Spell(d.value)| + |d.after|
  {
    hide Spell;
    var js := SpellDocument(d);
    assert js[0..|js|] == js;
    OccursParts(js, 0, d.before + Spell(d.value), d.after);
    OccursParts(js, 0, d.before, Spell(d.value));
  }

  /** With room for all its tokens. */
  lemma FittingText(d: Document, cap: nat)
    requires (IsWord(d.value) ==> d.after != []) && |LayoutDocument(d)| <= cap
    ensures Tokenize(SpellDocument(d), cap) == Tokens(LayoutDocument(d))
  {
    hide Step, Run, Spell, Layout, SpellDocument, Occurs;
    var js, all := SpellDocument(d), LayoutDocument(d);
    DocumentParts(d);
    SpaceParses(js, cap, INIT, d.before);
    var st := INIT.(pos := |d.before|);
    if IsWord(d.value) {
      SpaceDelimits(js, |d.before| + |Spell(d.value)|, d.after);
    }
    ValueParses(js, cap, st, d.value);
    LayoutClosed(d.value, |d.before|);
    var end := StateAfter(st, d.value);
    assert end.toks == all;
    SpaceParses(js, cap, end, d.after);
    FinishedRun(js, cap, end.(pos := |js|));
  }

  lemma SpaceDelimits(js: Text, p: nat, ws: Space)
    requires ws != [] && Occurs(js, p, ws)
    ensures p < |js| && EndsPrimitive(js[p])
  {
    OccursIndex(js, p, ws);
  }

  lemma FinishedRun(js: Text, cap: nat, st: State)
    requires Valid(st) && st.pos == |js| && AllClosed(st.toks)
    ensures Run(js, cap, st) == Tokens(st.toks)
  {
    LastOpenIs(st.toks, |st.toks|, -1);
  }

  /**
   Every JSON text is cut into exactly the tokens of its tree, or refused for lack of memory exactly when there are
   more of them than the array holds. The one exception is a bare number or literal that ends the text.
   */
  lemma TextParses(d: Document, cap: nat)
    requires IsWord(d.value) ==> d.after != []
    ensures Tokenize(SpellDocument(d), cap) == if |LayoutDocument(d)| <= cap then Tokens(LayoutDocument(d)) else Failure(NoMemory)
  {
    hide SpellDocument, Run, Layout;
    var all := LayoutDocument(d);
    if |all| <= cap {
      FittingText(d, cap);
    } else {
      FittingText(d, |all|);
      FewerTokens(SpellDocument(d), |all|, cap, INIT);
    }
  }

  lemma FirstKind(d: Document)
    ensures LayoutDocument(d) != []
    ensures LayoutDocument(d)[0].kind == match d.value case Obj(_, _) => Object case Arr(_, _) => Array case Str(_) => String case _ => Primitive
    ensures d.value.Obj? || d.value.Arr? ==> LayoutDocument(d)[0].end == |d.before| + |Spell(d.value)|
  {
  }
}
