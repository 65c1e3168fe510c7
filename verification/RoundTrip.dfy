/** What the writer prints is a JSON text, and the reader finds in it what was written. */
module RoundTrip {
  import opened Bytes
  import opened Options
  import opened JsmnSpec
  import opened JsmnForest
  import opened JsonText
  import opened JsonTree
  import opened JsonReader
  import G = JsonGrammar
  import T = GrammarTokens
  import R = ReadBack

  // ---- Strings ----

  /** How put_escaped spells a byte. */
  function PieceOf(c: Byte): G.Piece {
    if c == QUOTE then G.Short(0)
    else if c == BACKSLASH then G.Short(1)
    else if c == LF then G.Short(5)
    else if c == CR then G.Short(6)
    else if c == TAB then G.Short(7)
    else if c < 32 then G.Unicode(c as nat, (false, false, false, false))
    else G.Raw(c)
  }

  function PiecesOf(s: Text): seq<G.Piece> {
    if s == [] then [] else [PieceOf(s[0])] + PiecesOf(s[1..])
  }

  lemma PieceIs(c: Byte)
    ensures G.SpellPiece(PieceOf(c)) == EscapeByte(c) && G.PieceMeaning(PieceOf(c)) == [c]
  {
    if c < 32 {
      ControlIs(c);
    }
    hide HexPair, G.HexDigit;
  }

  lemma ControlIs(c: Byte)
    requires c < 32
    ensures G.HexDigit(0, false) == ZERO && HexPair(c) == [G.HexDigit(c as nat / 16 % 16, false), G.HexDigit(c as nat % 16, false)]
  {
  }

  /** An escaped text is the contents of a JSON string that stands for the text, whatever its bytes. */
  lemma {:induction false} PiecesAre(s: Text)
    ensures G.SpellPieces(PiecesOf(s)) == Escape(s) && G.StringMeaning(PiecesOf(s)) == s
  {
    hide G.SpellPiece, G.PieceMeaning, EscapeByte, PieceOf;
    if s != [] {
      PieceIs(s[0]);
      PiecesAre(s[1..]);
      assert PiecesOf(s)[0] == PieceOf(s[0]) && PiecesOf(s)[1..] == PiecesOf(s[1..]);
      assert s == [s[0]] + s[1..];
    }
  }

  /** The tokenizer closes an escaped string exactly at the writer's closing quote. */
  lemma ScanEscaped(js: Text, p: nat, s: Text)
    requires Occurs(js, p, Escape(s) + [QUOTE])
    ensures StringEnd(js, p) == Found(p + |Escape(s)|)
  {
    PiecesAre(s);
    T.StringScan(js, p, PiecesOf(s));
  }

  /** Reading back what put_escaped wrote gives the original bytes, whatever they are. */
  lemma DecodeEscaped(js: Text, p: nat, s: Text)
    requires Occurs(js, p, Escape(s))
    ensures Decode(js, p, p + |Escape(s)|) == Some(s)
  {
    hide Decode, Escape, Occurs;
    PiecesAre(s);
    T.StringDecodes(js, p, PiecesOf(s));
  }

  lemma EscapeInjective(a: Text, b: Text)
    requires Escape(a) == Escape(b)
    ensures a == b
  {
    hide Escape, Decode;
    var js := Escape(a);
    assert js[0..|js|] == js;
    DecodeEscaped(js, 0, a);
    DecodeEscaped(js, 0, b);
  }

  /** Lower-case hex, two digits a byte, the upper half first. */
  lemma {:induction false} HexDigits(bytes: Text, i: nat)
    requires i < |bytes|
    ensures |Hex(bytes)| == 2 * |bytes|
    ensures Hex(bytes)[2 * i] == G.LOWER_HEX[bytes[i] as int / 16] && Hex(bytes)[2 * i + 1] == G.LOWER_HEX[bytes[i] as int % 16]
  {
    if |bytes| > 1 {
      HexDigits(bytes[1..], if i == 0 then 0 else i - 1);
    }
  }

  // ---- Numbers ----

  lemma {:induction false} DigitsShape(n: nat)
    ensures AllDigits(Digits(n)) && |Digits(n)| > 0 && (|Digits(n)| == 1 || Digits(n)[0] != 48)
  {
    if n >= 10 {
      DigitsShape(n / 10);
    }
  }

  lemma {:induction false} DigitsDenote(n: nat)
    ensures G.DigitSum(Digits(n)) == n
  {
    if n >= 10 {
      DigitsDenote(n / 10);
      R.DigitSumSnoc(Digits(n / 10), (48 + n % 10) as Byte);
    }
  }

  function WholeOf(n: nat): G.Whole {
    DigitsShape(n);
    Digits(n)
  }

  function NumberOf(v: int): G.Number {
    G.Number(v < 0, WholeOf(if v < 0 then -v else v), None, None)
  }

  lemma NumberIs(v: int)
    ensures G.SpellNumber(NumberOf(v)) == Decimal(v) && G.IntegerMeaning(NumberOf(v)) == Some(v)
  {
    DigitsDenote(if v < 0 then -v else v);
  }

  // ---- Values ----

  /** The writer's text of a value, as the grammar has it: without white space. */
  function Grammar(t: Json): G.Value {
    match t
    case Null => G.Lit(G.NullWord)
    case Bool(b) => G.Lit(if b then G.TrueWord else G.FalseWord)
    case Int(v) => G.Num(NumberOf(v))
    case Str(s) => G.Str(PiecesOf(s))
    case Arr(es) => G.Arr(GrammarElems(es), [])
    case Obj(ms) => G.Obj(GrammarMembers(ms), [])
  }

  function GrammarElems(es: seq<Json>): seq<G.Elem> {
    if es == [] then [] else [G.Elem([], [], Grammar(es[0]))] + GrammarElems(es[1..])
  }

  function GrammarMember(m: Member): G.Member {
    G.Member([], [], PiecesOf(m.key), [], [], Grammar(m.value))
  }

  function GrammarMembers(ms: seq<Member>): seq<G.Member> {
    if ms == [] then [] else [GrammarMember(ms[0])] + GrammarMembers(ms[1..])
  }

  /** The writer prints JSON. */
  lemma {:induction false} PrintsGrammar(t: Json)
    ensures G.Spell(Grammar(t)) == Print(t)
    decreases t
  {
    match t
    case Int(v) => NumberIs(v);
    case Str(s) => PiecesAre(s);
    case Arr(es) => PrintsElems(es, true);
    case Obj(ms) => PrintsMembers(ms, true);
    case _ =>
  }

  lemma {:induction false} PrintsElems(es: seq<Json>, first: bool)
    ensures G.SpellElems(GrammarElems(es), first) == PrintElems(es, first)
    decreases es
  {
    if es != [] {
      var g := GrammarElems(es);
      assert g[0] == G.Elem([], [], Grammar(es[0])) && g[1..] == GrammarElems(es[1..]);
      PrintsGrammar(es[0]);
      PrintsElems(es[1..], false);
      hide G.Spell, Print, Grammar;
      assert G.Lead([], first, []) == Separator(first);
    }
  }

  lemma KeySpelled(m: Member)
    ensures G.SpellKey(GrammarMember(m)) == KeyText(m.key)
  {
    PiecesAre(m.key);
  }

  lemma {:induction false} PrintsMembers(ms: seq<Member>, first: bool)
    ensures G.SpellMembers(GrammarMembers(ms), first) == PrintMembers(ms, first)
    decreases ms
  {
    if ms != [] {
      var g := GrammarMembers(ms);
      assert g[0] == GrammarMember(ms[0]) && g[1..] == GrammarMembers(ms[1..]);
      PrintsGrammar(ms[0].value);
      KeySpelled(ms[0]);
      PrintsMembers(ms[1..], false);
      hide G.Spell, Print, Grammar, G.SpellKey, KeyText;
      assert G.Lead([], first, []) == Separator(first);
    }
  }

  function DocumentOf(t: Json): G.Document {
    G.Document([], Grammar(t), [])
  }

  lemma PrintsDocument(t: Json)
    ensures G.SpellDocument(DocumentOf(t)) == Print(t)
  {
    hide G.Spell, Print, Grammar;
    PrintsGrammar(t);
  }

  /** The tokens of a value whose text begins at `p`. */
  function Layout(t: Json, p: nat): seq<Token> {
    T.Layout(Grammar(t), p)
  }

  /** The writer's text of an object is cut into exactly the tokens of its tree, or refused when they do not fit. */
  lemma DocumentParses(doc: Json, cap: nat)
    requires doc.Obj?
    ensures Tokenize(Print(doc), cap)
            == if |Layout(doc, 0)| <= cap then Tokens(Layout(doc, 0)) else Failure(NoMemory)
    ensures Layout(doc, 0) != [] && Layout(doc, 0)[0].kind == Object && Layout(doc, 0)[0].end == |Print(doc)|
  {
    PrintsDocument(doc);
    PrintsGrammar(doc);
    T.TextParses(DocumentOf(doc), cap);
    T.FirstKind(DocumentOf(doc));
  }

  // ---- Reading back ----

  /** A key that the writer prints as it is. */
  predicate Plain(key: Text) {
    Escape(key) == key
  }

  /** The value of the first member with this key. */
  function Get(ms: seq<Member>, key: Text): Option<Json> {
    if ms == [] then None
    else if ms[0].key == key then Some(ms[0].value)
    else Get(ms[1..], key)
  }

  /** The value at the end of a chain of keys. */
  function Follow(t: Json, path: seq<Text>): Option<Json>
    decreases |path|
  {
    if path == [] then Some(t)
    else if !t.Obj? || Get(t.members, path[0]).None? then None
    else Follow(Get(t.members, path[0]).value, path[1..])
  }

  function GrammarOption(t: Option<Json>): Option<G.Value> {
    if t.None? then None else Some(Grammar(t.value))
  }

  lemma {:induction false} GetSpelled(ms: seq<Member>, key: Text)
    requires Plain(key)
    ensures R.Get(GrammarMembers(ms), key) == GrammarOption(Get(ms, key))
  {
    hide Grammar, Escape;
    if ms != [] {
      var g := GrammarMembers(ms);
      assert g[0] == GrammarMember(ms[0]) && g[1..] == GrammarMembers(ms[1..]);
      PiecesAre(ms[0].key);
      if Escape(ms[0].key) == key {
        EscapeInjective(ms[0].key, key);
      }
      GetSpelled(ms[1..], key);
    }
  }

  lemma {:induction false} FollowSpelled(t: Json, path: seq<Text>)
    requires forall k :: 0 <= k < |path| ==> Plain(path[k])
    ensures R.Follow(Grammar(t), path) == GrammarOption(Follow(t, path))
    decreases |path|
  {
    hide Plain, GrammarMembers;
    if path != [] && t.Obj? {
      GetSpelled(t.members, path[0]);
      if Get(t.members, path[0]).Some? {
        FollowSpelled(Get(t.members, path[0]).value, path[1..]);
      }
    }
  }

  /** str_at(), int_at() and get_bool() on this token give this written value; -1 stands for no value. */
  ghost predicate ReadsBack(js: Text, toks: seq<Token>, tok: int, value: Option<Json>)
    requires forall i :: 0 <= i < |toks| ==> 0 <= toks[i].start <= toks[i].end <= |js|
  {
    match value
    case None => tok == -1
    case Some(t) =>
      && 0 <= tok < |toks|
      && StrSpec(js, toks, tok) == (if t.Str? then Some(t.s) else None)
      && IntSpec(js, toks, tok) == (if t.Int? && INT64_MIN <= t.v <= INT64_MAX then Some(t.v) else None)
      && BoolSpec(js, toks, tok) == (if t.Bool? then Some(t.b) else None)
      && (toks[tok].kind == Object <==> t.Obj?)
  }

  lemma ReadsBackIs(js: Text, toks: seq<Token>, tok: int, value: Option<Json>)
    requires forall i :: 0 <= i < |toks| ==> 0 <= toks[i].start <= toks[i].end <= |js|
    requires R.ReadsAs(js, toks, tok, GrammarOption(value))
    ensures ReadsBack(js, toks, tok, value)
  {
    hide StrSpec, IntSpec, BoolSpec, G.IntegerMeaning, G.StringMeaning, NumberOf;
    if value.Some? {
      var t := value.value;
      if t.Int? {
        NumberIs(t.v);
      } else if t.Str? {
        PiecesAre(t.s);
      }
    }
  }

  /**
   The round trip. Whatever object was written, following plain keys through the tokens of its text reads back the
   written strings, int64 integers and booleans, whatever list of parents the reader holds; a missing key reads as -1.
   */
  lemma WrittenIsRead(doc: Json, par: seq<int>, path: seq<Text>)
    requires doc.Obj? && IsDocument(Print(doc), Layout(doc, 0), par) && forall k :: 0 <= k < |path| ==> Plain(path[k])
    ensures ReadsBack(Print(doc), Layout(doc, 0), R.FindPath(Print(doc), Layout(doc, 0), par, 0, path), Follow(doc, path))
  {
    hide Print, Plain, IsForest, Grammar, T.Layout, R.ReadsAs, R.FindPath, ReadsBack, Follow, R.Follow;
    PrintsDocument(doc);
    R.TextIsRead(DocumentOf(doc), par, path);
    FollowSpelled(doc, path);
    ReadsBackIs(Print(doc), Layout(doc, 0), R.FindPath(Print(doc), Layout(doc, 0), par, 0, path), Follow(doc, path));
  }

  datatype ReadStatus = NotWritten | NoTokens | Done

  /**
   The round trip through the objects themselves: write an object into a buffer, parse it and follow keys. It fails
   exactly when the writer's limits or the reader's tokens do not suffice.
   */
  method WriteAndRead(buf: array<Byte>, doc: Json, maxTokens: nat, path: seq<Text>) returns (status: ReadStatus, r: Reader, tok: int)
    requires doc.Obj? && forall k :: 0 <= k < |path| ==> Plain(path[k])
    modifies buf
    ensures status.NotWritten? <==> |Print(doc)| >= buf.Length || Depth(doc) > 31
    ensures !status.NotWritten? ==> (status.NoTokens? <==> |Layout(doc, 0)| > maxTokens)
    ensures status.Done? ==> r.Valid() && r.json == Print(doc) && r.Toks() == Layout(doc, 0)
                             && ReadsBack(r.json, r.Toks(), tok, Follow(doc, path))
  {
    hide Print, Depth, Layout, ReadsBack, IsForest, Follow, R.FindPath, Plain;
    r := new Reader(maxTokens);
    tok := -1;
    var ok, len := WriteDocument(buf, doc);
    if !ok {
      return NotWritten, r, tok;
    }
    DocumentParses(doc, maxTokens);
    var parsed := r.Parse(buf[..len]);
    if parsed != Ok {
      return NoTokens, r, tok;
    }
    tok := R.FollowPath(r, path);
    WrittenIsRead(doc, r.par, path);
    return Done, r, tok;
  }
}
