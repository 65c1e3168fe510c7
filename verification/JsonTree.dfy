/** JSON values, the text the writer's calls make of them and the tokens that text is cut into. */
module JsonTree {
  import opened Bytes
  import opened Options
  import opened JsonText
  import opened JsonWriter
  import opened JsmnSpec

  datatype Json =
    | Null
    | Bool(b: bool)
    | Int(v: int)
    | Str(s: Text)
    | Arr(elems: seq<Json>)
    | Obj(members: seq<Member>)

  datatype Member = Member(key: CStr, value: Json)

  /** A value that jsmn calls a primitive. */
  predicate IsPrimitive(t: Json) {
    t.Null? || t.Bool? || t.Int?
  }

  function PrimitiveText(t: Json): Text
    requires IsPrimitive(t)
  {
    match t
    case Null => NULL
    case Bool(b) => if b then TRUE else FALSE
    case Int(v) => Decimal(v)
  }

  /** The compact text of a value. */
  function Print(t: Json): Text {
    if t.Str? then Quoted(t.s)
    else if t.Arr? then [OPEN_BRACKET] + PrintElems(t.elems, true) + [CLOSE_BRACKET]
    else if t.Obj? then [OPEN_BRACE] + PrintMembers(t.members, true) + [CLOSE_BRACE]
    else PrimitiveText(t)
  }

  function Separator(first: bool): Text {
    if first then [] else [COMMA]
  }

  function PrintElems(es: seq<Json>, first: bool): Text {
    if es == [] then [] else Separator(first) + Print(es[0]) + PrintElems(es[1..], false)
  }

  function KeyText(key: Text): Text {
    Quoted(key) + [COLON]
  }

  function PrintMembers(ms: seq<Member>, first: bool): Text {
    if ms == [] then [] else Separator(first) + KeyText(ms[0].key) + Print(ms[0].value) + PrintMembers(ms[1..], false)
  }

  function Max(a: nat, b: nat): nat {
    if a > b then a else b
  }

  /** How many containers nest. */
  function Depth(t: Json): nat {
    if t.Arr? then 1 + DepthElems(t.elems)
    else if t.Obj? then 1 + DepthMembers(t.members)
    else 0
  }

  function DepthElems(es: seq<Json>): nat {
    if es == [] then 0 else Max(Depth(es[0]), DepthElems(es[1..]))
  }

  function DepthMembers(ms: seq<Member>): nat {
    if ms == [] then 0 else Max(Depth(ms[0].value), DepthMembers(ms[1..]))
  }

  /** The writer calls that write a value, as the unbounded printer sees them. */
  function Emit(p: Printer, key: Option<Text>, t: Json): Printer
    decreases t
  {
    if t.Str? then p.Value(key, Quoted(t.s))
    else if t.Arr? then EmitElems(p.Open(key, OPEN_BRACKET), t.elems).Close(CLOSE_BRACKET)
    else if t.Obj? then EmitMembers(p.Open(key, OPEN_BRACE), t.members).Close(CLOSE_BRACE)
    else p.Value(key, PrimitiveText(t))
  }

  function EmitElems(p: Printer, es: seq<Json>): Printer
    decreases es
  {
    if es == [] then p else EmitElems(Emit(p, None, es[0]), es[1..])
  }

  function EmitMembers(p: Printer, ms: seq<Member>): Printer
    decreases ms
  {
    if ms == [] then p else EmitMembers(Emit(p, Some(ms[0].key), ms[0].value), ms[1..])
  }

  /** `p` after printing `text` inside its innermost container, `depth` containers deeper at most. */
  function Inside(p: Printer, text: Text, depth: nat, any: bool): Printer {
    p.(text := p.text + text,
       stack := if p.stack != [] && any then p.stack[|p.stack| - 1 := true] else p.stack,
       deepest := Max(p.deepest, if depth == 0 then 0 else |p.stack| + depth))
  }

  /** The comma that p owes before its next value. */
  function Owed(p: Printer): Text {
    Separator(p.stack == [] || !p.stack[|p.stack| - 1])
  }

  function KeyPart(key: Option<Text>): Text {
    if key.Some? then KeyText(key.value) else []
  }

  lemma BeginIs(p: Printer, key: Option<Text>)
    ensures p.BeginValue(key) == Inside(p, Owed(p) + KeyPart(key), 0, true)
  {
    assert p.text + Owed(p) + KeyPart(key) == p.text + (Owed(p) + KeyPart(key));
  }

  lemma Compose(p: Printer, a: Text, da: nat, x: bool, b: Text, db: nat, y: bool)
    ensures Inside(Inside(p, a, da, x), b, db, y) == Inside(p, a + b, Max(da, db), x || y)
  {
    assert p.text + a + b == p.text + (a + b);
  }

  /** A container around what was printed inside it. */
  lemma Enclose(p: Printer, key: Option<Text>, open: Byte, body: Text, depth: nat, any: bool, close: Byte)
    ensures Inside(p.Open(key, open), body, depth, any).Close(close)
            == Inside(p, Owed(p) + KeyPart(key) + ([open] + body + [close]), 1 + depth, true)
  {
    BeginIs(p, key);
    var lead := Owed(p) + KeyPart(key);
    assert p.text + lead + [open] + body + [close] == p.text + (lead + ([open] + body + [close]));
    var begun := p.BeginValue(key);
    var stack' := begun.stack + [false];
    assert stack'[..|stack'| - 1] == begun.stack;
    assert stack'[|stack'| - 1 := true][..|stack'| - 1] == begun.stack;
  }

  lemma Leaf(p: Printer, key: Option<Text>, text: Text)
    ensures p.Value(key, text) == Inside(p, Owed(p) + KeyPart(key) + text, 0, true)
  {
    BeginIs(p, key);
    assert p.text + (Owed(p) + KeyPart(key)) + text == p.text + (Owed(p) + KeyPart(key) + text);
  }

  /** The calls for a value print its text, after a comma and a key where they are due. */
  lemma {:induction false} EmitIsPrint(p: Printer, key: Option<Text>, t: Json)
    ensures Emit(p, key, t) == Inside(p, Owed(p) + KeyPart(key) + Print(t), Depth(t), true)
    decreases t
  {
    hide Inside, Owed, KeyPart, PrimitiveText, PrintElems, PrintMembers, DepthElems, DepthMembers, Quoted;
    if t.Arr? {
      Enclose(p, key, OPEN_BRACKET, PrintElems(t.elems, true), DepthElems(t.elems), t.elems != [], CLOSE_BRACKET);
      EmitElemsIsPrint(p.Open(key, OPEN_BRACKET), t.elems, true);
    } else if t.Obj? {
      Enclose(p, key, OPEN_BRACE, PrintMembers(t.members, true), DepthMembers(t.members), t.members != [], CLOSE_BRACE);
      EmitMembersIsPrint(p.Open(key, OPEN_BRACE), t.members, true);
    } else {
      Leaf(p, key, Print(t));
    }
  }

  lemma {:induction false} EmitElemsIsPrint(p: Printer, es: seq<Json>, first: bool)
    requires p.stack != [] && p.stack[|p.stack| - 1] == !first
    ensures EmitElems(p, es) == Inside(p, PrintElems(es, first), DepthElems(es), es != [])
    decreases es
  {
    if es != [] {
      var p' := Emit(p, None, es[0]);
      var head, tail := Separator(first) + Print(es[0]), PrintElems(es[1..], false);
      assert Owed(p) + KeyPart(None) + Print(es[0]) == head;
      assert PrintElems(es, first) == head + tail;
      EmitIsPrint(p, None, es[0]);
      assert p'.stack != [] && p'.stack[|p'.stack| - 1];
      EmitElemsIsPrint(p', es[1..], false);
      hide Print, PrintElems, Owed, KeyPart, Separator, Depth, Inside;
      Compose(p, head, Depth(es[0]), true, tail, DepthElems(es[1..]), es[1..] != []);
    }
  }

  lemma {:induction false} EmitMembersIsPrint(p: Printer, ms: seq<Member>, first: bool)
    requires p.stack != [] && p.stack[|p.stack| - 1] == !first
    ensures EmitMembers(p, ms) == Inside(p, PrintMembers(ms, first), DepthMembers(ms), ms != [])
    decreases ms
  {
    if ms != [] {
      var key, value := Some(ms[0].key), ms[0].value;
      var p' := Emit(p, key, value);
      var head, tail := Separator(first) + KeyText(ms[0].key) + Print(value), PrintMembers(ms[1..], false);
      assert Owed(p) + KeyPart(key) + Print(value) == head;
      assert PrintMembers(ms, first) == head + tail;
      EmitIsPrint(p, key, value);
      assert p'.stack != [] && p'.stack[|p'.stack| - 1];
      EmitMembersIsPrint(p', ms[1..], false);
      hide Print, PrintMembers, Owed, KeyPart, KeyText, Separator, Depth, Inside;
      Compose(p, head, Depth(value), true, tail, DepthMembers(ms[1..]), ms[1..] != []);
    }
  }

  // ---- Writing a tree through the bounded writer ----

  method WriteValue(w: Writer, key: Option<CStr>, t: Json)
    requires w.Valid()
    modifies w, w.buf
    ensures w.Valid() && w.ideal == Emit(old(w.ideal), key, t)
    decreases t, 1
  {
    match t
    case Str(s) => w.AddStr(key, s);
    case Arr(es) =>
      w.Begin(key, OPEN_BRACKET);
      WriteElems(w, es);
      w.End(CLOSE_BRACKET);
    case Obj(ms) =>
      w.Begin(key, OPEN_BRACE);
      WriteMembers(w, ms);
      w.End(CLOSE_BRACE);
    case Int(v) => w.AddInt(key, v);
    case Bool(b) => w.AddBool(key, b);
    case Null => w.AddLiteral(key, NULL);
  }

  method WriteElems(w: Writer, es: seq<Json>)
    requires w.Valid()
    modifies w, w.buf
    ensures w.Valid() && w.ideal == EmitElems(old(w.ideal), es)
    decreases es, 0
  {
    if es != [] {
      WriteValue(w, None, es[0]);
      WriteElems(w, es[1..]);
    }
  }

  method WriteMembers(w: Writer, ms: seq<Member>)
    requires w.Valid()
    modifies w, w.buf
    ensures w.Valid() && w.ideal == EmitMembers(old(w.ideal), ms)
    decreases ms, 0
  {
    if ms != [] {
      WriteValue(w, Some(ms[0].key), ms[0].value);
      WriteMembers(w, ms[1..]);
    }
  }

  /** The calls for a document print it on a blank printer. */
  lemma DocumentIsPrinted(t: Json)
    ensures Emit(BLANK, None, t).text == Print(t) && Emit(BLANK, None, t).deepest == Depth(t) && !Emit(BLANK, None, t).failed
  {
    EmitIsPrint(BLANK, None, t);
    assert Owed(BLANK) + KeyPart(None) + Print(t) == Print(t);
  }

  /**
   A document through the bounded writer: ok() exactly when its text is shorter than the buffer and it nests no
   deeper than 31, and then the buffer holds exactly the text.
   */
  method WriteDocument(buf: array<Byte>, t: Json) returns (ok: bool, len: nat)
    modifies buf
    ensures ok <==> |Print(t)| < buf.Length && Depth(t) <= 31
    ensures ok ==> len == |Print(t)| && buf[..len] == Print(t) && buf[len] == NUL
  {
    hide Print, Depth, Emit;
    var w := new Writer(buf);
    WriteValue(w, None, t);
    DocumentIsPrinted(t);
    ok, len := w.Ok(), w.pos;
  }
}
