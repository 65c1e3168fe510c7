/** sc_rpc::handle: the body published for a request, whatever the request and its handler do. */
module RpcHandler {
  import opened Bytes
  import opened Options
  import opened JsonText
  import opened JsonTree
  import opened JsonWriter
  import JsmnPrefix
  import JsmnSpec
  import JsonReader
  import RoundTrip

  const ERROR_MAX := 111
  const FAIL_MAX := 95
  const PARAM_TOKENS := 32
  const OK: CStr := [111, 107]
  const RESULT: CStr := [LOWER_R, LOWER_E, LOWER_S, LOWER_U, LOWER_L, LOWER_T]
  const ERROR: CStr := [LOWER_E, LOWER_R, LOWER_R, 111, LOWER_R]

  predicate NeedsNoEscape(t: Text) {
    forall i :: 0 <= i < |t| ==> t[i] >= 32 && t[i] != QUOTE && t[i] != BACKSLASH
  }

  /** What esp_err_to_name returns: a C identifier. */
  type ErrorName = t: Text | t != [] && NeedsNoEscape(t) witness [LOWER_F]

  /**
   What a handler did: the members it wrote into "result", the last message it gave to fail() as printed without
   a limit, and the name of the error it returned, None for ESP_OK.
   */
  datatype Outcome = Outcome(members: seq<Member>, failure: Option<CStr>, ret: Option<ErrorName>)

  datatype Request = Request(tooLarge: bool, name: CStr, payload: Text)

  /** fail(): never an empty message. */
  function FailText(t: Text): Text {
    if t == [] then Ascii("failed") else Cut(t, FAIL_MAX)
  }

  /** An empty payload means no parameters. */
  function Params(r: Request): Text {
    if r.payload == [] then [OPEN_BRACE, CLOSE_BRACE] else r.payload
  }

  function Success(members: seq<Member>): Json {
    Obj([Member(OK, Bool(true)), Member(RESULT, Obj(members))])
  }

  function Failed(error: Text): Json {
    Obj([Member(OK, Bool(false)), Member(ERROR, Str(error))])
  }

  predicate Printable(t: Json, size: nat) {
    |Print(t)| < size && Depth(t) <= MAX_DEPTH
  }

  /** The error text of a request, None when it succeeds. */
  ghost function ErrorOf(payloadMax: nat, size: nat, r: Request, known: bool, o: Outcome): (e: Option<Text>)
    ensures e.Some? ==> |e.value| <= ERROR_MAX
  {
    if r.tooLarge then Some(Cut(Ascii("request larger than ") + Decimal(payloadMax) + Ascii(" bytes"), ERROR_MAX))
    else if !known then Some(Cut(Ascii("unknown method ") + r.name, ERROR_MAX))
    else if !JsmnPrefix.Accepted(Params(r), PARAM_TOKENS) then Some(Ascii("params must be a JSON object"))
    else if o.failure.Some? then Some(FailText(o.failure.value))
    else if o.ret.Some? then Some(Cut(o.ret.value, ERROR_MAX))
    else if !Printable(Success(o.members), size) then
      Some(Cut(Ascii("result larger than ") + Decimal(size) + Ascii(" bytes"), ERROR_MAX))
    else None
  }

  ghost function Answer(payloadMax: nat, size: nat, r: Request, known: bool, o: Outcome): Json {
    match ErrorOf(payloadMax, size, r, known, o)
    case Some(e) => Failed(e)
    case None => Success(o.members)
  }

  lemma EmitFailed(error: Text)
    ensures Emit(BLANK, None, Failed(error))
            == BLANK.Open(None, OPEN_BRACE).Value(Some(OK), FALSE).Value(Some(ERROR), Quoted(error)).Close(CLOSE_BRACE)
  {
    EmitTwo(BLANK, Member(OK, Bool(false)), Member(ERROR, Str(error)));
  }

  lemma EmitSuccess(members: seq<Member>)
    ensures Emit(BLANK, None, Success(members))
            == EmitMembers(BLANK.Open(None, OPEN_BRACE).Value(Some(OK), TRUE).Open(Some(RESULT), OPEN_BRACE), members)
               .Close(CLOSE_BRACE).Close(CLOSE_BRACE)
  {
    EmitTwo(BLANK, Member(OK, Bool(true)), Member(RESULT, Obj(members)));
  }

  lemma EmitTwo(p: Printer, a: Member, b: Member)
    ensures Emit(p, None, Obj([a, b])) == Emit(Emit(p.Open(None, OPEN_BRACE), Some(a.key), a.value), Some(b.key), b.value).Close(CLOSE_BRACE)
  {
    var q := p.Open(None, OPEN_BRACE);
    var q' := Emit(q, Some(a.key), a.value);
    assert [a, b][1..] == [b] && [b][1..] == [];
    assert EmitMembers(q, [a, b]) == EmitMembers(q', [b]) == EmitMembers(Emit(q', Some(b.key), b.value), []);
  }

  // ---- handle() ----

  /** The success path: the handler writes into "result" of a document that is already open. */
  method RunHandler(w: Writer, members: seq<Member>)
    requires w.Valid() && w.ideal == BLANK
    modifies w, w.buf
    ensures w.Valid() && w.ideal == Emit(BLANK, None, Success(members))
  {
    hide Emit, EmitMembers, Printer.Open, Printer.Value, Printer.Close, Writer.Valid;
    EmitSuccess(members);
    w.Begin(None, OPEN_BRACE);
    w.AddBool(Some(OK), true);
    w.Begin(Some(RESULT), OPEN_BRACE);
    WriteMembers(w, members);
    w.End(CLOSE_BRACE);
    w.End(CLOSE_BRACE);
  }

  method WriteError(w: Writer, error: Text)
    requires w.Valid()
    modifies w, w.buf
    ensures w.Valid() && w.ideal == Emit(BLANK, None, Failed(error))
  {
    hide Emit, Quoted, Printer.Open, Printer.Value, Printer.Close, Writer.Valid;
    EmitFailed(error);
    w.Reset();
    w.Begin(None, OPEN_BRACE);
    w.AddBool(Some(OK), false);
    w.AddStr(Some(ERROR), error);
    w.End(CLOSE_BRACE);
  }

  /** sc_json_doc<32>::parse() of the parameters. */
  method CheckParams(r: Request) returns (ok: bool)
    ensures ok == JsmnPrefix.Accepted(Params(r), PARAM_TOKENS)
  {
    var params := new JsonReader.Reader(PARAM_TOKENS);
    var parsed := params.Parse(Params(r));
    return parsed == JsonReader.Ok;
  }

  /** The first half of handle(): the error text, empty if the handler succeeded and its result fitted. */
  method Attempt(out: Writer, payloadMax: nat, r: Request, known: bool, o: Outcome) returns (error: Text)
    requires out.Valid() && out.ideal == BLANK
    modifies out, out.buf
    ensures out.Valid()
    ensures match ErrorOf(payloadMax, out.buf.Length, r, known, o)
            case Some(e) => error == e && e != []
            case None => error == [] && out.ideal == Emit(BLANK, None, Success(o.members))
  {
    hide Decimal, Print, Depth, Emit, Ascii, Params, Writer.Valid;
    if r.tooLarge {
      return Cut(Ascii("request larger than ") + Decimal(payloadMax) + Ascii(" bytes"), ERROR_MAX);
    }
    if !known {
      return Cut(Ascii("unknown method ") + r.name, ERROR_MAX);
    }
    var ok := CheckParams(r);
    if !ok {
      return Ascii("params must be a JSON object");
    }
    RunHandler(out, o.members);
    var fits := Fits(out, Success(o.members));
    if o.failure.Some? {
      return FailText(o.failure.value);
    }
    if o.ret.Some? {
      return Cut(o.ret.value, ERROR_MAX);
    }
    if !fits {
      return Cut(Ascii("result larger than ") + Decimal(out.buf.Length) + Ascii(" bytes"), ERROR_MAX);
    }
    return [];
  }

  /** out.ok() after a document was written. */
  method Fits(out: Writer, t: Json) returns (ok: bool)
    requires out.Valid() && out.ideal == Emit(BLANK, None, t)
    ensures ok == Printable(t, out.buf.Length)
  {
    hide Print, Depth, Emit;
    DocumentIsPrinted(t);
    return out.Ok();
  }

  method Handle(respBuf: array<Byte>, payloadMax: nat, r: Request, known: bool, o: Outcome) returns (body: Text)
    modifies respBuf
    ensures IsBody(payloadMax, respBuf.Length, r, known, o, body)
  {
    hide Print, Depth, Emit;
    var out := new Writer(respBuf);
    var error := Attempt(out, payloadMax, r, known, o);
    ghost var t := Success(o.members);
    if error != [] {
      WriteError(out, error);
      FailedDepth(error);
      t := Failed(error);
    }
    body := Published(out, t);
    if error == [] {
      SuccessFits(payloadMax, respBuf.Length, r, known, o);
    }
  }

  /** What respond() is given: the part of the document that is in the buffer. */
  method Published(out: Writer, ghost t: Json) returns (body: Text)
    requires out.Valid() && out.ideal == Emit(BLANK, None, t)
    ensures body <= Print(t) && (out.buf.Length > 0 ==> |body| < out.buf.Length)
    ensures |Print(t)| < out.buf.Length && Depth(t) <= MAX_DEPTH ==> body == Print(t)
  {
    hide Print, Depth, Emit;
    DocumentIsPrinted(t);
    body := out.buf[..out.pos];
  }

  /** The published body is the answer's text, or as much of it as fits. */
  ghost predicate IsBody(payloadMax: nat, size: nat, r: Request, known: bool, o: Outcome, body: Text) {
    var t := Print(Answer(payloadMax, size, r, known, o));
    body <= t && (|t| < size ==> body == t) && (size > 0 ==> |body| < size)
  }

  lemma SuccessFits(payloadMax: nat, size: nat, r: Request, known: bool, o: Outcome)
    requires ErrorOf(payloadMax, size, r, known, o).None?
    ensures Printable(Success(o.members), size)
  {
  }

  lemma TwoMembers(a: Member, b: Member)
    ensures |Print(Obj([a, b]))| == |KeyText(a.key)| + |Print(a.value)| + |KeyText(b.key)| + |Print(b.value)| + 3
    ensures Depth(Obj([a, b])) == 1 + Max(Depth(a.value), Depth(b.value))
  {
    hide Print, KeyText, Depth;
    assert [a, b][1..] == [b] && [b][1..] == [];
    TwoPrinted(a, b);
    TwoDeep(a, b);
  }

  lemma TwoPrinted(a: Member, b: Member)
    ensures |Print(Obj([a, b]))| == |KeyText(a.key)| + |Print(a.value)| + |KeyText(b.key)| + |Print(b.value)| + 3
  {
    hide KeyText;
    assert [a, b][1..] == [b] && [b][1..] == [];
    assert PrintMembers([a, b], true) == KeyText(a.key) + Print(a.value) + PrintMembers([b], false);
    assert PrintMembers([b], false) == [COMMA] + KeyText(b.key) + Print(b.value) + PrintMembers([], false);
  }

  lemma TwoDeep(a: Member, b: Member)
    ensures Depth(Obj([a, b])) == 1 + Max(Depth(a.value), Depth(b.value))
  {
    assert [a, b][1..] == [b] && [b][1..] == [];
    assert DepthMembers([a, b]) == Max(Depth(a.value), DepthMembers([b]));
    assert DepthMembers([b]) == Max(Depth(b.value), DepthMembers([]));
  }

  lemma FailedDepth(error: Text)
    ensures Depth(Failed(error)) == 1
  {
    TwoDeep(Member(OK, Bool(false)), Member(ERROR, Str(error)));
  }

  // ---- When the body is a whole document ----

  const FIXED_BYTES := 23

  /** {"ok":false,"error":"..."} is 23 bytes and the escaped error. */
  lemma FailedLength(error: Text)
    ensures |Print(Failed(error))| == 23 + |Escape(error)|
    ensures |Escape(error)| <= 6 * |error|
  {
    hide KeyText;
    EscapeLength(error);
    KeyLength();
    TwoPrinted(Member(OK, Bool(false)), Member(ERROR, Str(error)));
    assert |Print(Bool(false))| == 5 && |Print(Str(error))| == 2 + |Escape(error)|;
  }

  lemma KeyLength()
    ensures |KeyText(OK)| == 5 && |KeyText(ERROR)| == 8
  {
    PlainLength(OK);
    PlainLength(ERROR);
  }

  lemma {:induction false} PlainLength(t: Text)
    requires NeedsNoEscape(t)
    ensures |Escape(t)| == |t|
  {
    if t != [] {
      PlainLength(t[1..]);
    }
  }

  lemma {:induction false} ControlLength(t: Text)
    requires forall i :: 0 <= i < |t| ==> t[i] == 1
    ensures |Escape(t)| == 6 * |t|
  {
    if t != [] {
      ControlLength(t[1..]);
    }
  }

  const NAME_MAX := 47
  const INT_MAX := 0x7FFF_FFFF

  lemma DecimalLength(n: nat)
    requires n <= INT_MAX
    ensures |Decimal(n)| <= 10
  {
    assert Pow10(10) > n;
    DigitsLength(n, 10);
  }

  /** The longest error text is a fail() message of 95 bytes that all need an escape of six. */
  lemma EscapedErrorLength(payloadMax: nat, size: nat, r: Request, known: bool, o: Outcome)
    requires payloadMax <= INT_MAX && size <= INT_MAX && |r.name| <= NAME_MAX
    ensures var e := ErrorOf(payloadMax, size, r, known, o);
            e.Some? ==> |Escape(e.value)| <= 6 * FAIL_MAX
  {
    hide Escape, Ascii;
    var e := ErrorOf(payloadMax, size, r, known, o);
    DecimalLength(payloadMax);
    DecimalLength(size);
    if e.Some? {
      EscapeLength(e.value);
      if |e.value| > FAIL_MAX {
        PlainLength(e.value);
      }
    }
  }

  ghost predicate AlwaysComplete(payloadMax: nat, size: nat) {
    forall r: Request, known: bool, o: Outcome :: |r.name| <= NAME_MAX ==> |Print(Answer(payloadMax, size, r, known, o))| < size
  }

  /**
   Every body is a whole document, whatever the request and the handler do, exactly when the response buffer has at
   least 594 bytes. The configuration allows 256.
   */
  lemma AlwaysCompleteIff(payloadMax: nat, size: nat)
    requires payloadMax <= INT_MAX && size <= INT_MAX
    ensures AlwaysComplete(payloadMax, size) <==> size >= 594
  {
    hide Print, Escape;
    if size > FIXED_BYTES + 6 * FAIL_MAX {
      forall r: Request, known: bool, o: Outcome | |r.name| <= NAME_MAX
        ensures |Print(Answer(payloadMax, size, r, known, o))| < size
      {
        EscapedErrorLength(payloadMax, size, r, known, o);
        var e := ErrorOf(payloadMax, size, r, known, o);
        if e.Some? {
          FailedLength(e.value);
        }
      }
    } else {
      LongestError(payloadMax, size);
    }
  }

  lemma LongestError(payloadMax: nat, size: nat)
    ensures exists r: Request, known: bool, o: Outcome ::
              |r.name| <= NAME_MAX && |Print(Answer(payloadMax, size, r, known, o))| == FIXED_BYTES + 6 * FAIL_MAX
  {
    var message: CStr := seq(FAIL_MAX, i => 1);
    var r, o := Request(false, [], []), Outcome([], Some(message), None);
    NoParams();
    ControlLength(message);
    FailedLength(message);
    assert ErrorOf(payloadMax, size, r, true, o) == Some(message);
    assert |Print(Answer(payloadMax, size, r, true, o))| == FIXED_BYTES + 6 * FAIL_MAX;
  }

  lemma NoParams()
    ensures JsmnPrefix.Accepted([OPEN_BRACE, CLOSE_BRACE], PARAM_TOKENS)
  {
    WholeDocument(Obj([]));
    assert Print(Obj([])) == [OPEN_BRACE, CLOSE_BRACE];
  }

  /**
   In any buffer: the published part of an answer is accepted by a JSON reader with tokens enough exactly when it
   is all of it, that is, for an error e exactly when its escaped text leaves room for 23 bytes and the NUL.
   */
  lemma CutBodyIsNoDocument(error: Text, size: nat, body: Text, cap: nat)
    requires body <= Print(Failed(error)) && |body| < size && cap >= |RoundTrip.Layout(Failed(error), 0)|
    requires |Print(Failed(error))| < size ==> body == Print(Failed(error))
    ensures JsmnPrefix.Accepted(body, cap) <==> 23 + |Escape(error)| < size
  {
    var t, js := Failed(error), Print(Failed(error));
    FailedLength(error);
    RoundTrip.DocumentParses(t, cap);
    WholeDocument(t);
    if JsmnPrefix.Accepted(body, cap) {
      JsmnPrefix.AcceptedPrefixIsWhole(body, js, cap);
    }
  }

  /** A written object ends with the byte that closes it. */
  lemma WholeDocument(t: Json)
    requires t.Obj?
    ensures JsmnPrefix.ClosesAtEnd(Print(t))
    ensures forall cap: nat :: cap >= |RoundTrip.Layout(t, 0)| ==> JsmnPrefix.Accepted(Print(t), cap)
  {
    var n := |RoundTrip.Layout(t, 0)|;
    RoundTrip.DocumentParses(t, n);
    assert JsmnPrefix.EndsWithRoot(Print(t), n);
    forall cap: nat | cap >= n ensures JsmnPrefix.Accepted(Print(t), cap) {
      RoundTrip.DocumentParses(t, cap);
    }
  }
}
