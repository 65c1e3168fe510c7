/** The published answer as the platform's reader sees it, told from the request and the handler's outcome alone. */
module RpcAnswer {
  import opened Bytes
  import opened Options
  import opened JsonText
  import opened JsonTree
  import opened RpcHandler
  import opened JsmnForest
  import opened RoundTrip
  import JsmnPrefix
  import JsmnSpec
  import JsonReader
  import R = ReadBack

  /** "ok", "result" and "error". */
  const OK_KEY: Text := [111, 107]
  const RESULT_KEY: Text := [114, 101, 115, 117, 108, 116]
  const ERROR_KEY: Text := [101, 114, 114, 111, 114]

  /** The parameters are a JSON object of at most 32 tokens; none at all count as an empty one. */
  ghost predicate ParamsOk(r: Request) {
    r.payload == [] || JsmnPrefix.Accepted(r.payload, 32)
  }

  /** {"ok":true,"result":...} is 21 bytes longer and one level deeper than the result. */
  predicate ResultFits(members: seq<Member>, size: nat) {
    |Print(Obj(members))| + 21 < size && Depth(Obj(members)) < 31
  }

  /** Everything went well. */
  ghost predicate Succeeds(size: nat, r: Request, known: bool, o: Outcome) {
    !r.tooLarge && known && ParamsOk(r) && o.failure == None && o.ret == None && ResultFits(o.members, size)
  }

  /** What went wrong first. */
  ghost predicate Explains(payloadMax: nat, size: nat, r: Request, known: bool, o: Outcome, error: Text) {
    if r.tooLarge then error == Cut(Ascii("request larger than ") + Decimal(payloadMax) + Ascii(" bytes"), 111)
    else if !known then error == Cut(Ascii("unknown method ") + r.name, 111)
    else if !ParamsOk(r) then error == Ascii("params must be a JSON object")
    else if o.failure.Some? then error == if o.failure.value == [] then Ascii("failed") else Cut(o.failure.value, 95)
    else if o.ret.Some? then error == Cut(o.ret.value, 111)
    else error == Cut(Ascii("result larger than ") + Decimal(size) + Ascii(" bytes"), 111)
  }

  lemma {:induction false} NoEscapeIsPlain(t: Text)
    requires NeedsNoEscape(t)
    ensures Plain(t)
  {
    if t != [] {
      NoEscapeIsPlain(t[1..]);
    }
  }

  lemma EmptyParams(r: Request)
    ensures JsmnPrefix.Accepted(Params(r), PARAM_TOKENS) <==> ParamsOk(r)
  {
    NoParams();
  }

  lemma SuccessIs(members: seq<Member>, size: nat)
    ensures Printable(Success(members), size) <==> ResultFits(members, size)
  {
    hide Print, Depth, KeyText;
    TwoMembers(Member(OK, Bool(true)), Member(RESULT, Obj(members)));
    SmallParts();
  }

  lemma SmallParts()
    ensures |KeyText(OK)| == 5 && |KeyText(RESULT)| == 9 && |Print(Bool(true))| == 4 && Depth(Bool(true)) == 0
  {
    PlainLength(OK);
    PlainLength(RESULT);
  }

  /** Which of the two answers it is. */
  lemma AnswerIs(payloadMax: nat, size: nat, r: Request, known: bool, o: Outcome) returns (error: Text)
    ensures Succeeds(size, r, known, o) ==> Answer(payloadMax, size, r, known, o) == Success(o.members)
    ensures !Succeeds(size, r, known, o) ==> Answer(payloadMax, size, r, known, o) == Failed(error)
                                             && Explains(payloadMax, size, r, known, o, error)
  {
    hide Printable, ResultFits, Ascii, Decimal;
    EmptyParams(r);
    SuccessIs(o.members, size);
    var e := ErrorOf(payloadMax, size, r, known, o);
    error := if e.Some? then e.value else [];
  }

  /** A body that a reader accepts is all of the answer, and its tokens are those of the answer's tree. */
  lemma WholeBody(payloadMax: nat, size: nat, r: Request, known: bool, o: Outcome, body: Text, cap: nat)
    requires IsBody(payloadMax, size, r, known, o, body) && JsmnPrefix.Accepted(body, cap)
    ensures var t := Answer(payloadMax, size, r, known, o);
            body == Print(t) && t.Obj? && JsmnSpec.Tokenize(body, cap) == JsmnSpec.Tokens(RoundTrip.Layout(t, 0))
  {
    hide Print, RoundTrip.Layout, ErrorOf, JsmnSpec.Run;
    var t := Answer(payloadMax, size, r, known, o);
    WholeDocument(t);
    JsmnPrefix.AcceptedPrefixIsWhole(body, Print(t), cap);
    DocumentParses(t, cap);
  }

  lemma FollowPair(a: Member, b: Member, path: seq<Text>)
    requires a.key != b.key && path != []
    ensures path[0] == a.key ==> Follow(Obj([a, b]), path) == Follow(a.value, path[1..])
    ensures path[0] == b.key ==> Follow(Obj([a, b]), path) == Follow(b.value, path[1..])
  {
    assert [a, b][1..] == [b] && [b][1..] == [];
    assert Get([a, b], path[0]) == if a.key == path[0] then Some(a.value) else Get([b], path[0]);
  }

  lemma FindFirst(js: Text, toks: seq<JsmnSpec.Token>, par: seq<int>, key: Text)
    requires IsDocument(js, toks, par)
    ensures R.FindPath(js, toks, par, 0, [key]) == JsonReader.FindSpec(js, toks, par, 0, key)
  {
    assert [key][1..] == [];
    var v := JsonReader.FindSpec(js, toks, par, 0, key);
    assert R.FindPath(js, toks, par, v, []) == v;
  }

  /** The value under one key of a document that was written. */
  lemma ReadsUnder(doc: Json, par: seq<int>, key: Text, value: Json)
    requires doc.Obj? && IsDocument(Print(doc), Layout(doc, 0), par) && NeedsNoEscape(key) && Follow(doc, [key]) == Some(value)
    ensures ReadsBack(Print(doc), Layout(doc, 0), JsonReader.FindSpec(Print(doc), Layout(doc, 0), par, 0, key), Some(value))
  {
    hide Print, Layout, IsDocument, ReadsBack, Follow, R.FindPath, JsonReader.FindSpec, Plain;
    NoEscapeIsPlain(key);
    WrittenIsRead(doc, par, [key]);
    FindFirst(Print(doc), Layout(doc, 0), par, key);
  }

  lemma BoolUnder(doc: Json, par: seq<int>, key: Text, b: bool)
    requires doc.Obj? && IsDocument(Print(doc), Layout(doc, 0), par) && NeedsNoEscape(key) && Follow(doc, [key]) == Some(Bool(b))
    ensures JsonReader.BoolSpec(Print(doc), Layout(doc, 0), JsonReader.FindSpec(Print(doc), Layout(doc, 0), par, 0, key)) == Some(b)
  {
    hide Print, Layout, IsForest, Follow, JsonReader.FindSpec, JsonReader.BoolSpec, JsonReader.StrSpec, JsonReader.IntSpec;
    ReadsUnder(doc, par, key, Bool(b));
  }

  lemma StrUnder(doc: Json, par: seq<int>, key: Text, s: Text)
    requires doc.Obj? && IsDocument(Print(doc), Layout(doc, 0), par) && NeedsNoEscape(key) && Follow(doc, [key]) == Some(Str(s))
    ensures JsonReader.StrSpec(Print(doc), Layout(doc, 0), JsonReader.FindSpec(Print(doc), Layout(doc, 0), par, 0, key)) == Some(s)
  {
    hide Print, Layout, IsForest, Follow, JsonReader.FindSpec, JsonReader.BoolSpec, JsonReader.StrSpec, JsonReader.IntSpec;
    ReadsUnder(doc, par, key, Str(s));
  }

  lemma FollowOne(a: Member, b: Member, key: Text)
    requires a.key != b.key
    ensures key == a.key ==> Follow(Obj([a, b]), [key]) == Some(a.value)
    ensures key == b.key ==> Follow(Obj([a, b]), [key]) == Some(b.value)
  {
    FollowPair(a, b, [key]);
    assert [key][1..] == [];
  }

  /** A reader with room for the answer's tokens. */
  ghost predicate Read(body: Text, cap: nat, toks: seq<JsmnSpec.Token>, par: seq<int>) {
    JsmnPrefix.Accepted(body, cap) && JsmnSpec.Tokenize(body, cap) == JsmnSpec.Tokens(toks) && IsDocument(body, toks, par)
  }

  /**
   What the platform reads. In a published body that a reader accepts, "ok" is true exactly when the request was taken
   whole, its method is known, its parameters are an object, the handler neither failed nor returned an error and its
   result fits; "result" is then an object from which every written member reads back along any keys. Otherwise "ok" is
   false and "error" says what went wrong first: the handler's own message, and the name of its error if it gave none.
   */
  lemma AnswerReads(payloadMax: nat, size: nat, r: Request, known: bool, o: Outcome, body: Text, cap: nat,
                    toks: seq<JsmnSpec.Token>, par: seq<int>, path: seq<Text>)
    returns (error: Text)
    requires IsBody(payloadMax, size, r, known, o, body) && Read(body, cap, toks, par)
    requires forall k :: 0 <= k < |path| ==> Plain(path[k])
    ensures var ok := JsonReader.FindSpec(body, toks, par, 0, OK_KEY);
            JsonReader.BoolSpec(body, toks, ok) == Some(Succeeds(size, r, known, o))
    ensures Succeeds(size, r, known, o) ==>
              ReadsBack(body, toks, R.FindPath(body, toks, par, 0, [RESULT_KEY] + path), Follow(Obj(o.members), path))
    ensures !Succeeds(size, r, known, o) ==>
              var tok := JsonReader.FindSpec(body, toks, par, 0, ERROR_KEY);
              JsonReader.StrSpec(body, toks, tok) == Some(error) && Explains(payloadMax, size, r, known, o, error)
  {
    hide Print, Layout, Answer, IsBody, IsDocument, Succeeds, Explains, Follow, R.FindPath, JsonReader.FindSpec, JsonReader.BoolSpec,
      JsonReader.StrSpec, JsonReader.IntSpec, JsmnSpec.Tokenize, Plain;
    error := AnswerIs(payloadMax, size, r, known, o);
    WholeBody(payloadMax, size, r, known, o, body, cap);
    if Succeeds(size, r, known, o) {
      SuccessReads(o.members, par, path);
    } else {
      FailureReads(error, par);
    }
  }

  lemma SuccessFollows(members: seq<Member>, path: seq<Text>)
    ensures Success(members).Obj? && Follow(Success(members), [OK_KEY]) == Some(Bool(true))
    ensures Follow(Success(members), [RESULT_KEY] + path) == Follow(Obj(members), path)
  {
    hide Follow;
    var a, b := Member(OK, Bool(true)), Member(RESULT, Obj(members));
    FollowOne(a, b, OK_KEY);
    FollowPair(a, b, [RESULT_KEY] + path);
    assert ([RESULT_KEY] + path)[1..] == path;
  }

  lemma FailureFollows(error: Text)
    ensures Failed(error).Obj? && Follow(Failed(error), [OK_KEY]) == Some(Bool(false)) && Follow(Failed(error), [ERROR_KEY]) == Some(Str(error))
  {
    hide Follow;
    var a, b := Member(OK, Bool(false)), Member(ERROR, Str(error));
    FollowOne(a, b, OK_KEY);
    FollowOne(a, b, ERROR_KEY);
  }

  lemma SuccessReads(members: seq<Member>, par: seq<int>, path: seq<Text>)
    requires var doc := Success(members); IsDocument(Print(doc), Layout(doc, 0), par)
    requires forall k :: 0 <= k < |path| ==> Plain(path[k])
    ensures var js, toks := Print(Success(members)), Layout(Success(members), 0);
            && JsonReader.BoolSpec(js, toks, JsonReader.FindSpec(js, toks, par, 0, OK_KEY)) == Some(true)
            && ReadsBack(js, toks, R.FindPath(js, toks, par, 0, [RESULT_KEY] + path), Follow(Obj(members), path))
  {
    hide Print, Layout, IsDocument, Follow, R.FindPath, JsonReader.FindSpec, JsonReader.BoolSpec, Plain, ReadsBack, Success;
    SuccessFollows(members, path);
    BoolUnder(Success(members), par, OK_KEY, true);
    NoEscapeIsPlain(RESULT_KEY);
    assert forall k :: 0 <= k < |[RESULT_KEY] + path| ==> Plain(([RESULT_KEY] + path)[k]);
    WrittenIsRead(Success(members), par, [RESULT_KEY] + path);
  }

  lemma FailureReads(error: Text, par: seq<int>)
    requires var doc := Failed(error); IsDocument(Print(doc), Layout(doc, 0), par)
    ensures var js, toks := Print(Failed(error)), Layout(Failed(error), 0);
            && JsonReader.BoolSpec(js, toks, JsonReader.FindSpec(js, toks, par, 0, OK_KEY)) == Some(false)
            && JsonReader.StrSpec(js, toks, JsonReader.FindSpec(js, toks, par, 0, ERROR_KEY)) == Some(error)
  {
    hide Print, Layout, IsDocument, Follow, R.FindPath, JsonReader.FindSpec, JsonReader.BoolSpec, JsonReader.StrSpec, ReadsBack, Failed;
    FailureFollows(error);
    BoolUnder(Failed(error), par, OK_KEY, false);
    StrUnder(Failed(error), par, ERROR_KEY, error);
  }
}
