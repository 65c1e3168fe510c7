/**
 The strict jsmn tokenizer as a state machine on values: one `Step` is one turn
 of the main loop of jsmn_parse. The imperative parser of JsmnParser.dfy is
 proved equal to `Run`; the theorems about the tokenizer are about `Run`.
 */
module JsmnSpec {
  import opened Bytes

  datatype Kind = Object | Array | String | Primitive

  datatype Token = Token(kind: Kind, start: int, end: int, size: nat)

  datatype Error = NoMemory | Invalid | Partial

  /** `toks` are the tokens allocated so far, `super` is toksuper. */
  datatype State = State(pos: nat, toks: seq<Token>, super: int)

  datatype Outcome = Fail(error: Error) | Continue(st: State)

  datatype Result = Failure(error: Error) | Tokens(toks: seq<Token>)

  datatype Scan = Found(at: nat) | Bad(error: Error)

  const INIT := State(0, [], -1)

  predicate IsOpen(t: Token) {
    t.start != -1 && t.end == -1
  }

  predicate IsContainer(t: Token) {
    t.kind == Object || t.kind == Array
  }

  predicate Valid(st: State) {
    -1 <= st.super < |st.toks|
  }

  /** The greatest index below `n` of a token that is still open, or -1. */
  function LastOpen(toks: seq<Token>, n: nat): (i: int)
    requires n <= |toks|
    ensures -1 <= i < n
    ensures i >= 0 ==> IsOpen(toks[i])
    ensures forall k :: i < k < n ==> !IsOpen(toks[k])
  {
    if n == 0 then -1
    else if IsOpen(toks[n - 1]) then n - 1
    else LastOpen(toks, n - 1)
  }

  /** The same, among objects and arrays only (the search of the comma case). */
  function LastOpenContainer(toks: seq<Token>, n: nat): (i: int)
    requires n <= |toks|
    ensures -1 <= i < n
    ensures i >= 0 ==> IsOpen(toks[i]) && IsContainer(toks[i])
    ensures forall k :: i < k < n ==> !(IsOpen(toks[k]) && IsContainer(toks[k]))
  {
    if n == 0 then -1
    else if IsContainer(toks[n - 1]) && IsOpen(toks[n - 1]) then n - 1
    else LastOpenContainer(toks, n - 1)
  }

  /** Hex digits at `p`, at most `n`, cut short by the end of the text: how many, or -1 for a wrong character. */
  function HexRun(js: Text, p: nat, n: nat): (k: int)
    ensures -1 <= k <= n
    ensures k >= 0 ==> p + k <= |js| || k == 0
    ensures k > 0 ==> p + k <= |js|
    decreases n
  {
    if n == 0 || p >= |js| || js[p] == NUL then 0
    else if !IsHexDigit(js[p]) then -1
    else
      var k := HexRun(js, p + 1, n - 1);
      if k < 0 then -1 else k + 1
  }

  predicate IsSimpleEscape(c: Byte) {
    c == QUOTE || c == SLASH || c == BACKSLASH || c == LOWER_B || c == LOWER_F || c == LOWER_R || c == LOWER_N || c == LOWER_T
  }

  /** The closing quote of a string whose contents are scanned from `p` on. */
  function StringEnd(js: Text, p: nat): (r: Scan)
    ensures r.Found? ==> p <= r.at < |js| && js[r.at] == QUOTE
    ensures r.Bad? ==> r.error != NoMemory
    decreases |js| - p
  {
    if p >= |js| || js[p] == NUL then Bad(Partial)
    else if js[p] == QUOTE then Found(p)
    else if js[p] == BACKSLASH && p + 1 < |js| then
      if IsSimpleEscape(js[p + 1]) then StringEnd(js, p + 2)
      else if js[p + 1] == LOWER_U then
        var k := HexRun(js, p + 2, 4);
        if k < 0 then Bad(Invalid) else StringEnd(js, p + 2 + k)
      else Bad(Invalid)
    else StringEnd(js, p + 1)
  }

  predicate EndsPrimitive(c: Byte) {
    IsWhitespace(c) || c == COMMA || c == CLOSE_BRACKET || c == CLOSE_BRACE
  }

  predicate IsPrintable(c: Byte) {
    32 <= c < 127
  }

  /** The delimiter that ends a primitive scanned from `p` on. */
  function PrimitiveEnd(js: Text, p: nat): (r: Scan)
    ensures r.Found? ==> p <= r.at < |js| && EndsPrimitive(js[r.at]) && forall i :: p <= i < r.at ==> !EndsPrimitive(js[i]) && IsPrintable(js[i])
    ensures r.Bad? ==> r.error != NoMemory
    decreases |js| - p
  {
    if p >= |js| || js[p] == NUL then Bad(Partial)
    else if EndsPrimitive(js[p]) then Found(p)
    else if !IsPrintable(js[p]) then Bad(Invalid)
    else PrimitiveEnd(js, p + 1)
  }

  predicate StartsPrimitive(c: Byte) {
    c == MINUS || IsDigit(c) || c == LOWER_T || c == LOWER_F || c == LOWER_N
  }

  /** One more child for token `i`; nothing for -1. */
  function Grow(toks: seq<Token>, i: int): (r: seq<Token>)
    requires -1 <= i < |toks|
    ensures |r| == |toks|
  {
    if i == -1 then toks else toks[i := toks[i].(size := toks[i].size + 1)]
  }

  function StepOpen(cap: nat, st: State, kind: Kind): (r: Outcome)
    requires Valid(st)
  {
    if |st.toks| >= cap then Fail(NoMemory)
    else if st.super != -1 && st.toks[st.super].kind == Object then Fail(Invalid)
    else Continue(State(st.pos + 1, Grow(st.toks, st.super) + [Token(kind, st.pos, -1, 0)], |st.toks|))
  }

  function StepClose(st: State, kind: Kind): (r: Outcome)
  {
    var i := LastOpen(st.toks, |st.toks|);
    if i == -1 || st.toks[i].kind != kind then Fail(Invalid)
    else Continue(State(st.pos + 1, st.toks[i := st.toks[i].(end := st.pos + 1)], LastOpen(st.toks, i)))
  }

  function StepString(js: Text, cap: nat, st: State): (r: Outcome)
    requires Valid(st)
  {
    match StringEnd(js, st.pos + 1)
    case Bad(e) => Fail(e)
    case Found(q) =>
      if |st.toks| >= cap then Fail(NoMemory)
      else Continue(State(q + 1, Grow(st.toks, st.super) + [Token(String, st.pos + 1, q, 0)], st.super))
  }

  function StepPrimitive(js: Text, cap: nat, st: State): (r: Outcome)
    requires Valid(st)
  {
    if st.super != -1 && (st.toks[st.super].kind == Object || (st.toks[st.super].kind == String && st.toks[st.super].size != 0)) then
      Fail(Invalid)
    else match PrimitiveEnd(js, st.pos)
      case Bad(e) => Fail(e)
      case Found(q) =>
        if |st.toks| >= cap then Fail(NoMemory)
        else Continue(State(q, Grow(st.toks, st.super) + [Token(Primitive, st.pos, q, 0)], st.super))
  }

  function StepComma(st: State): (r: State)
    requires Valid(st)
  {
    if st.super != -1 && !IsContainer(st.toks[st.super]) then
      var i := LastOpenContainer(st.toks, |st.toks|);
      State(st.pos + 1, st.toks, if i == -1 then st.super else i)
    else st.(pos := st.pos + 1)
  }

  predicate AtEnd(js: Text, st: State) {
    st.pos >= |js| || js[st.pos] == NUL
  }

  /** One turn of jsmn_parse's loop, its `pos++` included. */
  function Step(js: Text, cap: nat, st: State): (r: Outcome)
    requires Valid(st) && !AtEnd(js, st)
    ensures r.Continue? ==> Valid(r.st) && st.pos < r.st.pos <= |js|
  {
    var c := js[st.pos];
    if c == OPEN_BRACE then StepOpen(cap, st, Object)
    else if c == OPEN_BRACKET then StepOpen(cap, st, Array)
    else if c == CLOSE_BRACE then StepClose(st, Object)
    else if c == CLOSE_BRACKET then StepClose(st, Array)
    else if c == QUOTE then StepString(js, cap, st)
    else if IsWhitespace(c) then Continue(st.(pos := st.pos + 1))
    else if c == COLON then Continue(State(st.pos + 1, st.toks, |st.toks| - 1))
    else if c == COMMA then Continue(StepComma(st))
    else if StartsPrimitive(c) then StepPrimitive(js, cap, st)
    else Fail(Invalid)
  }

  function Finish(st: State): Result {
    if LastOpen(st.toks, |st.toks|) != -1 then Failure(Partial) else Tokens(st.toks)
  }

  function Run(js: Text, cap: nat, st: State): Result
    requires Valid(st)
    decreases |js| - st.pos
  {
    if AtEnd(js, st) then Finish(st)
    else match Step(js, cap, st)
      case Fail(e) => Failure(e)
      case Continue(st') => Run(js, cap, st')
  }

  function Tokenize(js: Text, cap: nat): Result {
    Run(js, cap, INIT)
  }
}
