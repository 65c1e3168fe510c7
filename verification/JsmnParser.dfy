/** The jsmn parser as it is written: a position and a caller-owned token array updated in place. */
module JsmnParser {
  import opened Bytes
  import opened JsmnSpec

  const ERROR_NOMEM := -1
  const ERROR_INVAL := -2
  const ERROR_PART := -3

  function Code(e: Error): int {
    match e
    case NoMemory => ERROR_NOMEM
    case Invalid => ERROR_INVAL
    case Partial => ERROR_PART
  }

  /** What jsmn_parse returns: the token count, or a negative error. */
  function ReturnCode(r: Result): int {
    match r
    case Failure(e) => Code(e)
    case Tokens(toks) => |toks|
  }

  /** Closing a token and searching on from it is searching below it. */
  lemma ClosedIsSkipped(toks: seq<Token>, i: nat, end: nat)
    requires i < |toks|
    ensures LastOpen(toks[i := toks[i].(end := end)], i + 1) == LastOpen(toks, i)
  {
    var toks' := toks[i := toks[i].(end := end)];
    SameBelow(toks, toks', i);
  }

  lemma {:induction false} SameBelow(toks: seq<Token>, toks': seq<Token>, n: nat)
    requires n <= |toks| && n <= |toks'| && toks[..n] == toks'[..n]
    ensures LastOpen(toks, n) == LastOpen(toks', n)
  {
    if n > 0 {
      assert toks[n - 1] == toks[..n][n - 1] == toks'[..n][n - 1];
      assert toks[..n - 1] == toks[..n][..n - 1] && toks'[..n - 1] == toks'[..n][..n - 1];
      SameBelow(toks, toks', n - 1);
    }
  }

  class Parser {
    var pos: nat
    var toknext: nat
    var toksuper: int
    const js: Text
    const tokens: array<Token>

    ghost predicate Valid()
      reads this, tokens
    {
      pos <= |js| && toknext <= tokens.Length && JsmnSpec.Valid(View())
    }

    /** The allocated tokens and the parser's registers, as a value. */
    ghost function View(): State
      reads this, tokens
      requires toknext <= tokens.Length
    {
      State(pos, tokens[..toknext], toksuper)
    }

    constructor (js: Text, tokens: array<Token>)
      ensures Valid() && View() == INIT
      ensures this.js == js && this.tokens == tokens
    {
      pos, toknext, toksuper := 0, 0, -1;
      this.js, this.tokens := js, tokens;
    }

    /** Append one token; false when the array is full. */
    method Alloc(t: Token) returns (ok: bool)
      requires Valid()
      modifies this`toknext, tokens
      ensures ok == (old(toknext) < tokens.Length)
      ensures !ok ==> toknext == old(toknext) && tokens[..] == old(tokens[..])
      ensures ok ==> toknext == old(toknext) + 1 && tokens[..toknext] == old(tokens[..toknext]) + [t]
    {
      if toknext >= tokens.Length {
        return false;
      }
      tokens[toknext] := t;
      toknext := toknext + 1;
      return true;
    }

    /** The `tokens[toksuper].size++` for the token just allocated. */
    method CountChild()
      requires 0 < toknext <= tokens.Length && -1 <= toksuper < toknext - 1
      modifies tokens
      ensures tokens[..toknext] == Grow(old(tokens[..toknext - 1]), toksuper) + [old(tokens[toknext - 1])]
    {
      if toksuper != -1 {
        tokens[toksuper] := tokens[toksuper].(size := tokens[toksuper].size + 1);
      }
    }

    method ParsePrimitive() returns (r: int)
      requires Valid() && !AtEnd(js, View()) && StartsPrimitive(js[pos])
      modifies this`pos, this`toknext, tokens
      ensures match PrimitiveEnd(js, old(pos))
              case Bad(e) => r == Code(e)
              case Found(q) =>
                if old(toknext) >= tokens.Length then r == ERROR_NOMEM
                else r == 0 && pos == q - 1 && toknext == old(toknext) + 1
                     && tokens[..toknext] == old(tokens[..toknext]) + [Token(Primitive, old(pos), q, 0)]
      ensures r < 0 ==> pos == old(pos) && toknext == old(toknext)
    {
      var start := pos;
      while pos < |js| && js[pos] != NUL && !EndsPrimitive(js[pos])
        invariant start <= pos <= |js| && toknext == old(toknext) && toksuper == old(toksuper) && tokens[..] == old(tokens[..])
        invariant PrimitiveEnd(js, pos) == PrimitiveEnd(js, start)
      {
        if !IsPrintable(js[pos]) {
          pos := start;
          return ERROR_INVAL;
        }
        pos := pos + 1;
      }
      if pos >= |js| || js[pos] == NUL {
        pos := start;
        return ERROR_PART;
      }
      var ok := Alloc(Token(Primitive, start, pos, 0));
      if !ok {
        pos := start;
        return ERROR_NOMEM;
      }
      pos := pos - 1;
      return 0;
    }

    /** The four hex digits of a \u escape, the position just after the 'u'. */
    method SkipHex() returns (ok: bool)
      requires pos <= |js|
      modifies this`pos
      ensures ok == (HexRun(js, old(pos), 4) >= 0)
      ensures ok ==> pos == old(pos) + HexRun(js, old(pos), 4) && pos <= |js|
    {
      var i := 0;
      while i < 4 && pos < |js| && js[pos] != NUL
        invariant 0 <= i <= 4 && pos == old(pos) + i && pos <= |js|
        invariant HexRun(js, old(pos), 4) == if HexRun(js, pos, 4 - i) < 0 then -1 else i + HexRun(js, pos, 4 - i)
      {
        if !IsHexDigit(js[pos]) {
          return false;
        }
        pos := pos + 1;
        i := i + 1;
      }
      return true;
    }

    /** A backslash and what it escapes, up to the last byte of the escape. */
    method SkipEscape() returns (ok: bool)
      requires pos + 1 < |js| && js[pos] == BACKSLASH
      modifies this`pos
      ensures !ok ==> StringEnd(js, old(pos)) == Bad(Invalid)
      ensures ok ==> old(pos) < pos < |js| && StringEnd(js, old(pos)) == StringEnd(js, pos + 1)
    {
      pos := pos + 1;
      if js[pos] == LOWER_U {
        pos := pos + 1;
        ok := SkipHex();
        if !ok {
          return false;
        }
        pos := pos - 1;
        return true;
      }
      return IsSimpleEscape(js[pos]);
    }

    method ParseString() returns (r: int)
      requires Valid() && !AtEnd(js, View())
      modifies this`pos, this`toknext, tokens
      ensures match StringEnd(js, old(pos) + 1)
              case Bad(e) => r == Code(e)
              case Found(q) =>
                if old(toknext) >= tokens.Length then r == ERROR_NOMEM
                else r == 0 && pos == q && toknext == old(toknext) + 1
                     && tokens[..toknext] == old(tokens[..toknext]) + [Token(String, old(pos) + 1, q, 0)]
      ensures r < 0 ==> pos == old(pos) && toknext == old(toknext)
    {
      hide HexRun;
      var start := pos;
      pos := pos + 1;
      while pos < |js| && js[pos] != NUL
        invariant start < pos <= |js| && toknext == old(toknext) && toksuper == old(toksuper) && tokens[..] == old(tokens[..])
        invariant StringEnd(js, pos) == StringEnd(js, start + 1)
        decreases |js| - pos
      {
        var c := js[pos];
        if c == QUOTE {
          var ok := Alloc(Token(String, start + 1, pos, 0));
          if !ok {
            pos := start;
            return ERROR_NOMEM;
          }
          return 0;
        }
        if c == BACKSLASH && pos + 1 < |js| {
          var ok := SkipEscape();
          if !ok {
            pos := start;
            return ERROR_INVAL;
          }
        }
        pos := pos + 1;
      }
      pos := start;
      return ERROR_PART;
    }

    /** '}' or ']': close the innermost open token and fall back to the one around it. */
    method CloseContainer(kind: Kind) returns (ok: bool)
      requires Valid() && pos < |js|
      modifies this`toksuper, tokens
      ensures match StepClose(old(View()), kind)
              case Fail(_) => !ok
              case Continue(st) => ok && View() == st.(pos := pos)
      ensures !ok ==> toksuper == old(toksuper)
    {
      hide LastOpen;
      ghost var was := View().toks;
      var i := FindOpen(toknext);
      if i == -1 || tokens[i].kind != kind {
        return false;
      }
      tokens[i] := tokens[i].(end := pos + 1);
      assert tokens[..toknext] == was[i := was[i].(end := pos + 1)];
      ClosedIsSkipped(was, i, pos + 1);
      toksuper := FindOpen(i + 1);
      return true;
    }

    /** The backward search for the last of the first `n` tokens that is still open, or -1. */
    method FindOpen(n: nat) returns (i: int)
      requires Valid() && n <= toknext
      ensures i == LastOpen(View().toks, n)
    {
      i := n - 1;
      while i >= 0 && !IsOpen(tokens[i])
        invariant -1 <= i < n
        invariant LastOpen(View().toks, n) == LastOpen(View().toks, i + 1)
      {
        i := i - 1;
      }
    }

    /** ',' after a key's value: back to the innermost open object or array. */
    method Comma()
      requires Valid() && pos < |js|
      modifies this`toksuper
      ensures View() == StepComma(old(View())).(pos := pos)
    {
      if toksuper != -1 && !IsContainer(tokens[toksuper]) {
        ghost var toks := View().toks;
        var i := toknext - 1;
        while i >= 0 && !(IsContainer(tokens[i]) && IsOpen(tokens[i]))
          invariant -1 <= i < toknext
          invariant LastOpenContainer(toks, toknext) == LastOpenContainer(toks, i + 1)
        {
          i := i - 1;
        }
        if i >= 0 {
          toksuper := i;
        }
      }
    }

    /** '{' or '[', which is counted before its token is allocated. */
    method OpenContainer(kind: Kind, count: nat) returns (r: int, count': nat)
      requires Valid() && pos < |js|
      modifies this`toknext, this`toksuper, tokens
      ensures match StepOpen(tokens.Length, old(View()), kind)
              case Fail(e) => r == Code(e)
              case Continue(st) => r == 0 && toknext <= tokens.Length && View() == st.(pos := pos)
      ensures r == 0 ==> count' == count + 1
    {
      count' := count + 1;
      var ok := Alloc(Token(kind, pos, -1, 0));
      if !ok {
        return ERROR_NOMEM, count';
      }
      if toksuper != -1 && tokens[toksuper].kind == Object {
        return ERROR_INVAL, count';
      }
      CountChild();
      toksuper := toknext - 1;
      return 0, count';
    }

    /** The '"' case. */
    method StringToken(count: nat) returns (r: int, count': nat)
      requires Valid() && !AtEnd(js, View())
      modifies this`pos, this`toknext, tokens
      ensures match StepString(js, tokens.Length, old(View()))
              case Fail(e) => r == Code(e)
              case Continue(st) => r == 0 && toknext <= tokens.Length && View() == st.(pos := pos) && pos + 1 == st.pos
      ensures r < 0 ==> pos == old(pos)
      ensures count' == if r == 0 then count + 1 else count
    {
      count' := count;
      r := ParseString();
      if r == 0 {
        count' := count + 1;
        CountChild();
      }
    }

    /** The case of the characters a primitive starts with. */
    method PrimitiveToken(count: nat) returns (r: int, count': nat)
      requires Valid() && !AtEnd(js, View()) && StartsPrimitive(js[pos])
      modifies this`pos, this`toknext, tokens
      ensures match StepPrimitive(js, tokens.Length, old(View()))
              case Fail(e) => r == Code(e)
              case Continue(st) => r == 0 && toknext <= tokens.Length && View() == st.(pos := pos) && pos + 1 == st.pos
      ensures r < 0 ==> pos == old(pos)
      ensures count' == if r == 0 then count + 1 else count
    {
      count' := count;
      if toksuper != -1 && (tokens[toksuper].kind == Object || (tokens[toksuper].kind == String && tokens[toksuper].size != 0)) {
        return ERROR_INVAL, count';
      }
      r := ParsePrimitive();
      if r == 0 {
        count' := count + 1;
        CountChild();
      }
    }

    /** One turn of the main loop, the closing `pos++` included; r < 0 leaves the loop at the position of the turn. */
    method Turn(count: nat) returns (r: int, count': nat)
      requires Valid() && !AtEnd(js, View())
      modifies this, tokens
      ensures match Step(js, tokens.Length, old(View()))
              case Fail(e) => r == Code(e)
              case Continue(st) => r == 0 && Valid() && View() == st && count' == count + |st.toks| - |old(View()).toks|
      ensures r < 0 ==> pos == old(pos)
    {
      r, count' := 0, count;
      var c := js[pos];
      if c == OPEN_BRACE || c == OPEN_BRACKET {
        r, count' := OpenContainer(if c == OPEN_BRACE then Object else Array, count);
      } else if c == CLOSE_BRACE || c == CLOSE_BRACKET {
        var ok := CloseContainer(if c == CLOSE_BRACE then Object else Array);
        r := if ok then 0 else ERROR_INVAL;
      } else if c == QUOTE {
        r, count' := StringToken(count);
      } else if c == COLON {
        toksuper := toknext - 1;
      } else if c == COMMA {
        Comma();
      } else if StartsPrimitive(c) {
        r, count' := PrimitiveToken(count);
      } else if !IsWhitespace(c) {
        r := ERROR_INVAL;
      }
      if r == 0 {
        pos := pos + 1;
      }
    }

    /** jsmn_parse; `count`, which it returns, is kept apart from toknext. */
    method Parse() returns (ret: int)
      requires Valid() && View() == INIT
      modifies this, tokens
      ensures ret == ReturnCode(Tokenize(js, tokens.Length))
      ensures ret >= 0 ==> ret == toknext <= tokens.Length && Tokenize(js, tokens.Length) == Tokens(tokens[..ret])
    {
      ghost var all := Tokenize(js, tokens.Length);
      var count: nat := toknext;
      while pos < |js| && js[pos] != NUL
        invariant Valid() && Run(js, tokens.Length, View()) == all
        invariant count == toknext
        decreases |js| - pos
      {
        var r;
        r, count := Turn(count);
        if r < 0 {
          return r;
        }
      }
      var i := toknext - 1;
      while i >= 0
        invariant -1 <= i < toknext
        invariant LastOpen(View().toks, toknext) == LastOpen(View().toks, i + 1)
      {
        if IsOpen(tokens[i]) {
          return ERROR_PART;
        }
        i := i - 1;
      }
      return count;
    }
  }
}
