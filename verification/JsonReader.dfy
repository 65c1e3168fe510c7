/** sc_json_reader: lookups by index arithmetic over the token array of a parsed document. */
module JsonReader {
  import opened Bytes
  import opened Options
  import opened JsmnSpec
  import opened JsmnForest
  import opened PreorderLists
  import opened JsonText
  import JsmnParser

  datatype ParseStatus = Ok | NoMem | InvalidArg

  /** parse() keeps an accepted text only when its first token is an object. */
  function ParseOutcome(r: Result): ParseStatus {
    match r
    case Failure(NoMemory) => NoMem
    case Failure(_) => InvalidArg
    case Tokens(toks) => if |toks| >= 1 && toks[0].kind == Object then Ok else InvalidArg
  }

  function TextOf(js: Text, t: Token): Text
    requires 0 <= t.start <= t.end <= |js|
  {
    js[t.start..t.end]
  }

  ghost predicate KeyIs(js: Text, t: Token, key: Text)
    requires 0 <= t.start <= t.end <= |js|
  {
    t.kind == String && TextOf(js, t) == key
  }

  /** The value of the first of `members` whose key is `key`; a member without exactly one value ends the search. */
  ghost function Lookup(js: Text, toks: seq<Token>, members: seq<nat>, key: Text): (v: int)
    requires forall i :: 0 <= i < |members| ==> members[i] < |toks|
    requires forall i :: 0 <= i < |toks| ==> 0 <= toks[i].start <= toks[i].end <= |js|
    ensures v == -1 || (v >= 1 && v - 1 in members && toks[v - 1].size == 1 && KeyIs(js, toks[v - 1], key))
  {
    if members == [] || toks[members[0]].size != 1 then -1
    else if KeyIs(js, toks[members[0]], key) then members[0] + 1
    else Lookup(js, toks, members[1..], key)
  }

  /** On members that all have one value, the lookup is the first match, and -1 means there is none. */
  lemma {:induction false} LookupFirst(js: Text, toks: seq<Token>, members: seq<nat>, key: Text)
    requires forall i :: 0 <= i < |members| ==> members[i] < |toks|
    requires forall i :: 0 <= i < |toks| ==> 0 <= toks[i].start <= toks[i].end <= |js|
    requires forall i :: 0 <= i < |members| ==> toks[members[i]].size == 1
    ensures Lookup(js, toks, members, key) == -1 <==> forall i :: 0 <= i < |members| ==> !KeyIs(js, toks[members[i]], key)
    ensures forall i :: 0 <= i < |members| && KeyIs(js, toks[members[i]], key)
                        && (forall j :: 0 <= j < i ==> !KeyIs(js, toks[members[j]], key))
                        ==> Lookup(js, toks, members, key) == members[i] + 1
  {
    if members != [] {
      LookupFirst(js, toks, members[1..], key);
      forall i | 0 <= i < |members| && KeyIs(js, toks[members[i]], key)
                 && (forall j :: 0 <= j < i ==> !KeyIs(js, toks[members[j]], key))
        ensures Lookup(js, toks, members, key) == members[i] + 1
      {
        if i > 0 {
          assert members[i] == members[1..][i - 1];
          forall j | 0 <= j < i - 1 ensures !KeyIs(js, toks[members[1..][j]], key) {
            assert members[1..][j] == members[j + 1];
          }
        }
      }
      if Lookup(js, toks, members, key) == -1 {
        forall i | 0 <= i < |members| ensures !KeyIs(js, toks[members[i]], key) {
          if i > 0 {
            assert members[i] == members[1..][i - 1];
          }
        }
      }
    }
  }

  /** find(): the lookup among the object's children. */
  ghost function FindSpec(js: Text, toks: seq<Token>, par: seq<int>, obj: int, key: Text): int
    requires IsDocument(js, toks, par)
  {
    if 0 <= obj < |toks| && toks[obj].kind == Object then Lookup(js, toks, Children(par, obj), key) else -1
  }

  /** find() only ever answers with a token strictly inside the object's own subtree. */
  lemma FindStaysInside(js: Text, toks: seq<Token>, par: seq<int>, obj: int, key: Text)
    requires IsDocument(js, toks, par) && FindSpec(js, toks, par, obj, key) != -1
    ensures var v := FindSpec(js, toks, par, obj, key);
            && 0 <= obj < v < |toks|
            && par[v] == v - 1 && par[v - 1] == obj
            && v < SubtreeEnd(par, obj)
            && InSubtree(par, obj, v)
  {
    hide Lookup, KeyIs, SubtreeEnd, InSubtree;
    var v := FindSpec(js, toks, par, obj, key);
    OnlyChildEnd(toks, par, v - 1);
    GrandchildInside(par, obj, v - 1);
  }

  /** skip(): the node after t's subtree, -1 past the end. */
  ghost function SkipSpec(par: seq<int>, t: int): int {
    if 0 <= t < |par| && SubtreeEnd(par, t) < |par| then SubtreeEnd(par, t) else -1
  }

  /** The value of a string token; None for any other token. */
  function StrSpec(js: Text, toks: seq<Token>, tok: int): Option<Text>
    requires forall i :: 0 <= i < |toks| ==> 0 <= toks[i].start <= toks[i].end <= |js|
  {
    if 0 <= tok < |toks| && toks[tok].kind == String then Decode(js, toks[tok].start, toks[tok].end) else None
  }

  /** The value of an integer token: digits with an optional minus, at most 20 characters, within int64. */
  function IntSpec(js: Text, toks: seq<Token>, tok: int): Option<int>
    requires forall i :: 0 <= i < |toks| ==> 0 <= toks[i].start <= toks[i].end <= |js|
  {
    if 0 <= tok < |toks| && toks[tok].kind == Primitive && toks[tok].end - toks[tok].start <= 20 then
      var value := ParseInt(TextOf(js, toks[tok]));
      if value.Some? && INT64_MIN <= value.value <= INT64_MAX then value else None
    else None
  }

  function BoolSpec(js: Text, toks: seq<Token>, tok: int): Option<bool>
    requires forall i :: 0 <= i < |toks| ==> 0 <= toks[i].start <= toks[i].end <= |js|
  {
    if 0 <= tok < |toks| && toks[tok].kind == Primitive then
      var text := TextOf(js, toks[tok]);
      if text == TRUE then Some(true) else if text == FALSE then Some(false) else None
    else None
  }

  /** In an accepted document every string token has a value, so str_at fails on it only for lack of room. */
  lemma EveryStringHasAValue(js: Text, toks: seq<Token>, par: seq<int>, tok: nat)
    requires IsDocument(js, toks, par) && tok < |toks| && toks[tok].kind == String
    ensures StrSpec(js, toks, tok).Some?
  {
    AcceptedStringDecodes(js, toks[tok].start);
  }

  /** find() half-way: `left` members are still to be tried, from node m on, and the answer is among them. */
  ghost predicate Trying(js: Text, toks: seq<Token>, par: seq<int>, o: nat, key: Text, m: int, left: nat, answer: int) {
    && IsDocument(js, toks, par)
    && if left == 0 then answer == -1
    else
      && o < m < |toks| && par[m] == o
      && |ChildrenFrom(par, o, m)| == left
      && answer == Lookup(js, toks, ChildrenFrom(par, o, m), key)
      && (m + 1 == |toks| ==> answer == -1)
  }

  lemma LastHasNoValue(js: Text, toks: seq<Token>, par: seq<int>, o: nat, key: Text, m: nat)
    requires IsDocument(js, toks, par) && m + 1 == |toks| && par[m] == o
    ensures Lookup(js, toks, ChildrenFrom(par, o, m), key) == -1
  {
    SizeIsAttachedLater(toks, par, m);
  }

  lemma FindStart(js: Text, toks: seq<Token>, par: seq<int>, o: nat, key: Text)
    requires IsDocument(js, toks, par) && o < |toks| && toks[o].kind == Object
    ensures Trying(js, toks, par, o, key, o + 1, toks[o].size, FindSpec(js, toks, par, o, key))
  {
    SizeIsChildren(toks, par, o);
    if toks[o].size > 0 {
      FirstChild(toks, par, o);
      if o + 2 == |toks| {
        LastHasNoValue(js, toks, par, o, key, o + 1);
      }
    }
  }

  lemma FindTurn(js: Text, toks: seq<Token>, par: seq<int>, o: nat, key: Text, m: nat, left: nat, answer: int)
    requires left > 0 && Trying(js, toks, par, o, key, m, left, answer) == true
    ensures m < |toks|
    ensures toks[m].size != 1 ==> answer == -1
    ensures toks[m].size == 1 && KeyIs(js, toks[m], key) ==> answer == m + 1
    ensures toks[m].size == 1 && !KeyIs(js, toks[m], key) ==> Trying(js, toks, par, o, key, SkipSpec(par, m + 1), left - 1, answer)
  {
    NextSibling(par, o, m);
    if toks[m].size == 1 {
      OnlyChildEnd(toks, par, m);
      var next := SkipSpec(par, m + 1);
      if left > 1 && next + 1 == |toks| {
        LastHasNoValue(js, toks, par, o, key, next);
      }
    }
  }

  class Reader {
    const tokens: array<Token>
    var count: nat
    var json: Text
    ghost var par: seq<int>

    ghost function Toks(): seq<Token>
      reads this, tokens
      requires count <= tokens.Length
    {
      tokens[..count]
    }

    /** What is held is a document: nothing, or what the last parse() accepted. */
    ghost predicate Valid()
      reads this, tokens
    {
      count <= tokens.Length && IsDocument(json, Toks(), par)
    }

    constructor (maxTokens: nat)
      ensures Valid() && count == 0 && fresh(tokens) && tokens.Length == maxTokens
    {
      tokens := new Token[maxTokens](_ => Token(Primitive, -1, -1, 0));
      count, json, par := 0, [], [];
    }

    method Parse(text: Text) returns (r: ParseStatus)
      modifies this, tokens
      ensures Valid() && json == text
      ensures r == ParseOutcome(Tokenize(text, tokens.Length))
      ensures if r.Ok? then Tokenize(text, tokens.Length) == Tokens(Toks()) else count == 0
    {
      json, count, par := text, 0, [];
      var parser := new JsmnParser.Parser(text, tokens);
      var ret := parser.Parse();
      if ret == JsmnParser.ERROR_NOMEM {
        return NoMem;
      }
      if ret < 1 || tokens[0].kind != Object {
        return InvalidArg;
      }
      count := ret;
      par := AcceptedIsDocument(text, tokens.Length);
      return Ok;
    }

    method Skip(tok: int) returns (r: int)
      requires Valid()
      ensures r == SkipSpec(par, tok)
    {
      if tok < 0 || tok >= count {
        return -1;
      }
      ghost var toks := Toks();
      var pending := 1;
      var idx := tok;
      while pending > 0 && idx < count
        invariant tok <= idx <= count && (forall k :: tok < k < idx ==> par[k] >= tok)
        invariant if idx == tok then pending == 1 else pending == Attached(par, idx, tok, idx)
        decreases count - idx
      {
        if idx == tok {
          SizeIsAttachedLater(toks, par, tok);
        } else {
          PendingStep(toks, par, tok, idx);
        }
        pending := pending + (tokens[idx].size - 1);
        idx := idx + 1;
      }
      if idx < count {
        PendingDone(par, tok, idx);
      }
      FirstBelowAt(par, tok, tok + 1, idx);
      return if idx < count then idx else -1;
    }

    method IsObject(tok: int) returns (r: bool)
      requires Valid()
      ensures r == (0 <= tok < count && Toks()[tok].kind == Object)
    {
      return 0 <= tok < count && tokens[tok].kind == Object;
    }

    method ChildCount(tok: int) returns (r: int)
      requires Valid()
      ensures r == if 0 <= tok < count then |Children(par, tok)| else 0
    {
      if 0 <= tok < count {
        SizeIsChildren(Toks(), par, tok);
        return tokens[tok].size;
      }
      return 0;
    }

    method KeyEquals(tok: int, key: Text) returns (r: bool)
      requires Valid() && 0 <= tok < count
      ensures r == KeyIs(json, Toks()[tok], key)
    {
      var t := tokens[tok];
      assert t == Toks()[tok];
      return t.kind == String && t.end - t.start == |key| && json[t.start..t.end] == key;
    }

    method Find(obj: int, key: Text) returns (r: int)
      requires Valid()
      ensures r == FindSpec(json, Toks(), par, obj, key)
    {
      var isObject := IsObject(obj);
      if !isObject {
        return -1;
      }
      FindStart(json, Toks(), par, obj, key);
      r := FindMember(obj, key, FindSpec(json, Toks(), par, obj, key));
    }

    /** find()'s loop over the members of an object. */
    method FindMember(obj: nat, key: Text, ghost answer: int) returns (r: int)
      requires Valid() && obj < count
      requires Trying(json, Toks(), par, obj, key, obj + 1, Toks()[obj].size, answer) == true
      ensures r == answer
    {
      hide PreorderLists.SubtreeEnd, Preorder, Lookup, ChildrenFrom;
      ghost var toks := Toks();
      var member := obj + 1;
      var idx := 0;
      while idx < tokens[obj].size && member >= 0 && member + 1 < count
        invariant 0 <= idx <= toks[obj].size
        invariant Trying(json, toks, par, obj, key, member, toks[obj].size - idx, answer) == true // an equation keeps the predicate whole
      {
        FindTurn(json, toks, par, obj, key, member, toks[obj].size - idx, answer);
        if tokens[member].size != 1 {
          return -1;
        }
        var found := KeyEquals(member, key);
        if found {
          return member + 1;
        }
        member := Skip(member + 1);
        idx := idx + 1;
      }
      return -1;
    }

    /** The four hex digits at p, or -1. */
    method ReadHex(p: nat) returns (code: int)
      requires p + 4 <= |json|
      ensures code == HexCode(json, p)
    {
      code := 0;
      var idx := 0;
      while idx < 4
        invariant 0 <= idx <= 4
        invariant forall i :: p <= i < p + idx ==> HexValue(json[i]) >= 0
        invariant idx == 0 ==> code == 0
        invariant idx == 1 ==> code == HexValue(json[p])
        invariant idx == 2 ==> code == HexValue(json[p]) * 16 + HexValue(json[p + 1])
        invariant idx == 3 ==> code == (HexValue(json[p]) * 16 + HexValue(json[p + 1])) * 16 + HexValue(json[p + 2])
        invariant idx == 4 ==> code == HexCode(json, p)
      {
        var digit := HexValue(json[p + idx]);
        if digit < 0 {
          return -1;
        }
        code := code * 16 + digit;
        idx := idx + 1;
      }
    }

    /** The next raw byte or escape of json[p..end]: the bytes it stands for and the position after it. */
    method NextPiece(p: nat, end: nat) returns (ok: bool, bytes: Text, next: nat)
      requires p < end <= |json|
      ensures ok == DecodeOne(json, p, end).Some?
      ensures ok ==> DecodeOne(json, p, end).value == (bytes, next - p)
    {
      ok, bytes, next := false, [], p + 1;
      var c := json[p];
      if c != BACKSLASH {
        return true, [c], next;
      }
      if next >= end {
        return;
      }
      var esc := json[next];
      next := next + 1;
      if esc != LOWER_U {
        if esc == LOWER_B {
          c := BACKSPACE;
        } else if esc == LOWER_F {
          c := FORM_FEED;
        } else if esc == LOWER_N {
          c := LF;
        } else if esc == LOWER_R {
          c := CR;
        } else if esc == LOWER_T {
          c := TAB;
        } else {
          c := esc;
        }
        return true, [c], next;
      }
      if end - next < 4 {
        return;
      }
      var code := ReadHex(next);
      if code < 0 {
        return;
      }
      next := next + 4;
      if 0xD800 <= code <= 0xDFFF {
        code := QUESTION as int;
      }
      if code < 0x80 {
        bytes := [code as Byte];
      } else if code < 0x800 {
        bytes := [(0xC0 + code / 64) as Byte, (0x80 + code % 64) as Byte];
      } else {
        bytes := [(0xE0 + code / 4096) as Byte, (0x80 + code / 64 % 64) as Byte, (0x80 + code % 64) as Byte];
      }
      ok := true;
    }

    /** Append `bytes` to the n bytes in `out`, always leaving room for the NUL. */
    method Emit(bytes: Text, out: array<Byte>, n: nat) returns (ok: bool)
      requires n < out.Length
      modifies out
      ensures ok == (n + |bytes| < out.Length)
      ensures ok ==> out[..n + |bytes|] == old(out[..n]) + bytes
    {
      var i := 0;
      while i < |bytes|
        invariant 0 <= i <= |bytes| && n + i < out.Length
        invariant out[..n + i] == old(out[..n]) + bytes[..i]
      {
        if n + i + 1 >= out.Length {
          return false;
        }
        out[n + i] := bytes[i];
        i := i + 1;
      }
      return true;
    }

    /** Unescape a string token into `out`, NUL-terminated; false also when it does not fit. */
    method StrAt(tok: int, out: array<Byte>) returns (ok: bool)
      requires Valid() && out != tokens as object
      modifies out
      ensures ok == (StrSpec(json, Toks(), tok).Some? && |StrSpec(json, Toks(), tok).value| + 1 <= out.Length)
      ensures ok ==> out[..|StrSpec(json, Toks(), tok).value| + 1] == StrSpec(json, Toks(), tok).value + [NUL]
    {
      if tok < 0 || tok >= count || tokens[tok].kind != String || out.Length < 1 {
        return false;
      }
      EveryStringHasAValue(json, Toks(), par, tok);
      ok := Unescape(tokens[tok].start, tokens[tok].end, out);
    }

    method Unescape(start: nat, end: nat, out: array<Byte>) returns (ok: bool)
      requires start <= end <= |json| && out.Length >= 1 && Decode(json, start, end).Some?
      modifies out
      ensures ok == (|Decode(json, start, end).value| + 1 <= out.Length)
      ensures ok ==> out[..|Decode(json, start, end).value| + 1] == Decode(json, start, end).value + [NUL]
    {
      hide Decode, DecodeOne;
      ghost var value := Decode(json, start, end).value;
      ghost var done: Text := [];
      var p, n := start, 0;
      while p < end
        invariant start <= p <= end && 0 <= n == |done| < out.Length && out[..n] == done
        invariant Decode(json, p, end).Some? && value == done + Decode(json, p, end).value
        decreases end - p
      {
        var some, bytes, next := NextPiece(p, end);
        DecodeStep(json, p, end, done);
        var fits := Emit(bytes, out, n);
        if !fits {
          return false;
        }
        done := done + bytes;
        p, n := next, n + |bytes|;
      }
      NothingLeft(json, end);
      assert value == done;
      out[n] := NUL;
      return true;
    }

    method IntAt(tok: int) returns (r: Option<int>)
      requires Valid()
      ensures r == IntSpec(json, Toks(), tok)
    {
      if tok < 0 || tok >= count {
        return None;
      }
      var t := tokens[tok];
      assert t == Toks()[tok];
      var len := t.end - t.start;
      if t.kind != Primitive || len == 0 || len > 20 {
        return None;
      }
      var value := ParseInt(json[t.start..t.end]);
      return if value.Some? && INT64_MIN <= value.value <= INT64_MAX then value else None;
    }

    method GetBool(obj: int, key: Text) returns (r: Option<bool>)
      requires Valid()
      ensures r == BoolSpec(json, Toks(), FindSpec(json, Toks(), par, obj, key))
    {
      var tok := Find(obj, key);
      if tok < 0 || tok >= count {
        return None;
      }
      var t := tokens[tok];
      assert t == Toks()[tok];
      if t.kind != Primitive {
        return None;
      }
      var text := json[t.start..t.end];
      return if text == TRUE then Some(true) else if text == FALSE then Some(false) else None;
    }

    method GetStr(obj: int, key: Text, out: array<Byte>) returns (ok: bool)
      requires Valid() && out != tokens as object
      modifies out
      ensures var value := StrSpec(json, Toks(), FindSpec(json, Toks(), par, obj, key));
              && ok == (value.Some? && |value.value| + 1 <= out.Length)
              && (ok ==> out[..|value.value| + 1] == value.value + [NUL])
    {
      var tok := Find(obj, key);
      ok := StrAt(tok, out);
    }
  }
}
