/**
 What an accepted text must look like: which tokens may stand below which, where the brackets are, and that nothing
 else stands between the tokens. The bytes are given as numbers.
 */
module JsmnShape {
  import opened Bytes
  import opened JsmnSpec
  import opened JsmnForest
  import opened PreorderLists

  /** The children of an object are strings, and a number or literal behind a key is its first value. */
  ghost predicate KindsOk(toks: seq<Token>, par: seq<int>)
    requires |par| == |toks| && Preorder(par)
  {
    forall k :: 0 <= k < |toks| && par[k] >= 0 ==>
      && (toks[par[k]].kind == Object ==> toks[k].kind == String)
      && (toks[par[k]].kind == String && toks[k].kind == Primitive ==> k == par[k] + 1)
  }

  function OpenByte(kind: Kind): Byte {
    if kind == Object then 123 else 91
  }

  function CloseByte(kind: Kind): Byte {
    if kind == Object then 125 else 93
  }

  /** A container begins with its opening bracket and ends with the closing one of the same kind. */
  ghost predicate BracketsOk(js: Text, t: Token) {
    IsContainer(t) ==>
      && 0 <= t.start < |js| && js[t.start] == OpenByte(t.kind)
      && (!IsOpen(t) ==> t.start < t.end <= |js| && js[t.end - 1] == CloseByte(t.kind))
  }

  /** A number or literal begins with a minus sign, a digit, or the t, f or n of a literal. */
  ghost predicate BeginsOk(js: Text, t: Token) {
    t.kind == Primitive ==> 0 <= t.start < |js| && (js[t.start] in {45, 116, 102, 110} || 48 <= js[t.start] <= 57)
  }

  ghost predicate AllBracketsOk(js: Text, toks: seq<Token>) {
    forall k :: 0 <= k < |toks| ==> BracketsOk(js, toks[k])
  }

  /** The token's own bytes: a string with its quotes, a primitive, the brackets of a container. */
  ghost predicate Covers(t: Token, i: int) {
    match t.kind
    case String => t.start - 1 <= i <= t.end
    case Primitive => t.start <= i < t.end
    case _ => i == t.start || (!IsOpen(t) && i == t.end - 1)
  }

  /** White space, commas and colons. */
  predicate IsFiller(b: Byte) {
    b == 9 || b == 10 || b == 13 || b == 32 || b == 44 || b == 58
  }

  ghost predicate IsCovered(toks: seq<Token>, i: int) {
    exists k :: 0 <= k < |toks| && Covers(toks[k], i)
  }

  /** Every byte belongs to a token or is a filler. */
  ghost predicate Accounted(js: Text, toks: seq<Token>, limit: nat)
    requires limit <= |js|
  {
    forall i :: 0 <= i < limit ==> IsFiller(js[i]) || IsCovered(toks, i)
  }

  ghost predicate ShapeInv(js: Text, st: State, par: seq<int>) {
    && ForestInv(st, par) && SpanInv(js, st)
    && KindsOk(st.toks, par) && AllBracketsOk(js, st.toks) && Accounted(js, st.toks, st.pos)
  }

  /** toksuper is the last token or has a child. */
  lemma LastOrParent(st: State, par: seq<int>)
    requires ForestInv(st, par) && st.super != -1
    ensures st.super == |st.toks| - 1 || st.toks[st.super].size > 0
  {
    if st.super + 1 < |par| {
      assert par[st.super + 1] >= st.super;
      assert multiset(par)[par[st.super + 1]] > 0;
    }
  }

  lemma AppendKeepsKinds(st: State, par: seq<int>, t: Token)
    requires ForestInv(st, par) && KindsOk(st.toks, par) && Preorder(par + [st.super])
    requires st.super != -1 && st.toks[st.super].kind == Object ==> t.kind == String
    requires st.super != -1 && st.toks[st.super].kind == String && t.kind == Primitive ==> st.toks[st.super].size == 0
    ensures KindsOk(Grow(st.toks, st.super) + [t], par + [st.super])
  {
    if st.super != -1 {
      LastOrParent(st, par);
    }
  }

  /** The tokens as they were, but for children and ends of open ones, and perhaps more of them. */
  ghost predicate Grown(toks: seq<Token>, toks': seq<Token>) {
    |toks| <= |toks'|
    && forall k :: 0 <= k < |toks| ==> SameToken(toks[k], toks'[k])
  }

  ghost predicate SameToken(t: Token, t': Token) {
    t'.kind == t.kind && t'.start == t.start && (IsOpen(t) ==> IsContainer(t)) && (!IsOpen(t) ==> t'.end == t.end)
  }

  lemma KeepsCovered(toks: seq<Token>, toks': seq<Token>, i: int)
    requires Grown(toks, toks') && IsCovered(toks, i)
    ensures IsCovered(toks', i)
  {
    var k :| 0 <= k < |toks| && Covers(toks[k], i);
    assert SameToken(toks[k], toks'[k]) && Covers(toks'[k], i);
  }

  lemma KeepsAccounted(js: Text, toks: seq<Token>, toks': seq<Token>, limit: nat, limit': nat)
    requires limit <= limit' <= |js| && Accounted(js, toks, limit) && Grown(toks, toks')
    requires forall i :: limit <= i < limit' ==> IsFiller(js[i]) || IsCovered(toks', i)
    ensures Accounted(js, toks', limit')
  {
    hide IsCovered, Grown;
    forall i | 0 <= i < limit' ensures IsFiller(js[i]) || IsCovered(toks', i) {
      if i < limit && !IsFiller(js[i]) {
        KeepsCovered(toks, toks', i);
      }
    }
  }

  lemma AppendGrows(js: Text, st: State, t: Token)
    requires Valid(st) && SpanInv(js, st)
    ensures Grown(st.toks, Grow(st.toks, st.super) + [t])
  {
    OpenAreContainers(js, st);
  }

  lemma AppendKeepsBrackets(js: Text, toks: seq<Token>, super: int, t: Token)
    requires AllBracketsOk(js, toks) && BracketsOk(js, t) && -1 <= super < |toks|
    ensures AllBracketsOk(js, Grow(toks, super) + [t])
  {
    var toks' := Grow(toks, super) + [t];
    forall k | 0 <= k < |toks'| ensures BracketsOk(js, toks'[k]) {
      assert k < |toks| ==> BracketsOk(js, toks[k]);
    }
  }

  /** A new token behind all others. */
  lemma AppendKeepsAccounted(js: Text, st: State, t: Token, pos: nat)
    requires Valid(st) && SpanInv(js, st) && Accounted(js, st.toks, st.pos) && st.pos < pos <= |js|
    requires forall i :: st.pos <= i < pos ==> Covers(t, i)
    ensures Accounted(js, Grow(st.toks, st.super) + [t], pos)
  {
    hide SpanInv, Covers, Accounted;
    var toks := Grow(st.toks, st.super) + [t];
    forall i | st.pos <= i < pos ensures IsCovered(toks, i) {
      assert toks[|st.toks|] == t;
    }
    AppendGrows(js, st, t);
    KeepsAccounted(js, st.toks, toks, st.pos, pos);
  }

  lemma CloseKeepsBrackets(js: Text, st: State, kind: Kind)
    requires SpanInv(js, st) && AllBracketsOk(js, st.toks) && st.pos < |js| && js[st.pos] == CloseByte(kind)
    requires (kind == Object || kind == Array) && StepClose(st, kind).Continue?
    ensures AllBracketsOk(js, StepClose(st, kind).st.toks)
  {
    var i := LastOpen(st.toks, |st.toks|);
    var toks := StepClose(st, kind).st.toks;
    assert SpanOk(js, st.toks[i], st.pos) && BracketsOk(js, st.toks[i]);
    forall k | 0 <= k < |toks| ensures BracketsOk(js, toks[k]) {
      assert BracketsOk(js, st.toks[k]);
    }
  }

  lemma CloseKeepsKinds(st: State, par: seq<int>, kind: Kind)
    requires |par| == |st.toks| && Preorder(par) && KindsOk(st.toks, par) && StepClose(st, kind).Continue?
    ensures KindsOk(StepClose(st, kind).st.toks, par)
  {
  }

  lemma CloseKeepsAccounted(js: Text, st: State, kind: Kind)
    requires SpanInv(js, st) && Accounted(js, st.toks, st.pos) && st.pos < |js|
    requires (kind == Object || kind == Array) && StepClose(st, kind).Continue?
    ensures Accounted(js, StepClose(st, kind).st.toks, st.pos + 1)
  {
    var i := LastOpen(st.toks, |st.toks|);
    var toks := StepClose(st, kind).st.toks;
    OpenAreContainers(js, st);
    assert Covers(toks[i], st.pos);
    hide Accounted, Covers, SpanInv;
    KeepsAccounted(js, st.toks, toks, st.pos, st.pos + 1);
  }

  lemma OpenAreContainers(js: Text, st: State)
    requires SpanInv(js, st)
    ensures forall i :: 0 <= i < |st.toks| && IsOpen(st.toks[i]) ==> IsContainer(st.toks[i])
  {
    forall i | 0 <= i < |st.toks| && IsOpen(st.toks[i]) ensures IsContainer(st.toks[i]) {
      assert SpanOk(js, st.toks[i], st.pos);
    }
  }

  /** The token a turn appends, by its first byte. */
  lemma NewToken(js: Text, cap: nat, st: State)
    requires Valid(st) && !AtEnd(js, st) && Step(js, cap, st).Continue? && |Step(js, cap, st).st.toks| > |st.toks|
    ensures var st' := Step(js, cap, st).st;
            var t := st'.toks[|st.toks|];
            && BracketsOk(js, t) && (forall i :: st.pos <= i < st'.pos ==> Covers(t, i))
            && (st.super != -1 && st.toks[st.super].kind == Object ==> t.kind == String)
            && (st.super != -1 && st.toks[st.super].kind == String && t.kind == Primitive ==> st.toks[st.super].size == 0)
  {
  }

  /** A turn that appends none and closes none only skips a filler. */
  lemma NoToken(js: Text, cap: nat, st: State)
    requires Valid(st) && !AtEnd(js, st) && Step(js, cap, st).Continue? && |Step(js, cap, st).st.toks| == |st.toks|
    requires js[st.pos] != CLOSE_BRACE && js[st.pos] != CLOSE_BRACKET
    ensures var st' := Step(js, cap, st).st;
            st'.toks == st.toks && st'.pos == st.pos + 1 && IsFiller(js[st.pos])
  {
  }

  /** One turn of the loop keeps the shape. */
  lemma StepKeepsShape(js: Text, cap: nat, st: State, par: seq<int>) returns (par': seq<int>)
    requires Valid(st) && ShapeInv(js, st, par) && !AtEnd(js, st) && Step(js, cap, st).Continue?
    ensures ShapeInv(js, Step(js, cap, st).st, par')
  {
    hide Accounted, KindsOk, AllBracketsOk, SpanInv, PathInv, IsForest, Covers, BracketsOk, StepOpen, StepString, StepPrimitive, StepComma, StepClose;
    var st' := Step(js, cap, st).st;
    var c := js[st.pos];
    OpenAreContainers(js, st);
    par' := StepKeepsForest(js, cap, st, par);
    StepKeepsSpans(js, cap, st);
    if c == CLOSE_BRACE || c == CLOSE_BRACKET {
      var kind := if c == CLOSE_BRACE then Object else Array;
      SameLength(st, kind);
      ForestShape(st.toks, par);
      CloseKeepsKinds(st, par, kind);
      CloseKeepsBrackets(js, st, kind);
      CloseKeepsAccounted(js, st, kind);
    } else if |st'.toks| > |st.toks| {
      var t := st'.toks[|st.toks|];
      NewToken(js, cap, st);
      AppendedToken(js, cap, st);
      ForestShape(st'.toks, par');
      AppendKeepsKinds(st, par, t);
      AppendKeepsBrackets(js, st.toks, st.super, t);
      SpanLimit(js, st');
      AppendKeepsAccounted(js, st, t, st'.pos);
    } else {
      StepGrows(js, cap, st);
      NoToken(js, cap, st);
      OneFiller(js, st.toks, st.pos);
    }
  }

  lemma SameLength(st: State, kind: Kind)
    requires StepClose(st, kind).Continue?
    ensures |StepClose(st, kind).st.toks| == |st.toks| && StepClose(st, kind).st.pos == st.pos + 1
  {
  }

  lemma ForestShape(toks: seq<Token>, par: seq<int>)
    requires IsForest(toks, par)
    ensures |par| == |toks| && Preorder(par)
  {
  }

  lemma SpanLimit(js: Text, st: State)
    requires SpanInv(js, st)
    ensures st.pos <= |js|
  {
  }

  lemma StepGrows(js: Text, cap: nat, st: State)
    requires Valid(st) && !AtEnd(js, st) && Step(js, cap, st).Continue?
    ensures |Step(js, cap, st).st.toks| >= |st.toks|
  {
  }

  lemma OneFiller(js: Text, toks: seq<Token>, p: nat)
    requires p < |js| && Accounted(js, toks, p) && IsFiller(js[p])
    ensures Accounted(js, toks, p + 1)
  {
  }

  lemma {:induction false} EveryStateHasShape(js: Text, cap: nat, st: State, par: seq<int>, goal: State) returns (par': seq<int>)
    requires Valid(st) && ShapeInv(js, st, par) && Reaches(js, cap, st, goal)
    ensures ShapeInv(js, goal, par')
    decreases |js| - st.pos
  {
    hide ShapeInv;
    par' := par;
    if st != goal {
      par' := StepKeepsShape(js, cap, st, par);
      par' := EveryStateHasShape(js, cap, Step(js, cap, st).st, par', goal);
    }
  }

  lemma {:induction false} TextEnd(js: Text, p: nat)
    requires p <= |js| && (p == |js| || js[p] == NUL)
    ensures |CString(js)| <= p
    decreases p
  {
    if p > 0 && js[0] != NUL {
      TextEnd(js[1..], p - 1);
    }
  }

  /**
   Whatever text is accepted: the children of an object are strings, a number or literal behind a key is its first
   value and begins like one, brackets match in kind, and outside the tokens there is only white space, commas and colons.
   */
  lemma AcceptedShape(js: Text, cap: nat, par: seq<int>)
    requires Tokenize(js, cap).Tokens? && IsForest(Tokenize(js, cap).toks, par)
    ensures var toks := Tokenize(js, cap).toks;
            && KindsOk(toks, par)
            && AllBracketsOk(js, toks) && (forall k :: 0 <= k < |toks| ==> !IsOpen(toks[k]) && BeginsOk(js, toks[k]))
            && Accounted(js, toks, |CString(js)|)
  {
    hide Step, Run;
    var goal := SuccessIsReached(js, cap, INIT);
    var p := EveryStateHasShape(js, cap, INIT, [], goal);
    ForestUnique(goal.toks, p, par);
    TextEnd(js, goal.pos);
    forall k | 0 <= k < |goal.toks| ensures BeginsOk(js, goal.toks[k]) {
      assert SpanOk(js, goal.toks[k], goal.pos);
    }
  }
}
