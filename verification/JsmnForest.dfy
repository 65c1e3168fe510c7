/**
 What the token array is at every step of the tokenizer, on every input: the
 pre-order listing of a forest whose `size` fields are exact child counts.
 jsmn is built without parent links, so the parents are a witness (`par`).
 */
module JsmnForest {
  import opened Bytes
  import opened JsmnSpec

  /**
   `par[k]` is the parent of node k, -1 for a root. The listing is a pre-order one iff every
   node's parent comes before it and no node lies between a parent and its child without
   belonging to the parent's subtree.
   */
  ghost predicate Preorder(par: seq<int>) {
    && (forall k :: 0 <= k < |par| ==> -1 <= par[k] < k)
    && (forall j, k :: 0 <= j < k < |par| ==> par[k] >= j || par[k] <= par[j])
  }

  ghost predicate IsForest(toks: seq<Token>, par: seq<int>) {
    && |par| == |toks|
    && Preorder(par)
    && (forall i :: 0 <= i < |toks| ==> toks[i].size == multiset(par)[i])
  }

  /** Every later node lies in i's subtree: i is the last node or one of its ancestors. */
  ghost predicate OnRightmostPath(par: seq<int>, i: int) {
    0 <= i < |par| && forall k :: i < k < |par| ==> par[k] >= i
  }

  /** toksuper and the open tokens lie on the rightmost path, toksuper at or below every open one. */
  ghost predicate PathInv(st: State, par: seq<int>) {
    && (st.super != -1 ==> OnRightmostPath(par, st.super))
    && (forall i :: 0 <= i < |st.toks| && IsOpen(st.toks[i]) ==> OnRightmostPath(par, i) && i <= st.super)
  }

  ghost predicate ForestInv(st: State, par: seq<int>) {
    Valid(st) && IsForest(st.toks, par) && PathInv(st, par)
  }

  /** The token lies in the first `limit` bytes, and its text is what the scanner cut there. */
  ghost predicate SpanOk(js: Text, t: Token, limit: nat)
    requires limit <= |js|
  {
    && 0 <= t.start < limit
    && (IsOpen(t) ==> IsContainer(t))
    && (!IsOpen(t) ==> t.start <= t.end <= limit)
    && (t.kind == String ==> t.start >= 1 && js[t.start - 1] == QUOTE && StringEnd(js, t.start) == Found(t.end))
    && (t.kind == Primitive ==> StartsPrimitive(js[t.start]) && PrimitiveEnd(js, t.start) == Found(t.end))
  }

  ghost predicate SpanInv(js: Text, st: State) {
    && st.pos <= |js|
    && (forall i :: 0 <= i < |st.toks| ==> SpanOk(js, st.toks[i], st.pos))
    && (forall i, j :: 0 <= i < j < |st.toks| ==> st.toks[i].start < st.toks[j].start)
  }

  lemma AppendKeepsForest(toks: seq<Token>, par: seq<int>, super: int, t: Token)
    requires IsForest(toks, par) && -1 <= super < |toks| && t.size == 0
    requires super != -1 ==> OnRightmostPath(par, super)
    ensures IsForest(Grow(toks, super) + [t], par + [super])
    ensures OnRightmostPath(par + [super], |par|)
    ensures forall i :: OnRightmostPath(par, i) && i <= super ==> OnRightmostPath(par + [super], i)
  {
    hide OnRightmostPath;
    GrownSizes(toks, par, super, t);
    RightmostGrows(par, super);
  }

  lemma RightmostGrows(par: seq<int>, super: int)
    requires Preorder(par) && -1 <= super < |par| && (super != -1 ==> OnRightmostPath(par, super))
    ensures Preorder(par + [super]) && OnRightmostPath(par + [super], |par|)
    ensures forall i :: OnRightmostPath(par, i) && i <= super ==> OnRightmostPath(par + [super], i)
  {
  }

  lemma GrownSizes(toks: seq<Token>, par: seq<int>, super: int, t: Token)
    requires IsForest(toks, par) && -1 <= super < |toks| && t.size == 0
    ensures var toks' := Grow(toks, super) + [t];
            forall i :: 0 <= i < |toks'| ==> toks'[i].size == multiset(par + [super])[i]
  {
    var toks', par' := Grow(toks, super) + [t], par + [super];
    forall i | 0 <= i < |toks'| ensures toks'[i].size == multiset(par')[i] {
      if i == |toks| {
        assert i !in multiset(par);
      }
    }
  }

  /** What a turn that appends a token does. */
  lemma AppendedToken(js: Text, cap: nat, st: State)
    requires Valid(st) && !AtEnd(js, st) && Step(js, cap, st).Continue? && |Step(js, cap, st).st.toks| > |st.toks|
    ensures var st' := Step(js, cap, st).st;
            var t := st'.toks[|st.toks|];
            && st'.toks == Grow(st.toks, st.super) + [t] && t.size == 0
            && st'.super == if IsOpen(t) then |st.toks| else st.super
  {
  }

  lemma AppendTurn(js: Text, cap: nat, st: State, par: seq<int>)
    requires Valid(st) && ForestInv(st, par) && !AtEnd(js, st) && Step(js, cap, st).Continue? && |Step(js, cap, st).st.toks| > |st.toks|
    ensures ForestInv(Step(js, cap, st).st, par + [st.super])
  {
    hide Step, Preorder;
    AppendedToken(js, cap, st);
    AppendKeepsForest(st.toks, par, st.super, Step(js, cap, st).st.toks[|st.toks|]);
  }

  /** What a turn that neither appends nor closes a token does. */
  lemma QuietTurn(js: Text, cap: nat, st: State, par: seq<int>)
    requires Valid(st) && ForestInv(st, par) && !AtEnd(js, st) && Step(js, cap, st).Continue?
    requires |Step(js, cap, st).st.toks| <= |st.toks| && js[st.pos] != CLOSE_BRACE && js[st.pos] != CLOSE_BRACKET
    requires forall i :: 0 <= i < |st.toks| && IsOpen(st.toks[i]) ==> IsContainer(st.toks[i])
    ensures ForestInv(Step(js, cap, st).st, par) && |Step(js, cap, st).st.toks| == |st.toks|
  {
    hide StepOpen, StepString, StepPrimitive;
    QuietTokens(js, cap, st);
  }

  lemma QuietTokens(js: Text, cap: nat, st: State)
    requires Valid(st) && !AtEnd(js, st) && Step(js, cap, st).Continue?
    requires |Step(js, cap, st).st.toks| <= |st.toks| && js[st.pos] != CLOSE_BRACE && js[st.pos] != CLOSE_BRACKET
    ensures var st', c := Step(js, cap, st).st, js[st.pos];
            && st'.toks == st.toks && (IsWhitespace(c) || c == COLON || c == COMMA)
  {
  }

  /** One turn of the loop keeps the forest; the witness grows by the new token's parent. */
  lemma StepKeepsForest(js: Text, cap: nat, st: State, par: seq<int>) returns (par': seq<int>)
    requires Valid(st) && ForestInv(st, par) && !AtEnd(js, st) && Step(js, cap, st).Continue?
    requires forall i :: 0 <= i < |st.toks| && IsOpen(st.toks[i]) ==> IsContainer(st.toks[i])
    ensures ForestInv(Step(js, cap, st).st, par')
    ensures |Step(js, cap, st).st.toks| > |st.toks| ==> par' == par + [st.super]
    ensures |Step(js, cap, st).st.toks| == |st.toks| ==> par' == par
  {
    hide ForestInv, StepOpen, StepString, StepPrimitive, StepComma;
    var c := js[st.pos];
    var st' := Step(js, cap, st).st;
    par' := par;
    if c == CLOSE_BRACE || c == CLOSE_BRACKET {
      CloseKeepsForest(st, par, if c == CLOSE_BRACE then Object else Array);
    } else if |st'.toks| > |st.toks| {
      par' := par + [st.super];
      AppendTurn(js, cap, st, par);
    } else {
      QuietTurn(js, cap, st, par);
    }
  }

  lemma CloseKeepsForest(st: State, par: seq<int>, kind: Kind)
    requires ForestInv(st, par) && StepClose(st, kind).Continue?
    ensures ForestInv(StepClose(st, kind).st, par)
  {
    var i := LastOpen(st.toks, |st.toks|);
    var st' := StepClose(st, kind).st;
    forall k | 0 <= k < |st'.toks| && IsOpen(st'.toks[k]) ensures OnRightmostPath(par, k) && k <= st'.super {
      assert IsOpen(st.toks[k]);
    }
  }

  lemma AppendKeepsSpans(js: Text, st: State, t: Token, pos: nat)
    requires Valid(st) && SpanInv(js, st) && st.pos <= t.start < pos <= |js| && SpanOk(js, t, pos)
    ensures SpanInv(js, State(pos, Grow(st.toks, st.super) + [t], st.super))
  {
    var toks := Grow(st.toks, st.super) + [t];
    forall i | 0 <= i < |toks| ensures SpanOk(js, toks[i], pos) {
      if i < |st.toks| {
        assert SpanOk(js, st.toks[i], st.pos);
      }
    }
    forall i, j | 0 <= i < j < |toks| ensures toks[i].start < toks[j].start {
      assert SpanOk(js, st.toks[i], st.pos);
    }
  }

  lemma CloseKeepsSpans(js: Text, st: State, kind: Kind)
    requires st.pos < |js| && SpanInv(js, st) && StepClose(st, kind).Continue?
    ensures SpanInv(js, StepClose(st, kind).st)
  {
    var st' := StepClose(st, kind).st;
    forall i | 0 <= i < |st'.toks| ensures SpanOk(js, st'.toks[i], st'.pos) {
      assert SpanOk(js, st.toks[i], st.pos);
    }
  }

  lemma StepKeepsSpans(js: Text, cap: nat, st: State)
    requires Valid(st) && SpanInv(js, st) && !AtEnd(js, st) && Step(js, cap, st).Continue?
    ensures SpanInv(js, Step(js, cap, st).st)
  {
    var c := js[st.pos];
    var st' := Step(js, cap, st).st;
    if c == CLOSE_BRACE || c == CLOSE_BRACKET {
      CloseKeepsSpans(js, st, if c == CLOSE_BRACE then Object else Array);
    } else if |st'.toks| > |st.toks| {
      AppendKeepsSpans(js, st, st'.toks[|st.toks|], st'.pos);
    }
  }

  /** The states the main loop passes through. */
  ghost predicate Reaches(js: Text, cap: nat, st: State, goal: State)
    requires Valid(st)
    decreases |js| - st.pos
  {
    st == goal || (!AtEnd(js, st) && Step(js, cap, st).Continue? && Reaches(js, cap, Step(js, cap, st).st, goal))
  }

  /** The invariant of the tokenizer: it holds in every state reached, whatever the text. */
  lemma {:induction false} EveryStateIsAForest(js: Text, cap: nat, st: State, par: seq<int>, goal: State) returns (par': seq<int>)
    requires ForestInv(st, par) && SpanInv(js, st) && Reaches(js, cap, st, goal)
    ensures ForestInv(goal, par') && SpanInv(js, goal)
    decreases |js| - st.pos
  {
    par' := par;
    if st != goal {
      forall i | 0 <= i < |st.toks| && IsOpen(st.toks[i]) ensures IsContainer(st.toks[i]) {
        assert SpanOk(js, st.toks[i], st.pos);
      }
      par' := StepKeepsForest(js, cap, st, par);
      StepKeepsSpans(js, cap, st);
      par' := EveryStateIsAForest(js, cap, Step(js, cap, st).st, par', goal);
    }
  }

  lemma {:induction false} SuccessIsReached(js: Text, cap: nat, st: State) returns (goal: State)
    requires Valid(st) && Run(js, cap, st).Tokens?
    ensures Reaches(js, cap, st, goal) && AtEnd(js, goal) && goal.toks == Run(js, cap, st).toks && Finish(goal).Tokens?
    decreases |js| - st.pos
  {
    if AtEnd(js, st) {
      goal := st;
    } else {
      goal := SuccessIsReached(js, cap, Step(js, cap, st).st);
    }
  }

  /** A parsed document: a forest with every token closed, in range and in text order. */
  ghost predicate IsDocument(js: Text, toks: seq<Token>, par: seq<int>) {
    && IsForest(toks, par)
    && (forall i :: 0 <= i < |toks| ==> !IsOpen(toks[i]) && SpanOk(js, toks[i], |js|))
    && (forall i, j :: 0 <= i < j < |toks| ==> toks[i].start < toks[j].start)
  }

  lemma AcceptedIsDocument(js: Text, cap: nat) returns (par: seq<int>)
    requires Tokenize(js, cap).Tokens?
    ensures IsDocument(js, Tokenize(js, cap).toks, par)
    ensures |par| <= cap
  {
    var goal := SuccessIsReached(js, cap, INIT);
    par := EveryStateIsAForest(js, cap, INIT, [], goal);
    forall i | 0 <= i < |goal.toks| ensures !IsOpen(goal.toks[i]) && SpanOk(js, goal.toks[i], |js|) {
      assert SpanOk(js, goal.toks[i], goal.pos);
    }
    TokensFit(js, cap, INIT, goal);
  }

  lemma {:induction false} TokensFit(js: Text, cap: nat, st: State, goal: State)
    requires Valid(st) && |st.toks| <= cap && Reaches(js, cap, st, goal)
    ensures |goal.toks| <= cap
    decreases |js| - st.pos
  {
    if st != goal {
      TokensFit(js, cap, Step(js, cap, st).st, goal);
    }
  }
}
