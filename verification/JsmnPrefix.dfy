/** Cut-off documents: when the tokenizer accepts a proper prefix of a document, and when it cannot. */
module JsmnPrefix {
  import opened Bytes
  import opened JsmnSpec
  import opened JsmnForest
  import opened JsonText
  import opened JsonReader

  lemma {:induction false} HexRunPrefix(js: Text, m: nat, p: nat, n: nat)
    requires m <= |js| && p + n <= m
    ensures HexRun(js[..m], p, n) == HexRun(js, p, n)
    decreases n
  {
    if n > 0 {
      HexRunPrefix(js, m, p + 1, n - 1);
    }
  }

  /** A \uXXXX escape inside a string that closes. */
  lemma UnicodeStep(js: Text, p: nat)
    requires p + 1 < |js| && js[p] == BACKSLASH && js[p + 1] == LOWER_U && StringEnd(js, p).Found?
    ensures HexRun(js, p + 2, 4) == 4 && p + 6 <= |js| && StringEnd(js, p) == StringEnd(js, p + 6)
  {
    HexRunFull(js, p + 2, 4);
  }

  lemma UnicodePrefix(js: Text, m: nat, p: nat)
    requires p + 1 < m <= |js| && js[p] == BACKSLASH && js[p + 1] == LOWER_U
    requires StringEnd(js[..m], p).Found? || (StringEnd(js, p).Found? && StringEnd(js, p).at < m)
    ensures p + 6 <= m
    ensures StringEnd(js[..m], p) == StringEnd(js[..m], p + 6) && StringEnd(js, p) == StringEnd(js, p + 6)
  {
    var cut := js[..m];
    UnicodeStep(if StringEnd(cut, p).Found? then cut else js, p);
    HexRunPrefix(js, m, p + 2, 4);
  }

  /** A string that closes within the prefix closes at the same place in the whole text, and the other way round. */
  lemma {:induction false} StringEndPrefix(js: Text, m: nat, p: nat)
    requires m <= |js|
    requires StringEnd(js[..m], p).Found? || (StringEnd(js, p).Found? && StringEnd(js, p).at < m)
    ensures StringEnd(js[..m], p) == StringEnd(js, p)
    decreases |js| - p
  {
    hide HexRun;
    if js[p] == QUOTE {
    } else if js[p] == BACKSLASH && p + 1 < |js| {
      if js[p + 1] == LOWER_U {
        UnicodePrefix(js, m, p);
        StringEndPrefix(js, m, p + 6);
      } else {
        StringEndPrefix(js, m, p + 2);
      }
    } else {
      StringEndPrefix(js, m, p + 1);
    }
  }

  lemma {:induction false} PrimitiveEndPrefix(js: Text, m: nat, p: nat)
    requires m <= |js|
    requires PrimitiveEnd(js[..m], p).Found? || (PrimitiveEnd(js, p).Found? && PrimitiveEnd(js, p).at < m)
    ensures PrimitiveEnd(js[..m], p) == PrimitiveEnd(js, p)
    decreases |js| - p
  {
    if !EndsPrimitive(js[p]) {
      PrimitiveEndPrefix(js, m, p + 1);
    }
  }

  /** A turn that stays within the prefix is the same turn. */
  lemma StepPrefix(js: Text, m: nat, cap: nat, st: State)
    requires m <= |js| && Valid(st) && st.pos < m && js[st.pos] != NUL
    requires Step(js[..m], cap, st).Continue?
             || (Step(js, cap, st).Continue? && (Step(js, cap, st).st.pos < m || js[st.pos] == CLOSE_BRACE))
    ensures Step(js[..m], cap, st) == Step(js, cap, st)
  {
    var c := js[st.pos];
    if c == QUOTE {
      StringEndPrefix(js, m, st.pos + 1);
    } else if StartsPrimitive(c) {
      PrimitiveEndPrefix(js, m, st.pos);
    }
  }

  /** The tokens a turn leaves alone: kind and start of every token, and the end of a closed one. */
  ghost predicate Settled(before: seq<Token>, after: seq<Token>) {
    && |before| <= |after|
    && forall i :: 0 <= i < |before| ==>
         && after[i].kind == before[i].kind && after[i].start == before[i].start
         && (!IsOpen(before[i]) ==> after[i].end == before[i].end)
  }

  lemma {:induction false} RunSettles(js: Text, cap: nat, st: State)
    requires Valid(st) && Run(js, cap, st).Tokens?
    ensures Settled(st.toks, Run(js, cap, st).toks)
    decreases |js| - st.pos
  {
    if !AtEnd(js, st) {
      RunSettles(js, cap, Step(js, cap, st).st);
    }
  }

  /** When a prefix is accepted, the whole text is tokenized on from the prefix's tokens. */
  lemma {:induction false} PrefixThenRest(js: Text, m: nat, cap: nat, st: State)
    requires m <= |js| && Valid(st) && st.pos <= m && Run(js[..m], cap, st).Tokens? && Run(js, cap, st).Tokens?
    ensures Settled(Run(js[..m], cap, st).toks, Run(js, cap, st).toks)
    decreases |js| - st.pos
  {
    if AtEnd(js[..m], st) {
      RunSettles(js, cap, st);
    } else {
      StepPrefix(js, m, cap, st);
      PrefixThenRest(js, m, cap, Step(js, cap, st).st);
    }
  }

  /** The prefix that ends where the root closes is accepted. */
  lemma {:induction false} UpToRoot(js: Text, cap: nat, st: State, par: seq<int>, e: nat)
    requires ForestInv(st, par) && SpanInv(js, st) && Run(js, cap, st).Tokens? && st.pos <= e <= |js|
    requires st.toks == [] || IsOpen(st.toks[0])
    requires Run(js, cap, st).toks != [] && Run(js, cap, st).toks[0].kind == Object && Run(js, cap, st).toks[0].end == e
    ensures Run(js[..e], cap, st).Tokens? && Run(js[..e], cap, st).toks != [] && Run(js[..e], cap, st).toks[0].kind == Object
    decreases |js| - st.pos
  {
    if !AtEnd(js, st) {
      var st' := Step(js, cap, st).st;
      forall i | 0 <= i < |st.toks| && IsOpen(st.toks[i]) ensures IsContainer(st.toks[i]) {
        assert SpanOk(js, st.toks[i], st.pos);
      }
      var par' := StepKeepsForest(js, cap, st, par);
      StepKeepsSpans(js, cap, st);
      RunSettles(js, cap, st');
      if st'.toks == [] || IsOpen(st'.toks[0]) {
        LaterEnd(js, cap, st', e);
        StepPrefix(js, e, cap, st);
        UpToRoot(js, cap, st', par', e);
      } else {
        RootCloses(js, cap, st, e);
      }
    }
  }

  /** A root that is still open closes later than where the parser stands. */
  lemma {:induction false} LaterEnd(js: Text, cap: nat, st: State, e: nat)
    requires Valid(st) && SpanInv(js, st) && Run(js, cap, st).Tokens? && (st.toks == [] || IsOpen(st.toks[0]))
    requires Run(js, cap, st).toks != [] && Run(js, cap, st).toks[0].kind == Object && Run(js, cap, st).toks[0].end == e
    ensures st.pos < e
    decreases |js| - st.pos
  {
    if !AtEnd(js, st) {
      var st' := Step(js, cap, st).st;
      StepKeepsSpans(js, cap, st);
      RunSettles(js, cap, st');
      if st'.toks == [] || IsOpen(st'.toks[0]) {
        LaterEnd(js, cap, st', e);
      }
    }
  }

  lemma RootCloses(js: Text, cap: nat, st: State, e: nat)
    requires Valid(st) && !AtEnd(js, st) && Step(js, cap, st).Continue?
    requires st.toks == [] || IsOpen(st.toks[0])
    requires var st' := Step(js, cap, st).st;
             && st'.toks != [] && !IsOpen(st'.toks[0]) && st'.toks[0].kind == Object && st'.toks[0].start >= 0
             && st'.toks[0].end == e <= |js|
    ensures Run(js[..e], cap, st) == Tokens(Step(js, cap, st).st.toks)
  {
    var st' := Step(js, cap, st).st;
    assert js[st.pos] == CLOSE_BRACE && st'.pos == e;
    StepPrefix(js, e, cap, st);
    forall i | 0 <= i < |st'.toks| ensures !IsOpen(st'.toks[i]) {
      assert LastOpen(st.toks, |st.toks|) == 0;
    }
    assert Run(js[..e], cap, st) == Run(js[..e], cap, st') == Finish(st');
  }

  ghost predicate Accepted(js: Text, cap: nat) {
    ParseOutcome(Tokenize(js, cap)).Ok?
  }

  /**
   A cut-off document is never mistaken for a whole one exactly when the document's last byte closes its root
   object; otherwise the text up to the root's closing brace is already accepted.
   */
  lemma NoProperPrefixAccepted(js: Text, cap: nat)
    requires Accepted(js, cap)
    ensures (forall m: nat :: m < |js| ==> !Accepted(js[..m], cap)) <==> Tokenize(js, cap).toks[0].end == |js|
  {
    var toks := Tokenize(js, cap).toks;
    var par := AcceptedIsDocument(js, cap);
    assert SpanOk(js, toks[0], |js|);
    var e := toks[0].end;
    if e == |js| {
      forall m: nat | m < |js| ensures !Accepted(js[..m], cap) {
        if Accepted(js[..m], cap) {
          var _ := AcceptedIsDocument(js[..m], cap);
          assert SpanOk(js[..m], Tokenize(js[..m], cap).toks[0], m);
          PrefixThenRest(js, m, cap, INIT);
        }
      }
    } else {
      UpToRoot(js, cap, INIT, [], e);
      assert Accepted(js[..e], cap);
    }
  }

  /** A larger token array changes nothing for a text that was accepted. */
  lemma {:induction false} MoreTokens(js: Text, cap: nat, more: nat, st: State)
    requires Valid(st) && Run(js, cap, st).Tokens? && cap <= more
    ensures Run(js, more, st) == Run(js, cap, st)
    decreases |js| - st.pos
  {
    if !AtEnd(js, st) {
      assert Step(js, more, st) == Step(js, cap, st);
      MoreTokens(js, cap, more, Step(js, cap, st).st);
    }
  }

  /** A text whose last byte closes its root object, read with tokens enough. */
  ghost predicate ClosesAtEnd(js: Text) {
    exists cap: nat :: EndsWithRoot(js, cap)
  }

  ghost predicate EndsWithRoot(js: Text, cap: nat) {
    Accepted(js, cap) && Tokenize(js, cap).toks[0].end == |js|
  }

  /** Whatever the token arrays, an accepted prefix of such a text is all of it. */
  lemma AcceptedPrefixIsWhole(prefix: Text, js: Text, cap: nat)
    requires Accepted(prefix, cap) && prefix <= js && ClosesAtEnd(js)
    ensures prefix == js
  {
    var capJs: nat :| EndsWithRoot(js, capJs);
    var more := if cap < capJs then capJs else cap;
    MoreTokens(js, capJs, more, INIT);
    MoreTokens(prefix, cap, more, INIT);
    NoProperPrefixAccepted(js, more);
    assert js[..|prefix|] == prefix;
  }
}
