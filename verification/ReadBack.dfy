/** What the reader finds in a JSON text: the values the text spells, under the keys it spells. */
module ReadBack {
  import opened Bytes
  import opened Options
  import opened JsmnSpec
  import opened JsmnForest
  import opened PreorderLists
  import opened JsonText
  import opened JsonGrammar
  import opened GrammarTokens
  import opened JsonReader

  /** The sum of (size - 1) that skip() accumulates. */
  function Sum(ts: seq<Token>): int {
    if ts == [] then 0 else Sum(ts[..|ts| - 1]) + ts[|ts| - 1].size - 1
  }

  lemma {:induction false} SumAppend(a: seq<Token>, b: seq<Token>)
    ensures Sum(a + b) == Sum(a) + Sum(b)
  {
    if b == [] {
      assert a + b == a;
    } else {
      SumAppend(a, b[..|b| - 1]);
      assert (a + b)[..|a + b| - 1] == a + b[..|b| - 1];
    }
  }

  /** The tokens of n subtrees, one behind the other. */
  ghost predicate Balanced(ts: seq<Token>, n: int) {
    Sum(ts) == -n && forall k :: 0 <= k < |ts| ==> Sum(ts[..k]) > -n
  }

  lemma Concatenated(a: seq<Token>, b: seq<Token>, n: nat)
    requires Balanced(a, 1) && Balanced(b, n)
    ensures Balanced(a + b, n + 1)
  {
    SumAppend(a, b);
    forall k | 0 <= k < |a + b| ensures Sum((a + b)[..k]) > -(n + 1) {
      if k < |a| {
        assert (a + b)[..k] == a[..k];
      } else {
        assert (a + b)[..k] == a + b[..k - |a|];
        SumAppend(a, b[..k - |a|]);
      }
    }
  }

  lemma Wrapped(t: Token, inner: seq<Token>)
    requires Balanced(inner, t.size)
    ensures Balanced([t] + inner, 1)
  {
    SumAppend([t], inner);
    forall k | 0 <= k < |[t] + inner| ensures Sum(([t] + inner)[..k]) > -1 {
      if k > 0 {
        assert ([t] + inner)[..k] == [t] + inner[..k - 1];
        SumAppend([t], inner[..k - 1]);
      }
    }
  }

  lemma {:induction false} LayoutBalanced(t: Value, p: nat)
    ensures Balanced(Layout(t, p), 1)
    decreases t
  {
    if t.Arr? {
      LayoutElemsBalanced(t.elems, true, p + 1);
      Wrapped(Layout(t, p)[0], LayoutElems(t.elems, true, p + 1));
    } else if t.Obj? {
      LayoutMembersBalanced(t.members, true, p + 1);
      Wrapped(Layout(t, p)[0], LayoutMembers(t.members, true, p + 1));
    } else {
      Wrapped(Layout(t, p)[0], []);
    }
  }

  lemma {:induction false} LayoutElemsBalanced(es: seq<Elem>, first: bool, p: nat)
    ensures Balanced(LayoutElems(es, first, p), |es|)
    decreases es
  {
    hide Layout, LayoutElems, Spell, Lead, Balanced;
    NothingBalanced(first, p);
    if es != [] {
      LayoutElemsUnfold(es, first, p);
      var q := p + |Lead(es[0].gap, first, es[0].before)|;
      LayoutBalanced(es[0].value, q);
      LayoutElemsBalanced(es[1..], false, q + |Spell(es[0].value)|);
      Concatenated(Layout(es[0].value, q), LayoutElems(es[1..], false, q + |Spell(es[0].value)|), |es| - 1);
    }
  }

  lemma {:induction false} LayoutMembersBalanced(ms: seq<Member>, first: bool, p: nat)
    ensures Balanced(LayoutMembers(ms, first, p), |ms|)
    decreases ms
  {
    hide Layout, LayoutMembers, Spell, SpellKey, Lead, Balanced;
    NothingBalanced(first, p);
    if ms != [] {
      LayoutMembersUnfold(ms, first, p);
      var v := p + |Lead(ms[0].gap, first, ms[0].before)| + |SpellKey(ms[0])|;
      var block := MemberBalanced(ms[0], p + |Lead(ms[0].gap, first, ms[0].before)|);
      var tail := LayoutMembers(ms[1..], false, v + |Spell(ms[0].value)|);
      LayoutMembersBalanced(ms[1..], false, v + |Spell(ms[0].value)|);
      Concatenated(block, tail, |ms| - 1);
    }
  }

  lemma NothingBalanced(first: bool, p: nat)
    ensures Balanced(LayoutMembers([], first, p), 0) && Balanced(LayoutElems([], first, p), 0)
  {
  }

  lemma {:induction false} MemberBalanced(m: Member, q: nat) returns (block: seq<Token>)
    ensures block == [KeyToken(m.key, q, 1)] + Layout(m.value, q + |SpellKey(m)|) && Balanced(block, 1)
    decreases m
  {
    hide Layout, Spell, SpellKey, Balanced;
    LayoutBalanced(m.value, q + |SpellKey(m)|);
    Wrapped(KeyToken(m.key, q, 1), Layout(m.value, q + |SpellKey(m)|));
    block := [KeyToken(m.key, q, 1)] + Layout(m.value, q + |SpellKey(m)|);
  }

  /** The tokens of one subtree, standing at t, are exactly t's subtree. */
  lemma BlockIsSubtree(toks: seq<Token>, par: seq<int>, t: nat, block: seq<Token>)
    requires IsForest(toks, par) && block != [] && Balanced(block, 1)
    requires t + |block| <= |toks| && toks[t..t + |block|] == block
    ensures SubtreeEnd(par, t) == t + |block|
  {
    WalkBlock(toks, par, t, block, |block|);
    if t + |block| < |par| {
      assert block[..|block|] == block;
      PendingDone(par, t, t + |block|);
    }
    FirstBelowAt(par, t, t + 1, t + |block|);
  }

  lemma {:induction false} WalkBlock(toks: seq<Token>, par: seq<int>, t: nat, block: seq<Token>, k: nat)
    requires IsForest(toks, par) && 1 <= k <= |block| && Balanced(block, 1)
    requires t + |block| <= |toks| && toks[t..t + |block|] == block
    ensures forall j :: t < j < t + k ==> par[j] >= t
    ensures Attached(par, t + k, t, t + k) == 1 + Sum(block[..k])
    decreases k
  {
    assert toks[t + k - 1] == block[k - 1];
    assert block[..k][..k - 1] == block[..k - 1];
    if k == 1 {
      SizeIsAttachedLater(toks, par, t);
    } else {
      WalkBlock(toks, par, t, block, k - 1);
      PendingStep(toks, par, t, t + k - 1);
    }
  }

  /** The tree t stands in the text at p, and its tokens stand in the array at i. */
  ghost predicate Placed(js: Text, toks: seq<Token>, i: int, t: Value, p: nat) {
    && Occurs(js, p, Spell(t))
    && 0 <= i && BlockAt(toks, i, Layout(t, p))
  }

  ghost predicate IsPlaced(js: Text, toks: seq<Token>, i: int, t: Value) {
    exists p: nat :: Placed(js, toks, i, t, p)
  }

  /** The value of the first member whose key is spelled like this. */
  function Get(ms: seq<Member>, key: Text): Option<Value> {
    if ms == [] then None
    else if SpellPieces(ms[0].key) == key then Some(ms[0].value)
    else Get(ms[1..], key)
  }

  lemma KeyTokenMatches(js: Text, q: nat, m: Member, key: Text)
    requires Occurs(js, q, SpellKey(m))
    ensures q + 1 + |SpellPieces(m.key)| <= |js|
    ensures KeyIs(js, KeyToken(m.key, q, 1), key) <==> SpellPieces(m.key) == key
  {
    hide SpellPieces;
    KeyParts(js, q, m);
    OccursParts(js, q, [34] + SpellPieces(m.key), [34]);
    OccursParts(js, q, [34], SpellPieces(m.key));
    assert js[q + 1..q + 1 + |SpellPieces(m.key)|] == SpellPieces(m.key);
  }

  /** These tokens stand in the array from m on. */
  ghost predicate BlockAt(toks: seq<Token>, m: nat, block: seq<Token>) {
    m + |block| <= |toks| && toks[m..m + |block|] == block
  }

  lemma SplitRange(toks: seq<Token>, m: nat, a: seq<Token>, b: seq<Token>)
    requires BlockAt(toks, m, a + b)
    ensures BlockAt(toks, m, a) && BlockAt(toks, m + |a|, b)
  {
    assert toks[m..m + |a|] == (a + b)[..|a|];
    assert toks[m + |a|..m + |a| + |b|] == (a + b)[|a|..];
  }

  lemma MemberIsSubtree(js: Text, toks: seq<Token>, par: seq<int>, m: nat, mem: Member, q: nat)
    requires IsForest(toks, par)
    requires var w := q + |SpellKey(mem)|;
             var block := [KeyToken(mem.key, q, 1)] + Layout(mem.value, w);
             BlockAt(toks, m, block)
    ensures SubtreeEnd(par, m) == m + 1 + |Layout(mem.value, q + |SpellKey(mem)|)|
    ensures BlockAt(toks, m, [KeyToken(mem.key, q, 1)]) && BlockAt(toks, m + 1, Layout(mem.value, q + |SpellKey(mem)|))
  {
    hide Layout, SpellKey, Balanced, IsForest;
    var w := q + |SpellKey(mem)|;
    var key, value := KeyToken(mem.key, q, 1), Layout(mem.value, w);
    LayoutBalanced(mem.value, w);
    Wrapped(key, value);
    BlockIsSubtree(toks, par, m, [key] + value);
    SplitRange(toks, m, [key], value);
  }

  /** The members ms stand in the text from p on, up to `end`, and their tokens from index m on. */
  ghost predicate MembersAt(js: Text, toks: seq<Token>, ms: seq<Member>, first: bool, m: nat, p: nat, end: Text) {
    && Delimits(end)
    && Occurs(js, p, SpellMembers(ms, first) + end)
    && BlockAt(toks, m, LayoutMembers(ms, first, p))
  }

  lemma FirstMemberText(js: Text, ms: seq<Member>, first: bool, p: nat, end: Text)
    requires ms != [] && Occurs(js, p, SpellMembers(ms, first) + end) && Delimits(end)
    ensures var q := p + |Lead(ms[0].gap, first, ms[0].before)|;
            var w := q + |SpellKey(ms[0])|;
            && Occurs(js, q, SpellKey(ms[0])) && Occurs(js, w, Spell(ms[0].value))
            && Occurs(js, w + |Spell(ms[0].value)|, SpellMembers(ms[1..], false) + end)
  {
    hide Spell, SpellMembers, SpellKey, Occurs;
    MembersUnfold(ms, first);
    PartsOccur(js, p, Lead(ms[0].gap, first, ms[0].before), SpellKey(ms[0]), Spell(ms[0].value), SpellMembers(ms[1..], false), end);
  }

  lemma FirstMemberTokens(toks: seq<Token>, ms: seq<Member>, first: bool, m: nat, p: nat)
    requires ms != []
    requires BlockAt(toks, m, LayoutMembers(ms, first, p))
    ensures var q := p + |Lead(ms[0].gap, first, ms[0].before)|;
            var w := q + |SpellKey(ms[0])|;
            var block, tail := [KeyToken(ms[0].key, q, 1)] + Layout(ms[0].value, w), LayoutMembers(ms[1..], false, w + |Spell(ms[0].value)|);
            BlockAt(toks, m, block) && BlockAt(toks, m + |block|, tail)
  {
    hide BlockAt, Layout, LayoutMembers, Spell, SpellKey, KeyToken;
    LayoutMembersUnfold(ms, first, p);
    var q := p + |Lead(ms[0].gap, first, ms[0].before)|;
    var w := q + |SpellKey(ms[0])|;
    SplitRange(toks, m, [KeyToken(ms[0].key, q, 1)] + Layout(ms[0].value, w), LayoutMembers(ms[1..], false, w + |Spell(ms[0].value)|));
  }

  lemma FirstMember(js: Text, toks: seq<Token>, ms: seq<Member>, first: bool, m: nat, p: nat, end: Text)
    requires ms != [] && MembersAt(js, toks, ms, first, m, p, end)
    ensures var q := p + |Lead(ms[0].gap, first, ms[0].before)|;
            var w := q + |SpellKey(ms[0])|;
            var block := [KeyToken(ms[0].key, q, 1)] + Layout(ms[0].value, w);
            && Occurs(js, q, SpellKey(ms[0])) && Occurs(js, w, Spell(ms[0].value))
            && BlockAt(toks, m, block)
            && MembersAt(js, toks, ms[1..], false, m + |block|, w + |Spell(ms[0].value)|, end)
  {
    hide Spell, Layout, SpellMembers, LayoutMembers, SpellKey, Occurs;
    FirstMemberText(js, ms, first, p, end);
    FirstMemberTokens(toks, ms, first, m, p);
  }

  /** The lookup steps over a member's subtree. */
  lemma LookupTurn(js: Text, toks: seq<Token>, par: seq<int>, o: nat, m: nat, key: Text)
    requires IsDocument(js, toks, par) && m < |toks| && par[m] == o && toks[m].size == 1
    ensures var e := SubtreeEnd(par, m);
            && |ChildrenFrom(par, o, m)| == 1 + |ChildrenFrom(par, o, e)|
            && (|ChildrenFrom(par, o, e)| > 0 ==> e < |toks| && par[e] == o)
            && Lookup(js, toks, ChildrenFrom(par, o, m), key)
               == if KeyIs(js, toks[m], key) then m + 1 else Lookup(js, toks, ChildrenFrom(par, o, e), key)
  {
    NextSibling(par, o, m);
    var e := SubtreeEnd(par, m);
    assert ChildrenFrom(par, o, m)[1..] == ChildrenFrom(par, o, e);
  }

  /** The lookup among the members from token m on finds what Get finds among the members ms. */
  lemma {:induction false} LookupIsGet(js: Text, toks: seq<Token>, par: seq<int>, o: nat, ms: seq<Member>, first: bool, m: nat, p: nat, key: Text, end: Text)
    requires IsDocument(js, toks, par) && MembersAt(js, toks, ms, first, m, p, end)
    requires |ChildrenFrom(par, o, m)| == |ms| && (ms != [] ==> par[m] == o)
    ensures var v := Lookup(js, toks, ChildrenFrom(par, o, m), key);
            if Get(ms, key).None? then v == -1 else IsPlaced(js, toks, v, Get(ms, key).value)
    decreases |ms|
  {
    hide Spell, Layout, SpellMembers, LayoutMembers, SpellKey, ChildrenFrom, MembersAt, Occurs, IsPlaced, IsDocument, SpellPieces, Lead;
    if ms != [] {
      var q := p + |Lead(ms[0].gap, first, ms[0].before)|;
      var w := q + |SpellKey(ms[0])|;
      FirstMember(js, toks, ms, first, m, p, end);
      MemberTurn(js, toks, par, o, ms[0], m, q, key);
      if SpellPieces(ms[0].key) != key {
        LookupIsGet(js, toks, par, o, ms[1..], false, m + 1 + |Layout(ms[0].value, w)|, w + |Spell(ms[0].value)|, key, end);
      }
    }
  }

  lemma MemberTurn(js: Text, toks: seq<Token>, par: seq<int>, o: nat, mem: Member, m: nat, q: nat, key: Text)
    requires IsDocument(js, toks, par) && m < |toks| && par[m] == o
    requires var w := q + |SpellKey(mem)|;
             var block := [KeyToken(mem.key, q, 1)] + Layout(mem.value, w);
             && Occurs(js, q, SpellKey(mem)) && Occurs(js, w, Spell(mem.value))
             && BlockAt(toks, m, block)
    ensures var e := m + 1 + |Layout(mem.value, q + |SpellKey(mem)|)|;
            && e <= |toks|
            && |ChildrenFrom(par, o, m)| == 1 + |ChildrenFrom(par, o, e)|
            && (|ChildrenFrom(par, o, e)| > 0 ==> e < |toks| && par[e] == o)
            && (SpellPieces(mem.key) != key ==> Lookup(js, toks, ChildrenFrom(par, o, m), key) == Lookup(js, toks, ChildrenFrom(par, o, e), key))
            && (SpellPieces(mem.key) == key ==> IsPlaced(js, toks, Lookup(js, toks, ChildrenFrom(par, o, m), key), mem.value))
  {
    hide Lookup, ChildrenFrom, Spell, Layout, SpellKey, KeyIs, SpellPieces, SubtreeEnd, IsForest, Occurs;
    MemberIsSubtree(js, toks, par, m, mem, q);
    assert toks[m] == KeyToken(mem.key, q, 1);
    LookupTurn(js, toks, par, o, m, key);
    KeyTokenMatches(js, q, mem, key);
    assert Placed(js, toks, m + 1, mem.value, q + |SpellKey(mem)|);
  }

  /** find() on an object gives the value of the first member whose key is spelled so, or -1 when there is none. */
  lemma FindIsGet(js: Text, toks: seq<Token>, par: seq<int>, o: int, t: Value, key: Text)
    requires IsDocument(js, toks, par) && IsPlaced(js, toks, o, t) && t.Obj?
    ensures var v := FindSpec(js, toks, par, o, key);
            if Get(t.members, key).None? then v == -1 else IsPlaced(js, toks, v, Get(t.members, key).value)
  {
    hide Spell, SpellMembers, LayoutMembers, ChildrenFrom;
    var p: nat :| Placed(js, toks, o, t, p);
    var inner, end := LayoutMembers(t.members, true, p + 1), t.tail + [125];
    ObjectText(t, p);
    TailDelimits(t.tail, 125);
    Brackets(js, p, 123, SpellMembers(t.members, true), end);
    SplitRange(toks, o, [Layout(t, p)[0]], inner);
    assert toks[o] == Layout(t, p)[0] && MembersAt(js, toks, t.members, true, o + 1, p + 1, end);
    hide Layout, MembersAt, Occurs;
    SizeIsChildren(toks, par, o);
    if t.members != [] {
      FirstChild(toks, par, o);
      LookupIsGet(js, toks, par, o, t.members, true, o + 1, p + 1, key, end);
    }
  }

  // ---- Numbers ----

  lemma {:induction false} DigitSumBounds(t: Text)
    requires AllDigits(t)
    ensures 0 <= DigitSum(t) < Pow10(|t|)
  {
    if t != [] {
      DigitSumBounds(t[1..]);
      var d, p := t[0] as int - 48, Pow10(|t| - 1);
      assert DigitSum(t) == d * p + DigitSum(t[1..]) && Pow10(|t|) == 10 * p;
      hide DigitSum, Pow10;
      DigitTimes(d, p);
    }
  }

  lemma DigitTimes(d: int, p: nat)
    requires 0 <= d <= 9
    ensures 0 <= d * p <= 9 * p
  {
  }

  lemma TenTimes(d: int, p: int)
    ensures d * (10 * p) == 10 * (d * p)
  {
  }

  lemma {:induction false} DigitSumSnoc(t: Text, d: Byte)
    ensures DigitSum(t + [d]) == 10 * DigitSum(t) + (d as int - 48)
  {
    if t == [] {
      assert t + [d] == [d];
    } else {
      var u := t + [d];
      assert u[1..] == t[1..] + [d] && u[0] == t[0];
      DigitSumSnoc(t[1..], d);
      var p := Pow10(|t| - 1);
      assert Pow10(|u| - 1) == 10 * p;
      assert DigitSum(u) == (t[0] as int - 48) * (10 * p) + DigitSum(u[1..]);
      assert DigitSum(t) == (t[0] as int - 48) * p + DigitSum(t[1..]);
      hide DigitSum, Pow10;
      TenTimes(t[0] as int - 48, p);
    }
  }

  /** Reading digits from the left gives what they denote. */
  lemma {:induction false} DigitsDenote(t: Text)
    requires AllDigits(t)
    ensures DigitsValue(t) == DigitSum(t)
  {
    if t != [] {
      var rest := t[..|t| - 1];
      assert t == rest + [t[|t| - 1]];
      DigitsDenote(rest);
      DigitSumSnoc(rest, t[|t| - 1]);
    }
  }

  predicate AreDigits(t: Text) {
    |t| > 0 && forall i :: 0 <= i < |t| ==> 48 <= t[i] <= 57
  }

  /** Decimal digits behind an optional minus sign, and what they denote. */
  ghost predicate Denotes(t: Text, v: int) {
    if t != [] && t[0] == 45 then AreDigits(t[1..]) && v == -DigitSum(t[1..]) else AreDigits(t) && v == DigitSum(t)
  }

  /** int_at() takes exactly such texts for numbers. */
  lemma ParseIntIff(t: Text, v: int)
    ensures ParseInt(t) == Some(v) <==> Denotes(t, v)
  {
    var digits := if t != [] && t[0] == 45 then t[1..] else t;
    assert |digits| > 0 && AllDigits(digits) <==> AreDigits(digits);
    if AllDigits(digits) {
      DigitsDenote(digits);
    }
  }

  /** A number without a leading zero that has more than 19 digits exceeds every int64. */
  lemma LongNumber(w: Whole)
    requires |w| > 19
    ensures DigitSum(w) > INT64_MAX + 1
  {
    DigitSumBounds(w[1..]);
    Pow10Grows(19, |w| - 1);
    assert Pow10(5) == 100000;
    assert Pow10(10) == 10000000000;
    assert Pow10(15) == 1000000000000000;
    assert Pow10(19) == 10000000000000000000;
  }

  lemma {:induction false} Pow10Grows(a: nat, b: nat)
    requires a <= b
    ensures 0 < Pow10(a) <= Pow10(b)
    decreases b
  {
    if a < b {
      Pow10Grows(a, b - 1);
    } else if a > 0 {
      Pow10Grows(a - 1, b - 1);
    }
  }

  /** What int_at() makes of a number's text: its value when it is written as an integer. */
  lemma NumberReads(n: Number)
    ensures ParseInt(SpellNumber(n)) == IntegerMeaning(n)
    ensures IntegerMeaning(n).Some? && INT64_MIN <= IntegerMeaning(n).value <= INT64_MAX ==> |SpellNumber(n)| <= 20
  {
    if n.fraction.None? && n.exponent.None? {
      IntegerReads(n);
    } else {
      FractionReads(n);
    }
  }

  lemma IntegerReads(n: Number)
    requires n.fraction.None? && n.exponent.None?
    ensures ParseInt(SpellNumber(n)) == IntegerMeaning(n)
    ensures INT64_MIN <= IntegerMeaning(n).value <= INT64_MAX ==> |SpellNumber(n)| <= 20
  {
    hide Pow10;
    DigitsDenote(n.whole);
    DigitSumBounds(n.whole);
    assert SpellNumber(n) == if n.minus then [45] + n.whole else n.whole;
    if |n.whole| > 19 {
      LongNumber(n.whole);
    }
  }

  lemma FractionReads(n: Number)
    requires n.fraction.Some? || n.exponent.Some?
    ensures ParseInt(SpellNumber(n)) == None
  {
    var x, sign := SpellNumber(n), if n.minus then 1 else 0;
    var k := sign + |n.whole|;
    assert x[k] == if n.fraction.Some? then 46 else if n.exponent.value.capital then 69 else 101;
    assert !IsDigit(x[k]) && x[sign] == n.whole[0];
    if n.minus {
      assert x[1..][k - 1] == x[k];
    }
  }

  lemma NumberIsNoLiteral(n: Number)
    ensures SpellNumber(n) != TRUE && SpellNumber(n) != FALSE
  {
    assert SpellNumber(n)[0] == if n.minus then 45 else n.whole[0];
  }

  // ---- Values ----

  lemma WordPlaced(js: Text, toks: seq<Token>, i: int, t: Value)
    requires IsPlaced(js, toks, i, t) && IsWord(t)
    ensures 0 <= i < |toks| && toks[i].kind == Primitive && 0 <= toks[i].start <= toks[i].end <= |js|
    ensures TextOf(js, toks[i]) == Spell(t)
  {
    hide Spell;
    var p: nat :| Placed(js, toks, i, t, p);
    LayoutOfWord(t, p);
    assert toks[i] == Layout(t, p)[0];
  }

  /** Any other token is of another kind. */
  lemma OtherPlaced(js: Text, toks: seq<Token>, i: int, t: Value)
    requires IsPlaced(js, toks, i, t)
    ensures 0 <= i < |toks| && (toks[i].kind == Primitive <==> IsWord(t)) && (toks[i].kind == String <==> t.Str?) && (toks[i].kind == Object <==> t.Obj?)
  {
    hide Spell;
    var p: nat :| Placed(js, toks, i, t, p);
    LayoutClosed(t, p);
    assert toks[i] == Layout(t, p)[0];
  }

  lemma ReadString(js: Text, toks: seq<Token>, par: seq<int>, i: int, t: Value)
    requires IsDocument(js, toks, par) && IsPlaced(js, toks, i, t) && t.Str?
    ensures StrSpec(js, toks, i) == Some(StringMeaning(t.pieces))
  {
    hide SpellPieces, Decode, StringMeaning;
    var p: nat :| Placed(js, toks, i, t, p);
    assert toks[i] == Layout(t, p)[0] == KeyToken(t.pieces, p, 0);
    OccursParts(js, p, [34] + SpellPieces(t.pieces), [34]);
    OccursParts(js, p, [34], SpellPieces(t.pieces));
    StringDecodes(js, p + 1, t.pieces);
  }

  /** The int64 a value reads as: only a number written without fraction and exponent, and in range. */
  function Int64Of(t: Value): Option<int> {
    if t.Num? && IntegerMeaning(t.n).Some? && -0x8000_0000_0000_0000 <= IntegerMeaning(t.n).value <= 0x7FFF_FFFF_FFFF_FFFF
    then IntegerMeaning(t.n) else None
  }

  function StringOf(t: Value): Option<Text> {
    if t.Str? then Some(StringMeaning(t.pieces)) else None
  }

  function BoolOf(t: Value): Option<bool> {
    if t == Lit(TrueWord) then Some(true) else if t == Lit(FalseWord) then Some(false) else None
  }

  /** str_at(), int_at() and get_bool() on this token give exactly what this value is; -1 stands for no value. */
  ghost predicate ReadsAs(js: Text, toks: seq<Token>, tok: int, value: Option<Value>)
    requires forall i :: 0 <= i < |toks| ==> 0 <= toks[i].start <= toks[i].end <= |js|
  {
    match value
    case None => tok == -1
    case Some(t) =>
      && 0 <= tok < |toks|
      && StrSpec(js, toks, tok) == StringOf(t) && IntSpec(js, toks, tok) == Int64Of(t) && BoolSpec(js, toks, tok) == BoolOf(t)
      && (toks[tok].kind == Object <==> t.Obj?)
  }

  lemma ReadNumber(js: Text, toks: seq<Token>, par: seq<int>, i: int, t: Value)
    requires IsDocument(js, toks, par) && IsPlaced(js, toks, i, t) && t.Num?
    ensures IntSpec(js, toks, i) == Int64Of(t) && BoolSpec(js, toks, i) == None
  {
    hide IsPlaced, SpellNumber, ParseInt, IntegerMeaning;
    WordPlaced(js, toks, i, t);
    NumberText(t.n);
    NumberReads(t.n);
    NumberIsNoLiteral(t.n);
  }

  lemma ReadWord(js: Text, toks: seq<Token>, par: seq<int>, i: int, t: Value)
    requires IsDocument(js, toks, par) && IsPlaced(js, toks, i, t) && t.Lit?
    ensures IntSpec(js, toks, i) == None && BoolSpec(js, toks, i) == BoolOf(t)
  {
    hide IsPlaced;
    WordPlaced(js, toks, i, t);
    assert !AllDigits(Spell(t)) by {
      assert !IsDigit(Spell(t)[0]);
    }
  }

  /** The three accessors give exactly what the value is, and nothing on a value of another type. */
  lemma ReadValue(js: Text, toks: seq<Token>, par: seq<int>, i: int, t: Value)
    requires IsDocument(js, toks, par) && IsPlaced(js, toks, i, t)
    ensures ReadsAs(js, toks, i, Some(t))
  {
    hide IsPlaced, Decode, ParseInt, IntegerMeaning, StringMeaning;
    OtherPlaced(js, toks, i, t);
    if t.Str? {
      ReadString(js, toks, par, i, t);
    } else if t.Num? {
      ReadNumber(js, toks, par, i, t);
    } else if t.Lit? {
      ReadWord(js, toks, par, i, t);
    }
  }

  // ---- Chains of keys ----

  /** The value at the end of a chain of keys. */
  function Follow(t: Value, path: seq<Text>): Option<Value>
    decreases |path|
  {
    if path == [] then Some(t)
    else if !t.Obj? || Get(t.members, path[0]).None? then None
    else Follow(Get(t.members, path[0]).value, path[1..])
  }

  /** find() repeated along a chain of keys, the way the callers nest it. */
  ghost function FindPath(js: Text, toks: seq<Token>, par: seq<int>, i: int, path: seq<Text>): int
    requires IsDocument(js, toks, par)
    decreases |path|
  {
    if path == [] then i else FindPath(js, toks, par, FindSpec(js, toks, par, i, path[0]), path[1..])
  }

  lemma {:induction false} FindPathMissing(js: Text, toks: seq<Token>, par: seq<int>, path: seq<Text>)
    requires IsDocument(js, toks, par)
    ensures FindPath(js, toks, par, -1, path) == -1
    decreases |path|
  {
    if path != [] {
      FindPathMissing(js, toks, par, path[1..]);
    }
  }

  lemma {:induction false} FindPathIsFollow(js: Text, toks: seq<Token>, par: seq<int>, i: int, t: Value, path: seq<Text>)
    requires IsDocument(js, toks, par) && IsPlaced(js, toks, i, t)
    ensures if Follow(t, path).None? then FindPath(js, toks, par, i, path) == -1
            else IsPlaced(js, toks, FindPath(js, toks, par, i, path), Follow(t, path).value)
    decreases |path|
  {
    if path != [] {
      if t.Obj? {
        FindIsGet(js, toks, par, i, t, path[0]);
        var v := FindSpec(js, toks, par, i, path[0]);
        if v == -1 {
          FindPathMissing(js, toks, par, path[1..]);
        } else {
          FindPathIsFollow(js, toks, par, v, Get(t.members, path[0]).value, path[1..]);
        }
      } else {
        var p: nat :| Placed(js, toks, i, t, p);
        LayoutClosed(t, p);
        assert toks[i] == Layout(t, p)[0];
        FindPathMissing(js, toks, par, path[1..]);
      }
    }
  }

  lemma DocumentPlaced(d: Document)
    ensures Placed(SpellDocument(d), LayoutDocument(d), 0, d.value, |d.before|)
  {
    hide Spell, Layout, Occurs;
    DocumentParts(d);
    assert LayoutDocument(d)[0..|LayoutDocument(d)|] == LayoutDocument(d);
  }

  /** The keys of an accepted JSON text lead to its values, for whatever list of parents the reader holds. */
  lemma TextIsRead(d: Document, par: seq<int>, path: seq<Text>)
    requires IsDocument(SpellDocument(d), LayoutDocument(d), par)
    ensures ReadsAs(SpellDocument(d), LayoutDocument(d), FindPath(SpellDocument(d), LayoutDocument(d), par, 0, path), Follow(d.value, path))
  {
    hide ReadsAs;
    var js, toks := SpellDocument(d), LayoutDocument(d);
    DocumentPlaced(d);
    hide SpellDocument, LayoutDocument, Placed, IsDocument;
    FindPathIsFollow(js, toks, par, 0, d.value, path);
    PathReads(js, toks, par, FindPath(js, toks, par, 0, path), Follow(d.value, path));
  }

  lemma PathReads(js: Text, toks: seq<Token>, par: seq<int>, tok: int, value: Option<Value>)
    requires IsDocument(js, toks, par)
    requires if value.None? then tok == -1 else IsPlaced(js, toks, tok, value.value)
    ensures ReadsAs(js, toks, tok, value)
  {
    if value.Some? {
      ReadValue(js, toks, par, tok, value.value);
    }
  }

  /** Nested find() calls. */
  method FollowPath(r: Reader, path: seq<Text>) returns (tok: int)
    requires r.Valid()
    ensures tok == FindPath(r.json, r.Toks(), r.par, 0, path)
  {
    hide FindSpec;
    tok := 0;
    assert path[0..] == path;
    for k := 0 to |path|
      invariant FindPath(r.json, r.Toks(), r.par, tok, path[k..]) == FindPath(r.json, r.Toks(), r.par, 0, path)
    {
      assert path[k..][1..] == path[k + 1..];
      tok := r.Find(tok, path[k]);
    }
  }

  /**
   parse() accepts every JSON text whose value is an object and whose tokens fit, and find() along any chain of keys
   then leads to the value the text has there.
   */
  method ReadText(text: Text, ghost d: Document, maxTokens: nat, path: seq<Text>) returns (r: Reader, status: ParseStatus, tok: int)
    requires text == SpellDocument(d) && (IsWord(d.value) ==> d.after != [])
    ensures status == if |LayoutDocument(d)| > maxTokens then NoMem else if d.value.Obj? then Ok else InvalidArg
    ensures status.Ok? ==> r.Valid() && r.json == text && r.Toks() == LayoutDocument(d) && ReadsAs(text, r.Toks(), tok, Follow(d.value, path))
  {
    hide SpellDocument, LayoutDocument, Layout, ReadsAs, IsDocument, Follow, FindPath, Tokenize;
    TextParses(d, maxTokens);
    FirstKind(d);
    tok := -1;
    r := new Reader(maxTokens);
    status := r.Parse(text);
    if status == Ok {
      tok := FollowPath(r, path);
      TextIsRead(d, r.par, path);
    }
  }
}
