/** A level that is applied from outside "tags": the document, its tokens, and what decode_log_config() makes of them. */
module LogConfigExample {
  import opened Bytes
  import opened Options
  import opened JsmnSpec
  import opened JsmnForest
  import opened PreorderLists
  import opened JsonText
  import opened JsonReader
  import opened GrammarTokens
  import opened LogConfig

  /** {"tags":{"a" "none"},"b":"none"} */
  function Astray(): Text {
    [123, 34, 116, 97, 103, 115, 34, 58, 123, 34, 97, 34, 32, 34, 110, 111, 110, 101, 34, 125, 44, 34, 98, 34, 58, 34, 110, 111, 110, 101, 34, 125]
  }

  lemma {:induction false} PlainStringEnd(js: Text, p: nat, e: nat)
    requires p <= e < |js| && js[e] == QUOTE
    requires forall i :: p <= i < e ==> js[i] != QUOTE && js[i] != BACKSLASH && js[i] != NUL
    ensures StringEnd(js, p) == Found(e)
    decreases e - p
  {
    if p < e {
      PlainStringEnd(js, p + 1, e);
    }
  }

  const ROOT := Token(Object, 0, -1, 1)
  const TAGS_KEY := Token(String, 2, 6, 1)
  const A := Token(String, 10, 11, 0)
  const A_NONE := Token(String, 14, 18, 0)
  const B := Token(String, 22, 23, 1)
  const B_NONE := Token(String, 26, 30, 0)

  lemma Turn(js: Text, cap: nat, st: State, st': State)
    requires Valid(st) && !AtEnd(js, st) && Step(js, cap, st) == Continue(st')
    ensures Run(js, cap, st) == Run(js, cap, st')
  {
  }

  const INNER := Token(Object, 8, -1, 0)

  /** Where its delimiters are. */
  lemma AstrayScan()
    ensures var js := Astray();
            && |js| == 32
            && js[0] == OPEN_BRACE && js[8] == OPEN_BRACE && js[19] == CLOSE_BRACE && js[31] == CLOSE_BRACE
            && js[7] == COLON && js[24] == COLON && js[20] == COMMA && js[12] == SPACE
            && js[1] == QUOTE && js[9] == QUOTE && js[13] == QUOTE && js[21] == QUOTE && js[25] == QUOTE
    ensures StringEnd(Astray(), 2) == Found(6) && StringEnd(Astray(), 10) == Found(11) && StringEnd(Astray(), 14) == Found(18)
    ensures StringEnd(Astray(), 22) == Found(23) && StringEnd(Astray(), 26) == Found(30)
  {
    AstrayQuotes();
    var js := Astray();
    hide Astray, StringEnd;
    PlainStringEnd(js, 2, 6);
    PlainStringEnd(js, 10, 11);
    PlainStringEnd(js, 14, 18);
    PlainStringEnd(js, 22, 23);
    PlainStringEnd(js, 26, 30);
  }

  lemma AstrayQuotes()
    ensures var js := Astray();
            && |js| == 32
            && js[0] == OPEN_BRACE && js[8] == OPEN_BRACE && js[19] == CLOSE_BRACE && js[31] == CLOSE_BRACE
            && js[7] == COLON && js[24] == COLON && js[20] == COMMA && js[12] == SPACE
            && js[1] == QUOTE && js[9] == QUOTE && js[13] == QUOTE && js[21] == QUOTE && js[25] == QUOTE
            && js[6] == QUOTE && js[11] == QUOTE && js[18] == QUOTE && js[23] == QUOTE && js[30] == QUOTE
            && js[10] == LOWER_A && js[22] == LOWER_B
            && (forall i :: 2 <= i < 6 || 14 <= i < 18 || 26 <= i < 30 ==> js[i] > 96)
            && js[2] == LOWER_T && js[3] == LOWER_A && js[4] == 103 && js[5] == LOWER_S
            && js[14] == LOWER_N && js[15] == 111 && js[16] == LOWER_N && js[17] == LOWER_E
            && js[26] == LOWER_N && js[27] == 111 && js[28] == LOWER_N && js[29] == LOWER_E
  {
  }

  lemma AstrayStart(cap: nat)
    requires cap >= 7
    ensures Run(Astray(), cap, INIT) == Run(Astray(), cap, State(9, [ROOT, TAGS_KEY, INNER], 2))
  {
    AstrayScan();
    hide Astray, StringEnd;
    var js, root, key := Astray(), ROOT.(size := 0), TAGS_KEY.(size := 0);
    Turn(js, cap, INIT, State(1, [root], 0));
    Turn(js, cap, State(1, [root], 0), State(7, [ROOT, key], 0));
    Turn(js, cap, State(7, [ROOT, key], 0), State(8, [ROOT, key], 1));
    Turn(js, cap, State(8, [ROOT, key], 1), State(9, [ROOT, TAGS_KEY, INNER], 2));
  }

  lemma AstrayMiddle(cap: nat)
    requires cap >= 7
    ensures Run(Astray(), cap, State(9, [ROOT, TAGS_KEY, INNER], 2))
            == Run(Astray(), cap, State(20, [ROOT, TAGS_KEY, Token(Object, 8, 20, 2), A, A_NONE], 0))
  {
    AstrayScan();
    hide Astray, StringEnd;
    var js, one, two := Astray(), INNER.(size := 1), INNER.(size := 2);
    Turn(js, cap, State(9, [ROOT, TAGS_KEY, INNER], 2), State(12, [ROOT, TAGS_KEY, one, A], 2));
    Turn(js, cap, State(12, [ROOT, TAGS_KEY, one, A], 2), State(13, [ROOT, TAGS_KEY, one, A], 2));
    Turn(js, cap, State(13, [ROOT, TAGS_KEY, one, A], 2), State(19, [ROOT, TAGS_KEY, two, A, A_NONE], 2));
    LastOpenIs([ROOT, TAGS_KEY, two, A, A_NONE], 5, 2);
    LastOpenIs([ROOT, TAGS_KEY, two, A, A_NONE], 2, 0);
    Turn(js, cap, State(19, [ROOT, TAGS_KEY, two, A, A_NONE], 2), State(20, [ROOT, TAGS_KEY, two.(end := 20), A, A_NONE], 0));
  }

  function AstrayToks(): seq<Token> {
    [ROOT.(end := 32, size := 2), TAGS_KEY, Token(Object, 8, 20, 2), A, A_NONE, B, B_NONE]
  }

  lemma AstrayLast(cap: nat)
    requires cap >= 7
    ensures Run(Astray(), cap, State(20, [ROOT, TAGS_KEY, Token(Object, 8, 20, 2), A, A_NONE], 0))
            == Run(Astray(), cap, State(25, [ROOT.(size := 2), TAGS_KEY, Token(Object, 8, 20, 2), A, A_NONE, B.(size := 0)], 5))
  {
    AstrayScan();
    hide Astray, StringEnd;
    var js, inner, root, b := Astray(), Token(Object, 8, 20, 2), ROOT.(size := 2), B.(size := 0);
    Turn(js, cap, State(20, [ROOT, TAGS_KEY, inner, A, A_NONE], 0), State(21, [ROOT, TAGS_KEY, inner, A, A_NONE], 0));
    Turn(js, cap, State(21, [ROOT, TAGS_KEY, inner, A, A_NONE], 0), State(24, [root, TAGS_KEY, inner, A, A_NONE, b], 0));
    Turn(js, cap, State(24, [root, TAGS_KEY, inner, A, A_NONE, b], 0), State(25, [root, TAGS_KEY, inner, A, A_NONE, b], 5));
  }

  lemma AstrayTokens(cap: nat)
    requires cap >= 7
    ensures Tokenize(Astray(), cap) == Tokens(AstrayToks())
  {
    AstrayScan();
    hide Astray, StringEnd;
    AstrayStart(cap);
    AstrayMiddle(cap);
    AstrayLast(cap);
    var js, inner, root, b := Astray(), Token(Object, 8, 20, 2), ROOT.(size := 2), B.(size := 0);
    Turn(js, cap, State(25, [root, TAGS_KEY, inner, A, A_NONE, b], 5), State(31, [root, TAGS_KEY, inner, A, A_NONE, B, B_NONE], 5));
    LastOpenIs([root, TAGS_KEY, inner, A, A_NONE, B, B_NONE], 7, 0);
    Turn(js, cap, State(31, [root, TAGS_KEY, inner, A, A_NONE, B, B_NONE], 5), State(32, AstrayToks(), -1));
    LastOpenIs(AstrayToks(), 7, -1);
  }

  lemma {:induction false} PlainDecode(js: Text, p: nat, e: nat)
    requires p <= e <= |js| && forall i :: p <= i < e ==> js[i] != BACKSLASH
    ensures JsonText.Decode(js, p, e) == Some(js[p..e])
    decreases e - p
  {
    if p < e {
      PlainDecode(js, p + 1, e);
      assert js[p..e] == [js[p]] + js[p + 1..e];
    }
  }

  lemma PlainFetched(js: Text, toks: seq<Token>, tok: nat, size: nat)
    requires forall i :: 0 <= i < |toks| ==> 0 <= toks[i].start <= toks[i].end <= |js|
    requires tok < |toks| && toks[tok].kind == String && toks[tok].end - toks[tok].start < size
    requires NUL !in TextOf(js, toks[tok]) && BACKSLASH !in TextOf(js, toks[tok])
    ensures Fetched(js, toks, tok, size) == Some(TextOf(js, toks[tok]))
  {
    var p, e := toks[tok].start, toks[tok].end;
    forall i | p <= i < e ensures js[i] != BACKSLASH {
      assert js[i] == TextOf(js, toks[tok])[i - p];
    }
    PlainDecode(js, p, e);
    PlainCString(js[p..e]);
  }

  /** A tag with the level "none". */
  lemma NoneEntry(js: Text, toks: seq<Token>, m: nat)
    requires forall i :: 0 <= i < |toks| ==> 0 <= toks[i].start <= toks[i].end <= |js|
    requires m + 1 < |toks| && toks[m].kind == String && toks[m + 1].kind == String
    requires |TextOf(js, toks[m])| == 1 && TextOf(js, toks[m])[0] > 92 && TextOf(js, toks[m + 1]) == NAMES[0]
    ensures EntryAt(js, toks, m) == Some(Entry(TextOf(js, toks[m]), 0))
  {
    PlainFetched(js, toks, m, TAG_SIZE);
    PlainFetched(js, toks, m + 1, NAME_SIZE);
  }

  lemma AstrayTexts()
    ensures |AstrayToks()| == 7
    ensures forall i :: 0 <= i < |AstrayToks()| ==> 0 <= AstrayToks()[i].start <= AstrayToks()[i].end <= |Astray()|
    ensures TextOf(Astray(), AstrayToks()[1]) == TAGS
    ensures TextOf(Astray(), AstrayToks()[3]) == [LOWER_A] && TextOf(Astray(), AstrayToks()[5]) == [LOWER_B]
    ensures TextOf(Astray(), AstrayToks()[4]) == NAMES[0] && TextOf(Astray(), AstrayToks()[6]) == NAMES[0]
  {
    AstrayQuotes();
    NameBytes();
    hide Astray;
    OneByte(Astray(), 10);
    OneByte(Astray(), 22);
    FourBytes(Astray(), 2);
    FourBytes(Astray(), 14);
    FourBytes(Astray(), 26);
  }

  lemma OneByte(js: Text, p: nat)
    requires p < |js|
    ensures js[p..p + 1] == [js[p]]
  {
  }

  lemma FourBytes(js: Text, p: nat)
    requires p + 4 <= |js|
    ensures js[p..p + 4] == [js[p], js[p + 1], js[p + 2], js[p + 3]]
  {
  }

  lemma NameBytes()
    ensures NAMES[0] == [LOWER_N, 111, LOWER_N, LOWER_E] && TAGS == [LOWER_T, LOWER_A, 103, LOWER_S]
  {
    assert Ascii("none") == [LOWER_N, 111, LOWER_N, LOWER_E];
    assert Ascii("tags") == [LOWER_T, LOWER_A, 103, LOWER_S];
  }

  lemma {:induction false} PlainCString(t: Text)
    requires NUL !in t
    ensures CString(t) == t
  {
    if t != [] {
      PlainCString(t[1..]);
    }
  }

  /** The walk over "tags", whatever list of parents goes with the tokens. */
  lemma AstrayWalk(par: seq<int>)
    requires IsForest(AstrayToks(), par)
    ensures TagMembers(par, 2) == [3, 5] && !InSubtree(par, 2, 5)
  {
    AstrayInner(par);
    hide AstrayToks, IsForest, Preorder, SubtreeEnd, Children, Visited, InSubtree;
    VisitedCons(par, 3, 2);
    VisitedCons(par, 5, 1);
    NoneVisited(AstrayToks(), par, []);
    SubtreeIsRange(par, 2, 5);
  }

  /** The inner object has two leaves for children, tokens 3 and 4, and ends there. */
  lemma AstrayInner(par: seq<int>)
    requires IsForest(AstrayToks(), par)
    ensures Preorder(par) && |par| == 7
    ensures |Children(par, 2)| == 2 && SubtreeEnd(par, 4) == 5 && SubtreeEnd(par, 2) == 5
  {
    hide Preorder;
    var toks := AstrayToks();
    SizeIsChildren(toks, par, 2);
    FirstChild(toks, par, 2);
    LeafEnd(toks, par, 3);
    LeafEnd(toks, par, 4);
    NextSibling(par, 2, 3);
    NextSibling(par, 2, 4);
    TwoLeaves(par);
  }

  lemma TwoLeaves(par: seq<int>)
    requires Preorder(par) && |par| == 7 && par[3] == 2 && par[4] == 2 && ChildrenFrom(par, 2, 5) == []
    requires SubtreeEnd(par, 3) == 4 && SubtreeEnd(par, 4) == 5
    ensures SubtreeEnd(par, 2) == 5
  {
    assert par[5] >= 4 || par[5] <= par[4];
    FirstBelowAt(par, 2, 3, 5);
  }

  /** find() in the root: "tags" is token 2, and there is no "level". */
  lemma AstrayLookups(par: seq<int>)
    requires IsDocument(Astray(), AstrayToks(), par)
    ensures FindSpec(Astray(), AstrayToks(), par, 0, TAGS) == 2
    ensures FindSpec(Astray(), AstrayToks(), par, 0, LEVEL) == -1
  {
    var js, toks := Astray(), AstrayToks();
    AstrayTexts();
    hide Astray, Preorder;
    FirstChild(toks, par, 0);
    assert Children(par, 0)[0] == 1;
  }

  /**
   The condition is needed: jsmn accepts a member without a colon, and then a level outside "tags" is taken for one
   of its members. Whatever list of parents the reader holds, this document sets the level of "b".
   */
  lemma LevelFromOutsideTags(cap: nat, par: seq<int>)
    requires cap >= 7 && IsDocument(Astray(), AstrayToks(), par)
    ensures Tokenize(Astray(), cap) == Tokens(AstrayToks())
    ensures FindSpec(Astray(), AstrayToks(), par, 0, TAGS) == 2
    ensures TagMembers(par, 2) == [3, 5] && !InSubtree(par, 2, 5)
    ensures LevelWanted(Astray(), AstrayToks(), par) == Some(-1)
    ensures EntriesWanted(Astray(), AstrayToks(), par) == Some([Entry([LOWER_A], 0), Entry([LOWER_B], 0)])
  {
    AstrayKinds();
    hide Astray, AstrayToks, TagMembers, EntryAt, Entries, FindSpec, Preorder;
    AstrayTokens(cap);
    AstrayLookups(par);
    AstrayWalk(par);
    AstrayEntries();
  }

  lemma AstrayKinds()
    ensures |AstrayToks()| == 7 && AstrayToks()[0].kind == Object && AstrayToks()[2].kind == Object
  {
  }

  /** decode_log_config() on that document, with any reader that has room for its tokens. */
  method DecodeAstray(maxTokens: nat) returns (status: Status, calls: seq<Entry>)
    requires maxTokens >= 7
    ensures status == Applied && calls == [Entry([LOWER_A], 0), Entry([LOWER_B], 0)]
  {
    AstrayKinds();
    AstrayTokens(maxTokens);
    hide Astray, AstrayToks, LevelWanted, EntriesWanted, IsForest;
    var doc := new Reader(maxTokens);
    var parsed := doc.Parse(Astray());
    LevelFromOutsideTags(maxTokens, doc.par);
    var out;
    status, out, calls := LogConfig.Decode(doc);
  }

  lemma AstrayEntries()
    ensures forall i :: 0 <= i < |AstrayToks()| ==> 0 <= AstrayToks()[i].start <= AstrayToks()[i].end <= |Astray()|
    ensures Entries(Astray(), AstrayToks(), [3, 5]) == Some([Entry([LOWER_A], 0), Entry([LOWER_B], 0)])
  {
    AstrayTexts();
    hide Astray, EntryAt;
    NoneEntry(Astray(), AstrayToks(), 3);
    NoneEntry(Astray(), AstrayToks(), 5);
    TwoEntries(Astray(), AstrayToks(), 3, 5);
  }

  lemma TwoEntries(js: Text, toks: seq<Token>, m: int, n: int)
    requires forall i :: 0 <= i < |toks| ==> 0 <= toks[i].start <= toks[i].end <= |js|
    requires EntryAt(js, toks, m).Some? && EntryAt(js, toks, n).Some?
    ensures Entries(js, toks, [m, n]) == Some([EntryAt(js, toks, m).value, EntryAt(js, toks, n).value])
  {
    hide EntryAt;
    EntriesCons(js, toks, n, []);
    EntriesCons(js, toks, m, [n]);
    assert [n] + [] == [n] && [m] + [n] == [m, n];
    var first, second := EntryAt(js, toks, m).value, EntryAt(js, toks, n).value;
    assert [second] + [] == [second] && [first] + [second] == [first, second];
  }

  lemma EntriesCons(js: Text, toks: seq<Token>, m: int, rest: seq<int>)
    requires forall i :: 0 <= i < |toks| ==> 0 <= toks[i].start <= toks[i].end <= |js|
    requires EntryAt(js, toks, m).Some? && Entries(js, toks, rest).Some?
    ensures Entries(js, toks, [m] + rest) == Some([EntryAt(js, toks, m).value] + Entries(js, toks, rest).value)
  {
    hide EntryAt;
    assert ([m] + rest)[0] == m && ([m] + rest)[1..] == rest;
  }
}
