/** decode_log_config() on a JSON text: the configuration is the one the text spells out. */
module LogConfigText {
  import opened Bytes
  import opened Options
  import opened JsmnSpec
  import opened JsmnForest
  import opened PreorderLists
  import opened JsonText
  import opened JsonGrammar
  import opened GrammarTokens
  import opened JsonReader
  import opened ReadBack
  import opened LogConfig

  /** "none", "error", "warn", "info", "debug" and "verbose", in the order of their levels. */
  const LEVEL_NAMES: seq<Text> :=
    [[110, 111, 110, 101], [101, 114, 114, 111, 114], [119, 97, 114, 110], [105, 110, 102, 111],
     [100, 101, 98, 117, 103], [118, 101, 114, 98, 111, 115, 101]]

  const LEVEL_KEY: Text := [108, 101, 118, 101, 108]
  const TEXT_KEY: Text := [116, 101, 120, 116]
  const BIN_KEY: Text := [98, 105, 110]
  const TAGS_KEY: Text := [116, 97, 103, 115]

  /** The level with this name. */
  ghost predicate Names(name: Text, level: int) {
    0 <= level < 6 && LEVEL_NAMES[level] == name
  }

  lemma NamesAre()
    ensures NAMES == LEVEL_NAMES && LEVEL == LEVEL_KEY && TEXT == TEXT_KEY && BIN == BIN_KEY && TAGS == TAGS_KEY
  {
    assert NAMES[0] == LEVEL_NAMES[0] && NAMES[1] == LEVEL_NAMES[1] && NAMES[2] == LEVEL_NAMES[2];
    assert NAMES[3] == LEVEL_NAMES[3] && NAMES[4] == LEVEL_NAMES[4] && NAMES[5] == LEVEL_NAMES[5];
  }

  /** level_from_name(): six names, six levels. */
  lemma LevelIff(name: Text, level: int)
    ensures level >= 0 ==> (LevelFrom(name, 0) == level <==> Names(name, level))
    ensures LevelFrom(name, 0) == -1 <==> name !in LEVEL_NAMES
  {
    NamesAre();
    hide NAMES, LEVEL_NAMES;
    DistinctNames();
    assert LevelFrom(name, 0) >= 0 ==> NAMES[LevelFrom(name, 0)] == name;
  }

  lemma DistinctNames()
    ensures |LEVEL_NAMES| == 6 && forall i, j :: 0 <= i < j < 6 ==> LEVEL_NAMES[i] != LEVEL_NAMES[j]
  {
    assert LEVEL_NAMES[0][0] == 110 && LEVEL_NAMES[1][0] == 101 && LEVEL_NAMES[2][0] == 119 && LEVEL_NAMES[3][0] == 105;
    assert LEVEL_NAMES[4][0] == 100 && LEVEL_NAMES[5][0] == 118;
  }

  /** A string that fits into a buffer of `size` bytes with its NUL, as C reads it. */
  function Buffered(s: Text, size: nat): Option<Text> {
    if |s| + 1 <= size then Some(CString(s)) else None
  }

  function StringIn(v: Option<Value>, size: nat): Option<Text> {
    if v.Some? && v.value.Str? then Buffered(StringMeaning(v.value.pieces), size) else None
  }

  /** The levels of these members: each key a tag of at most 31 bytes and each value the name of a level, or nothing. */
  ghost predicate Spells(ms: seq<Member>, es: seq<Entry>) {
    |es| == |ms| && forall i :: 0 <= i < |ms| ==> SpellsOne(ms[i], es[i])
  }

  ghost predicate SpellsOne(m: Member, e: Entry) {
    Buffered(StringMeaning(m.key), 32) == Some(e.tag) && StringIn(Some(m.value), 16).Some? && Names(StringIn(Some(m.value), 16).value, e.level)
  }

  lemma ReadKey(js: Text, toks: seq<Token>, m: nat, mem: Member, q: nat)
    requires forall i :: 0 <= i < |toks| ==> 0 <= toks[i].start <= toks[i].end <= |js|
    requires m < |toks| && toks[m] == KeyToken(mem.key, q, 1) && Occurs(js, q, SpellKey(mem))
    ensures StrSpec(js, toks, m) == Some(StringMeaning(mem.key))
  {
    hide SpellPieces, JsonText.Decode, StringMeaning;
    KeyParts(js, q, mem);
    OccursParts(js, q, [34] + SpellPieces(mem.key), [34]);
    OccursParts(js, q, [34], SpellPieces(mem.key));
    StringDecodes(js, q + 1, mem.key);
  }

  lemma EntryIs(js: Text, toks: seq<Token>, par: seq<int>, m: nat, mem: Member, q: nat, e: Entry)
    requires IsDocument(js, toks, par) && m + 1 < |toks| && toks[m] == KeyToken(mem.key, q, 1) && Occurs(js, q, SpellKey(mem))
    requires IsPlaced(js, toks, m + 1, mem.value)
    ensures EntryAt(js, toks, m) == Some(e) <==> SpellsOne(mem, e)
  {
    hide StrSpec, StringMeaning, IsPlaced, IsForest, SpellKey, Occurs, LevelFrom, Names, IntSpec, BoolSpec;
    ReadKey(js, toks, m, mem, q);
    ReadValue(js, toks, par, m + 1, mem.value);
    LevelIff(if StringIn(Some(mem.value), 16).Some? then StringIn(Some(mem.value), 16).value else [], e.level);
    LevelRange(if StringIn(Some(mem.value), 16).Some? then StringIn(Some(mem.value), 16).value else []);
  }

  lemma LevelRange(name: Text)
    ensures LevelFrom(name, 0) >= -1
  {
  }

  /** The members of an object, one behind the other, and the entries at their tokens. */
  lemma {:induction false} EntriesAre(js: Text, toks: seq<Token>, par: seq<int>, o: nat, ms: seq<Member>, first: bool, m: nat, p: nat, end: Text)
    requires IsDocument(js, toks, par) && MembersAt(js, toks, ms, first, m, p, end)
    requires m <= |par| && |ChildrenFrom(par, o, m)| == |ms| && (ms != [] ==> m < |par| && par[m] == o)
    ensures OneValueEach(toks, ChildrenFrom(par, o, m))
    ensures forall es :: Entries(js, toks, ChildrenFrom(par, o, m)) == Some(es) <==> Spells(ms, es)
    decreases |ms|
  {
    hide Spell, Layout, SpellMembers, LayoutMembers, SpellKey, ChildrenFrom, MembersAt, Occurs, IsPlaced, IsDocument, SpellPieces, Lead,
      EntryAt, SpellsOne, OneValueEach, Entries, Spells;
    DocumentFacts(js, toks, par);
    var kids := ChildrenFrom(par, o, m);
    if ms == [] {
      NoEntries(js, toks, par);
      assert kids == [];
    } else {
      var q := p + |Lead(ms[0].gap, first, ms[0].before)|;
      var w := q + |SpellKey(ms[0])|;
      var e := m + 1 + |Layout(ms[0].value, w)|;
      FirstMember(js, toks, ms, first, m, p, end);
      MemberPlaced(js, toks, par, o, ms[0], m, q);
      var rest := ChildrenFrom(par, o, e);
      EntriesAre(js, toks, par, o, ms[1..], false, e, w + |Spell(ms[0].value)|, end);
      OneValueCons(toks, m, rest);
      forall es ensures Entries(js, toks, kids) == Some(es) <==> Spells(ms, es) {
        if es != [] {
          EntryIs(js, toks, par, m, ms[0], q, es[0]);
        }
        EntriesCons(js, toks, par, m, rest, ms, es);
      }
    }
  }

  lemma DocumentFacts(js: Text, toks: seq<Token>, par: seq<int>)
    requires IsDocument(js, toks, par)
    ensures |par| == |toks| && forall i :: 0 <= i < |toks| ==> 0 <= toks[i].start <= toks[i].end <= |js|
  {
  }

  lemma NoEntries(js: Text, toks: seq<Token>, par: seq<int>)
    requires IsDocument(js, toks, par)
    ensures OneValueEach(toks, []) && forall es :: Entries(js, toks, []) == Some(es) <==> Spells([], es)
  {
  }

  lemma EntriesCons(js: Text, toks: seq<Token>, par: seq<int>, m: nat, rest: seq<nat>, ms: seq<Member>, es: seq<Entry>)
    requires IsDocument(js, toks, par) && ms != []
    requires forall es' :: Entries(js, toks, rest) == Some(es') <==> Spells(ms[1..], es')
    requires es != [] ==> (EntryAt(js, toks, m) == Some(es[0]) <==> SpellsOne(ms[0], es[0]))
    ensures Entries(js, toks, [m] + rest) == Some(es) <==> Spells(ms, es)
  {
    hide EntryAt, SpellsOne, IsDocument;
    var kids: seq<int> := [m] + rest;
    assert kids[0] == m && kids[1..] == rest;
    if es != [] {
      assert es == [es[0]] + es[1..];
      assert Spells(ms, es) <==> SpellsOne(ms[0], es[0]) && Spells(ms[1..], es[1..]) by {
        SpellsCons(ms, es);
      }
    }
  }

  lemma SpellsCons(ms: seq<Member>, es: seq<Entry>)
    requires ms != [] && es != []
    ensures Spells(ms, es) <==> SpellsOne(ms[0], es[0]) && Spells(ms[1..], es[1..])
  {
    hide SpellsOne;
    if SpellsOne(ms[0], es[0]) && Spells(ms[1..], es[1..]) {
      forall i | 0 <= i < |ms| ensures SpellsOne(ms[i], es[i]) {
        if i > 0 {
          assert SpellsOne(ms[1..][i - 1], es[1..][i - 1]);
        }
      }
    }
    if Spells(ms, es) {
      forall i | 0 <= i < |ms[1..]| ensures SpellsOne(ms[1..][i], es[1..][i]) {
        assert SpellsOne(ms[i + 1], es[i + 1]);
      }
    }
  }

  /** One member among the children of its object. */
  lemma MemberPlaced(js: Text, toks: seq<Token>, par: seq<int>, o: nat, mem: Member, m: nat, q: nat)
    requires IsDocument(js, toks, par) && m < |toks| && par[m] == o
    requires var w := q + |SpellKey(mem)|;
             var block := [KeyToken(mem.key, q, 1)] + Layout(mem.value, w);
             && Occurs(js, q, SpellKey(mem)) && Occurs(js, w, Spell(mem.value))
             && BlockAt(toks, m, block)
    ensures var e := m + 1 + |Layout(mem.value, q + |SpellKey(mem)|)|;
            && m + 1 < e <= |toks|
            && ChildrenFrom(par, o, m) == [m] + ChildrenFrom(par, o, e)
            && (|ChildrenFrom(par, o, e)| > 0 ==> e < |toks| && par[e] == o)
            && toks[m] == KeyToken(mem.key, q, 1) && toks[m].size == 1
            && IsPlaced(js, toks, m + 1, mem.value)
  {
    hide ChildrenFrom, Spell, Layout, SpellKey, SpellPieces, SubtreeEnd, Preorder, Occurs;
    MemberIsSubtree(js, toks, par, m, mem, q);
    LayoutClosed(mem.value, q + |SpellKey(mem)|);
    NextSibling(par, o, m);
    assert Placed(js, toks, m + 1, mem.value, q + |SpellKey(mem)|);
  }

  /** The entries of an object of tags. */
  lemma TagsAre(js: Text, toks: seq<Token>, par: seq<int>, o: int, t: Value)
    requires IsDocument(js, toks, par) && IsPlaced(js, toks, o, t) && t.Obj?
    ensures 0 <= o < |toks| && forall es :: Entries(js, toks, TagMembers(par, o)) == Some(es) <==> Spells(t.members, es)
  {
    hide Spell, SpellMembers, LayoutMembers, ChildrenFrom, Entries, Spells, OneValueEach, Visited;
    var p: nat :| Placed(js, toks, o, t, p);
    var inner, end := LayoutMembers(t.members, true, p + 1), t.tail + [125];
    ObjectText(t, p);
    TailDelimits(t.tail, 125);
    Brackets(js, p, 123, SpellMembers(t.members, true), end);
    SplitRange(toks, o, [Layout(t, p)[0]], inner);
    assert toks[o] == Layout(t, p)[0] && MembersAt(js, toks, t.members, true, o + 1, p + 1, end);
    hide Layout, MembersAt, Occurs;
    SizeIsChildren(toks, par, o);
    TagMembersIff(toks, par, o);
    if t.members != [] {
      FirstChild(toks, par, o);
      EntriesAre(js, toks, par, o, t.members, true, o + 1, p + 1, end);
    } else {
      NoEntries(js, toks, par);
    }
  }

  /** The level a text asks for: -1 without a name that fits, no level at all for an unknown one. */
  ghost predicate AsksLevel(t: Value, level: Option<int>)
    requires t.Obj?
  {
    var name := StringIn(Get(t.members, LEVEL_KEY), 16);
    if name.None? then level == Some(-1)
    else if name.value in LEVEL_NAMES then level.Some? && Names(name.value, level.value)
    else level == None
  }

  function FlagOf(v: Option<Value>): int {
    if v == Some(Lit(TrueWord)) then 1 else if v == Some(Lit(FalseWord)) then 0 else -1
  }

  /** The tags it sets: none without "tags"; nothing is acceptable but an object of levels. */
  ghost predicate AsksTags(t: Value, es: seq<Entry>)
    requires t.Obj?
  {
    var tags := Get(t.members, TAGS_KEY);
    if tags.None? then es == [] else tags.value.Obj? && Spells(tags.value.members, es)
  }

  /** What find() leads to under a key of the root. */
  lemma Under(d: Document, par: seq<int>, key: Text)
    requires d.value.Obj? && IsDocument(SpellDocument(d), LayoutDocument(d), par)
    ensures var js, toks, v := SpellDocument(d), LayoutDocument(d), Get(d.value.members, key);
            var tok := FindSpec(js, toks, par, 0, key);
            && ReadsAs(js, toks, tok, v)
            && (v.Some? ==> IsPlaced(js, toks, tok, v.value))
  {
    hide SpellDocument, LayoutDocument, IsDocument, ReadsAs, FindSpec;
    DocumentPlaced(d);
    var js, toks, v := SpellDocument(d), LayoutDocument(d), Get(d.value.members, key);
    FindIsGet(js, toks, par, 0, d.value, key);
    PathReads(js, toks, par, FindSpec(js, toks, par, 0, key), v);
  }

  /**
   decode_log_config() on any JSON text whose value is an object: what is asked for is what the text says under
   "level", "text", "bin" and "tags", and a text that names an unknown level or has other tags is refused.
   */
  lemma ConfigIsRead(d: Document, par: seq<int>)
    requires d.value.Obj? && IsDocument(SpellDocument(d), LayoutDocument(d), par)
    ensures AsksLevel(d.value, LevelWanted(SpellDocument(d), LayoutDocument(d), par))
    ensures FlagWanted(SpellDocument(d), LayoutDocument(d), par, TEXT) == FlagOf(Get(d.value.members, TEXT_KEY))
    ensures FlagWanted(SpellDocument(d), LayoutDocument(d), par, BIN) == FlagOf(Get(d.value.members, BIN_KEY))
    ensures forall es :: EntriesWanted(SpellDocument(d), LayoutDocument(d), par) == Some(es) <==> AsksTags(d.value, es)
  {
    LevelIsRead(d, par);
    FlagIsRead(d, par, TEXT_KEY);
    FlagIsRead(d, par, BIN_KEY);
    TagsAreRead(d, par);
    NamesAre();
    hide SpellDocument, LayoutDocument, IsDocument, AsksLevel, AsksTags, LevelWanted, FlagWanted, EntriesWanted, FlagOf;
  }

  lemma LevelIsRead(d: Document, par: seq<int>)
    requires d.value.Obj? && IsDocument(SpellDocument(d), LayoutDocument(d), par)
    ensures AsksLevel(d.value, LevelWanted(SpellDocument(d), LayoutDocument(d), par))
  {
    NamesAre();
    Under(d, par, LEVEL_KEY);
    hide SpellDocument, LayoutDocument, IsForest, FindSpec, StrSpec, IntSpec, BoolSpec, StringMeaning, LevelFrom, Names, IsPlaced;
    var name := StringIn(Get(d.value.members, LEVEL_KEY), 16);
    if name.Some? {
      LevelIff(name.value, LevelFrom(name.value, 0));
      LevelRange(name.value);
    }
  }

  lemma FlagIsRead(d: Document, par: seq<int>, key: Text)
    requires d.value.Obj? && IsDocument(SpellDocument(d), LayoutDocument(d), par)
    ensures FlagWanted(SpellDocument(d), LayoutDocument(d), par, key) == FlagOf(Get(d.value.members, key))
  {
    hide SpellDocument, LayoutDocument, IsForest, FindSpec, StrSpec, IntSpec, StringMeaning, IsPlaced;
    Under(d, par, key);
  }

  lemma TagsAreRead(d: Document, par: seq<int>)
    requires d.value.Obj? && IsDocument(SpellDocument(d), LayoutDocument(d), par)
    ensures forall es :: EntriesWanted(SpellDocument(d), LayoutDocument(d), par) == Some(es) <==> AsksTags(d.value, es)
  {
    NamesAre();
    hide SpellDocument, LayoutDocument, IsForest, FindSpec, StrSpec, IntSpec, BoolSpec, StringMeaning, IsPlaced, Entries, Spells, TagMembers;
    Under(d, par, TAGS_KEY);
    var js, toks, tags := SpellDocument(d), LayoutDocument(d), Get(d.value.members, TAGS_KEY);
    if tags.Some? && tags.value.Obj? {
      TagsAre(js, toks, par, FindSpec(js, toks, par, 0, TAGS_KEY), tags.value);
    }
  }
}
