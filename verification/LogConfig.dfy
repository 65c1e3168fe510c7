/** sc_codec::decode_log_config: a two-pass walk over the members of "tags" that applies all levels or none. */
module LogConfig {
  import opened Bytes
  import opened Options
  import opened JsmnSpec
  import opened JsmnForest
  import opened PreorderLists
  import opened JsonText
  import opened JsonReader

  const NAME_SIZE := 16
  const TAG_SIZE := 32

  datatype Entry = Entry(tag: Text, level: nat)

  /** sc_log_config: -1 stands for unchanged. */
  datatype Config = Config(level: int, text: int, bin: int)

  datatype Status = Applied | Refused

  const LEVEL := Ascii("level")
  const TEXT := Ascii("text")
  const BIN := Ascii("bin")
  const TAGS := Ascii("tags")
  const NAMES: seq<Text> :=
    [Ascii("none"), Ascii("error"), Ascii("warn"), Ascii("info"), Ascii("debug"), Ascii("verbose")]

  /** Where `name` stands among the names from `from` on, or -1. */
  function LevelFrom(name: Text, from: nat): (level: int)
    requires from <= |NAMES|
    ensures level == -1 || (from <= level < |NAMES| && NAMES[level] == name)
    ensures level == -1 ==> forall i :: from <= i < |NAMES| ==> NAMES[i] != name
    decreases |NAMES| - from
  {
    if from == |NAMES| then -1 else if NAMES[from] == name then from else LevelFrom(name, from + 1)
  }

  method LevelFromName(name: Text) returns (level: int)
    ensures level == LevelFrom(name, 0)
  {
    var idx := 0;
    while idx < 6
      invariant 0 <= idx <= |NAMES| && LevelFrom(name, 0) == LevelFrom(name, idx)
    {
      if name == NAMES[idx] {
        return idx;
      }
      idx := idx + 1;
    }
    return -1;
  }

  /** A string token read into a buffer of `size` bytes and used as a C string. */
  function Fetched(js: Text, toks: seq<Token>, tok: int, size: nat): Option<Text>
    requires forall i :: 0 <= i < |toks| ==> 0 <= toks[i].start <= toks[i].end <= |js|
  {
    var v := StrSpec(js, toks, tok);
    if v.Some? && |v.value| + 1 <= size then Some(CString(v.value)) else None
  }

  /** The tag at token m with the level at the token behind it. */
  function EntryAt(js: Text, toks: seq<Token>, m: int): Option<Entry>
    requires forall i :: 0 <= i < |toks| ==> 0 <= toks[i].start <= toks[i].end <= |js|
  {
    var tag, name := Fetched(js, toks, m, TAG_SIZE), Fetched(js, toks, m + 1, NAME_SIZE);
    if tag.Some? && name.Some? && LevelFrom(name.value, 0) >= 0 then Some(Entry(tag.value, LevelFrom(name.value, 0))) else None
  }

  /** The tokens the loop takes for members: from m on, at most `left`, until skip() finds no next token. */
  ghost function Visited(par: seq<int>, m: int, left: nat): (ms: seq<int>)
    decreases left
  {
    if left == 0 || m < 0 then [] else [m] + Visited(par, SkipSpec(par, m + 1), left - 1)
  }

  /** The entries at these tokens, if every one is valid. */
  function Entries(js: Text, toks: seq<Token>, ms: seq<int>): Option<seq<Entry>>
    requires forall i :: 0 <= i < |toks| ==> 0 <= toks[i].start <= toks[i].end <= |js|
  {
    if ms == [] then Some([])
    else
      var first, rest := EntryAt(js, toks, ms[0]), Entries(js, toks, ms[1..]);
      if first.Some? && rest.Some? then Some([first.value] + rest.value) else None
  }

  /** The valid entries before the first bad one. */
  function ValidPrefix(js: Text, toks: seq<Token>, ms: seq<int>): seq<Entry>
    requires forall i :: 0 <= i < |toks| ==> 0 <= toks[i].start <= toks[i].end <= |js|
  {
    if ms == [] || EntryAt(js, toks, ms[0]).None? then []
    else [EntryAt(js, toks, ms[0]).value] + ValidPrefix(js, toks, ms[1..])
  }

  lemma {:induction false} ValidPrefixIsAll(js: Text, toks: seq<Token>, ms: seq<int>)
    requires forall i :: 0 <= i < |toks| ==> 0 <= toks[i].start <= toks[i].end <= |js|
    ensures Entries(js, toks, ms).Some? ==> ValidPrefix(js, toks, ms) == Entries(js, toks, ms).value
  {
    hide EntryAt;
    if ms != [] {
      ValidPrefixIsAll(js, toks, ms[1..]);
    }
  }

  // ---- decode_log_config() ----

  lemma {:induction false} CStringStops(v: Text, buf: Text)
    requires v + [NUL] <= buf
    ensures CString(buf) == CString(v)
  {
    if v != [] && v[0] != NUL {
      assert buf[0] == (v + [NUL])[0] && v[1..] + [NUL] == (v + [NUL])[1..];
      CStringStops(v[1..], buf[1..]);
    } else {
      assert buf[0] == (v + [NUL])[0];
    }
  }

  /** str_at() into a buffer on the stack, which the caller then uses as a C string. */
  method FetchAt(doc: Reader, tok: int, size: nat) returns (r: Option<Text>)
    requires doc.Valid()
    ensures r == Fetched(doc.json, doc.Toks(), tok, size)
  {
    var buf := new Byte[size];
    var ok := doc.StrAt(tok, buf);
    if !ok {
      return None;
    }
    CStringStops(StrSpec(doc.json, doc.Toks(), tok).value, buf[..]);
    return Some(CString(buf[..]));
  }

  ghost function TagMembers(par: seq<int>, tags: int): seq<int> {
    Visited(par, tags + 1, |Children(par, tags)|)
  }

  lemma TakeMember(js: Text, toks: seq<Token>, par: seq<int>, m: int, left: nat)
    requires forall i :: 0 <= i < |toks| ==> 0 <= toks[i].start <= toks[i].end <= |js|
    requires left > 0 && m >= 0
    ensures var first, ms, rest := EntryAt(js, toks, m), Visited(par, m, left), Visited(par, SkipSpec(par, m + 1), left - 1);
            && ValidPrefix(js, toks, ms) == (if first.Some? then [first.value] + ValidPrefix(js, toks, rest) else [])
            && (Entries(js, toks, ms).Some? <==> first.Some? && Entries(js, toks, rest).Some?)
  {
    var ms := Visited(par, m, left);
    assert ms[0] == m && ms[1..] == Visited(par, SkipSpec(par, m + 1), left - 1);
  }

  /** The checks of one turn. */
  method CheckMember(doc: Reader, m: int) returns (e: Option<Entry>)
    requires doc.Valid()
    ensures e == EntryAt(doc.json, doc.Toks(), m)
  {
    hide LevelFrom, StrSpec, CString, Fetched, IsForest, SpanOk;
    var tag := FetchAt(doc, m, TAG_SIZE);
    if tag.None? {
      return None;
    }
    var name := FetchAt(doc, m + 1, NAME_SIZE);
    if name.None? {
      return None;
    }
    var level := LevelFromName(name.value);
    return if level < 0 then None else Some(Entry(tag.value, level));
  }

  /** One pass over the members; with `apply`, set_tag() is called for each up to the first bad one. */
  method Pass(doc: Reader, tags: nat, apply: bool, calls: seq<Entry>) returns (ok: bool, calls': seq<Entry>)
    requires doc.Valid() && tags < doc.count
    ensures ok == Entries(doc.json, doc.Toks(), TagMembers(doc.par, tags)).Some?
    ensures calls' == calls + if apply then ValidPrefix(doc.json, doc.Toks(), TagMembers(doc.par, tags)) else []
  {
    hide EntryAt, Entries, ValidPrefix, Visited, SkipSpec, IsForest;
    calls' := calls;
    ghost var js, toks, par := doc.json, doc.Toks(), doc.par;
    ghost var done: seq<Entry> := [];
    var member, idx: nat := tags + 1, 0;
    var n := doc.ChildCount(tags);
    ghost var all := TagMembers(par, tags);
    while idx < n && member >= 0
      invariant idx <= n
      invariant done + ValidPrefix(js, toks, Visited(par, member, n - idx)) == ValidPrefix(js, toks, all)
      invariant Entries(js, toks, Visited(par, member, n - idx)).Some? == Entries(js, toks, all).Some?
      invariant calls' == calls + if apply then done else []
    {
      TakeMember(js, toks, par, member, n - idx);
      var e := CheckMember(doc, member);
      if e.None? {
        assert done + [] == done;
        return false, calls';
      }
      ghost var more := ValidPrefix(js, toks, Visited(par, SkipSpec(par, member + 1), n - (idx + 1)));
      assert done + ([e.value] + more) == done + [e.value] + more;
      if apply {
        calls' := calls' + [e.value];
      }
      done := done + [e.value];
      member := doc.Skip(member + 1);
      idx := idx + 1;
    }
    NoMoreMembers(js, toks, par, member, n - idx);
    assert done + [] == done;
    return true, calls';
  }

  lemma NoMoreMembers(js: Text, toks: seq<Token>, par: seq<int>, m: int, left: nat)
    requires forall i :: 0 <= i < |toks| ==> 0 <= toks[i].start <= toks[i].end <= |js|
    requires left == 0 || m < 0
    ensures Entries(js, toks, Visited(par, m, left)) == Some([]) && ValidPrefix(js, toks, Visited(par, m, left)) == []
  {
  }

  /** Two passes over {"tag": "level", ...}: check every entry, then apply them all. */
  method ApplyTags(doc: Reader, tags: nat) returns (status: Status, calls: seq<Entry>)
    requires doc.Valid() && tags < doc.count
    ensures var es := Entries(doc.json, doc.Toks(), TagMembers(doc.par, tags));
            if es.Some? then status == Applied && calls == es.value else status == Refused && calls == []
  {
    hide Entries, ValidPrefix, Visited, Preorder;
    ValidPrefixIsAll(doc.json, doc.Toks(), TagMembers(doc.par, tags));
    calls := [];
    var pass := 0;
    ghost var es := Entries(doc.json, doc.Toks(), TagMembers(doc.par, tags));
    while pass < 2
      invariant 0 <= pass <= 2
      invariant pass > 0 ==> es.Some?
      invariant calls == if pass == 2 then es.value else []
    {
      var ok;
      ok, calls := Pass(doc, tags, pass == 1, calls);
      if !ok {
        return Refused, calls;
      }
      pass := pass + 1;
    }
    return Applied, calls;
  }

  /** The level asked for, -1 for none and None for an unknown name. */
  ghost function LevelWanted(js: Text, toks: seq<Token>, par: seq<int>): Option<int>
    requires IsDocument(js, toks, par)
  {
    var name := Fetched(js, toks, FindSpec(js, toks, par, 0, LEVEL), NAME_SIZE);
    if name.None? then Some(-1)
    else if LevelFrom(name.value, 0) >= 0 then Some(LevelFrom(name.value, 0))
    else None
  }

  ghost function FlagWanted(js: Text, toks: seq<Token>, par: seq<int>, key: Text): int
    requires IsDocument(js, toks, par)
  {
    Flag(BoolSpec(js, toks, FindSpec(js, toks, par, 0, key)))
  }

  /** The levels to set, None when "tags" is not an object of valid entries. */
  ghost function EntriesWanted(js: Text, toks: seq<Token>, par: seq<int>): Option<seq<Entry>>
    requires IsDocument(js, toks, par)
  {
    var tags := FindSpec(js, toks, par, 0, TAGS);
    if tags < 0 then Some([])
    else if tags < |toks| && toks[tags].kind == Object then Entries(js, toks, TagMembers(par, tags))
    else None
  }

  method DecodeLevel(doc: Reader) returns (r: Option<int>)
    requires doc.Valid()
    ensures r == LevelWanted(doc.json, doc.Toks(), doc.par)
  {
    hide LevelFrom, Fetched, Preorder;
    var levelTok := doc.Find(0, LEVEL);
    var name := FetchAt(doc, levelTok, NAME_SIZE);
    if name.None? {
      return Some(-1);
    }
    var level := LevelFromName(name.value);
    return if level < 0 then None else Some(level);
  }

  method DecodeTags(doc: Reader) returns (status: Status, calls: seq<Entry>)
    requires doc.Valid()
    ensures var es := EntriesWanted(doc.json, doc.Toks(), doc.par);
            if es.Some? then status == Applied && calls == es.value else status == Refused && calls == []
  {
    hide Entries, TagMembers, Preorder;
    var tags := doc.Find(0, TAGS);
    if tags < 0 {
      return Applied, [];
    }
    var isObject := doc.IsObject(tags);
    if !isObject {
      return Refused, [];
    }
    status, calls := ApplyTags(doc, tags);
  }

  /**
   Either every level is applied or none: set_tag() is called only when the whole document is acceptable, and then
   the second pass repeats what the first one checked.
   */
  method Decode(doc: Reader) returns (status: Status, out: Config, calls: seq<Entry>)
    requires doc.Valid()
    ensures var level, es := LevelWanted(doc.json, doc.Toks(), doc.par), EntriesWanted(doc.json, doc.Toks(), doc.par);
            && status == (if level.Some? && es.Some? then Applied else Refused)
            && (status == Refused ==> calls == [])
            && (status == Applied ==>
                  && calls == es.value
                  && out == Config(level.value, FlagWanted(doc.json, doc.Toks(), doc.par, TEXT), FlagWanted(doc.json, doc.Toks(), doc.par, BIN)))
  {
    hide LevelWanted, EntriesWanted, Preorder;
    out, calls := Config(-1, -1, -1), [];
    var level := DecodeLevel(doc);
    if level.None? {
      return Refused, out, calls;
    }
    var text := doc.GetBool(0, TEXT);
    var bin := doc.GetBool(0, BIN);
    out := Config(level.value, Flag(text), Flag(bin));
    status, calls := DecodeTags(doc);
  }

  function Flag(b: Option<bool>): int {
    match b
    case None => -1
    case Some(v) => if v then 1 else 0
  }

  // ---- Which tokens are taken for members ----

  /** Every member has exactly one value; the last one may have more. */
  ghost predicate OneValueEach(toks: seq<Token>, kids: seq<nat>)
    requires forall i :: 0 <= i < |kids| ==> kids[i] < |toks|
  {
    forall i :: 0 <= i < |kids| ==> toks[kids[i]].size == 1 || (i == |kids| - 1 && toks[kids[i]].size > 1)
  }

  /** The tokens visited are the object's members, each followed by a value of its own. */
  ghost predicate MembersWithValues(par: seq<int>, kids: seq<nat>, ms: seq<int>)
    requires forall i :: 0 <= i < |kids| ==> kids[i] < |par|
  {
    ms == kids && forall i :: 0 <= i < |kids| ==> kids[i] + 1 < |par| && par[kids[i] + 1] == kids[i]
  }

  /** The token behind m is m's value exactly when m has one, and ends m's subtree exactly when it is the only one. */
  lemma ValueBehind(toks: seq<Token>, par: seq<int>, m: nat)
    requires IsForest(toks, par) && m < |toks|
    ensures toks[m].size >= 1 <==> m + 1 < |par| && par[m + 1] == m
    ensures toks[m].size >= 1 ==> (toks[m].size == 1 <==> SubtreeEnd(par, m + 1) == SubtreeEnd(par, m))
  {
    SizeIsChildren(toks, par, m);
    if toks[m].size >= 1 {
      FirstChild(toks, par, m);
      if toks[m].size == 1 {
        OnlyChildEnd(toks, par, m);
      } else if SubtreeEnd(par, m + 1) == SubtreeEnd(par, m) {
        NoneAttachedBefore(par, m + 2, |par|, m);
      }
    }
  }

  lemma OneValueCons(toks: seq<Token>, m: nat, rest: seq<nat>)
    requires m < |toks| && forall i :: 0 <= i < |rest| ==> rest[i] < |toks|
    ensures OneValueEach(toks, [m] + rest) <==>
            toks[m].size >= 1 && (rest != [] ==> toks[m].size == 1) && OneValueEach(toks, rest)
  {
    var kids := [m] + rest;
    assert kids[0] == m;
    if OneValueEach(toks, kids) {
      forall i | 0 <= i < |rest| ensures toks[rest[i]].size == 1 || (i == |rest| - 1 && toks[rest[i]].size > 1) {
        assert kids[i + 1] == rest[i];
      }
    }
  }

  lemma MembersCons(par: seq<int>, m: nat, rest: seq<nat>, ms: seq<int>)
    requires m < |par| && forall i :: 0 <= i < |rest| ==> rest[i] < |par|
    ensures MembersWithValues(par, [m] + rest, [m] + ms) <==>
            m + 1 < |par| && par[m + 1] == m && MembersWithValues(par, rest, ms)
  {
    var kids := [m] + rest;
    assert kids[0] == m && kids[1..] == rest && ([m] + ms)[1..] == ms;
    if MembersWithValues(par, kids, [m] + ms) {
      forall i | 0 <= i < |rest| ensures rest[i] + 1 < |par| && par[rest[i] + 1] == rest[i] {
        assert kids[i + 1] == rest[i];
      }
    }
  }

  lemma VisitedCons(par: seq<int>, m: nat, left: nat)
    requires left > 0
    ensures Visited(par, m, left) == [m] + Visited(par, SkipSpec(par, m + 1), left - 1)
  {
  }

  lemma VisitsNext(par: seq<int>, rest: seq<nat>, next: int)
    requires rest != [] && forall i :: 0 <= i < |rest| ==> rest[i] < |par|
    requires MembersWithValues(par, rest, Visited(par, next, |rest|))
    ensures rest[0] == next
  {
  }

  lemma {:induction false} VisitsIff(toks: seq<Token>, par: seq<int>, o: nat, m: nat)
    requires IsForest(toks, par) && m < |toks| && par[m] == o
    ensures var kids := ChildrenFrom(par, o, m);
            OneValueEach(toks, kids) <==> MembersWithValues(par, kids, Visited(par, m, |kids|))
    decreases |par| - m
  {
    hide Preorder, OneValueEach, MembersWithValues, Visited;
    var e := SubtreeEnd(par, m);
    var rest, next := ChildrenFrom(par, o, e), SkipSpec(par, m + 1);
    var later := Visited(par, next, |rest|);
    NextSibling(par, o, m);
    ValueBehind(toks, par, m);
    VisitedCons(par, m, 1 + |rest|);
    OneValueCons(toks, m, rest);
    MembersCons(par, m, rest, later);
    if rest != [] {
      if e < |par| {
        VisitsIff(toks, par, o, e);
      }
      if MembersWithValues(par, rest, later) {
        VisitsNext(par, rest, next);
      }
    } else {
      NoneVisited(toks, par, later);
    }
  }

  lemma NoneVisited(toks: seq<Token>, par: seq<int>, ms: seq<int>)
    ensures OneValueEach(toks, []) && (MembersWithValues(par, [], ms) <==> ms == [])
    ensures forall m: int :: Visited(par, m, 0) == []
  {
  }

  /**
   The walk applies to exactly the members of "tags", each with its own value, if and only if every member has one
   value (the last one at least one). Then the entries are the members' decoded names and levels, in order.
   */
  lemma TagMembersIff(toks: seq<Token>, par: seq<int>, tags: nat)
    requires IsForest(toks, par) && tags < |toks|
    ensures OneValueEach(toks, Children(par, tags)) <==> MembersWithValues(par, Children(par, tags), TagMembers(par, tags))
  {
    hide Preorder, OneValueEach, MembersWithValues;
    SizeIsChildren(toks, par, tags);
    NoneVisited(toks, par, []);
    if toks[tags].size > 0 {
      FirstChild(toks, par, tags);
      VisitsIff(toks, par, tags, tags + 1);
    }
  }
}
