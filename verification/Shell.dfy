/** sc_shell: commands are found by their leading words, longest name first. */
module Shell {
  import opened Bytes
  import opened Options

  const MAX_ARGS := 16

  // ---- Names and words ----

  /** The pieces between the spaces of a name, empty ones included. */
  function Fields(t: Text): (fs: seq<Text>)
    ensures |fs| >= 1
    ensures forall i :: 0 <= i < |fs| ==> SPACE !in fs[i]
  {
    if t == [] then [[]]
    else
      var rest := Fields(t[1..]);
      if t[0] == SPACE then [[]] + rest else [[t[0]] + rest[0]] + rest[1..]
  }

  function Join(ws: seq<Text>): Text {
    if ws == [] then [] else if |ws| == 1 then ws[0] else ws[0] + [SPACE] + Join(ws[1..])
  }

  lemma {:induction false} JoinFields(t: Text)
    ensures Join(Fields(t)) == t
  {
    if t != [] {
      var rest := Fields(t[1..]);
      JoinFields(t[1..]);
      if t[0] == SPACE {
        assert Fields(t)[1..] == rest;
        assert [] + [SPACE] + Join(rest) == t;
      } else {
        var fs := Fields(t);
        assert fs[1..] == rest[1..] && fs[0] == [t[0]] + rest[0];
        assert Join(fs) == [t[0]] + Join(rest);
      }
    }
  }

  lemma {:induction false} FieldsOfWord(w: Text)
    requires SPACE !in w
    ensures Fields(w) == [w]
  {
    if w != [] {
      FieldsOfWord(w[1..]);
      assert [w[0]] + w[1..] == w;
    }
  }

  lemma {:induction false} FieldsCons(w: Text, t: Text)
    requires SPACE !in w
    ensures Fields(w + [SPACE] + t) == [w] + Fields(t)
  {
    var s := w + [SPACE] + t;
    if w == [] {
      assert s[1..] == t;
    } else {
      FieldsCons(w[1..], t);
      assert s[1..] == w[1..] + [SPACE] + t;
      var rest := Fields(s[1..]);
      assert rest[0] == w[1..] && rest[1..] == Fields(t);
      assert [s[0]] + w[1..] == w;
    }
  }

  lemma {:induction false} FieldsJoin(ws: seq<Text>)
    requires ws != [] && forall i :: 0 <= i < |ws| ==> SPACE !in ws[i]
    ensures Fields(Join(ws)) == ws
  {
    if |ws| == 1 {
      FieldsOfWord(ws[0]);
    } else {
      FieldsJoin(ws[1..]);
      FieldsCons(ws[0], Join(ws[1..]));
    }
  }

  /** A name matches exactly when it is the space-join of as many leading arguments as it has words. */
  lemma MatchIsJoin(name: Text, argv: seq<Text>)
    requires forall i :: 0 <= i < |argv| ==> SPACE !in argv[i]
    ensures Fields(name) <= argv <==> |Fields(name)| <= |argv| && name == Join(argv[..|Fields(name)|])
  {
    var n := |Fields(name)|;
    JoinFields(name);
    if Fields(name) <= argv {
      assert argv[..n] == Fields(name);
    }
    if n <= |argv| && name == Join(argv[..n]) {
      FieldsJoin(argv[..n]);
    }
  }

  // ---- strtok_r ----

  predicate IsDelimiter(c: Byte) {
    c == SPACE || c == TAB || c == CR || c == LF
  }

  function WordStart(t: Text, p: nat): (s: nat)
    requires p <= |t|
    ensures p <= s <= |t| && (s < |t| ==> !IsDelimiter(t[s]))
    decreases |t| - p
  {
    if p < |t| && IsDelimiter(t[p]) then WordStart(t, p + 1) else p
  }

  function WordEnd(t: Text, p: nat): (e: nat)
    requires p <= |t|
    ensures p <= e <= |t| && (e < |t| ==> IsDelimiter(t[e]))
    ensures forall i :: p <= i < e ==> !IsDelimiter(t[i])
    decreases |t| - p
  {
    if p < |t| && !IsDelimiter(t[p]) then WordEnd(t, p + 1) else p
  }

  /** The words of t from p on. */
  function Words(t: Text, p: nat): (ws: seq<Text>)
    requires p <= |t|
    ensures forall i :: 0 <= i < |ws| ==> ws[i] != [] && SPACE !in ws[i]
    decreases |t| - p
  {
    var s := WordStart(t, p);
    if s == |t| then []
    else
      var e := WordEnd(t, s);
      [t[s..e]] + Words(t, if e < |t| then e + 1 else e)
  }

  // ---- Command lines ----

  type Blank = c: Byte | c == 32 || c == 9 || c == 13 || c == 10 witness 32

  type WordText = w: Text | w != [] && forall i :: 0 <= i < |w| ==> w[i] !in {32, 9, 13, 10} witness [33]

  /** A word with the blanks before it; between two words there is at least one. */
  datatype Spaced = Spaced(blanks: seq<Blank>, word: WordText)

  predicate Apart(ws: seq<Spaced>) {
    forall i :: 0 < i < |ws| ==> ws[i].blanks != []
  }

  function LineOf(ws: seq<Spaced>, tail: seq<Blank>): Text {
    if ws == [] then tail else ws[0].blanks + ws[0].word + LineOf(ws[1..], tail)
  }

  function WordsOf(ws: seq<Spaced>): seq<Text> {
    if ws == [] then [] else [ws[0].word] + WordsOf(ws[1..])
  }

  lemma {:induction false} WordStartAt(t: Text, p: nat, s: nat)
    requires p <= s <= |t| && (forall i :: p <= i < s ==> IsDelimiter(t[i])) && (s < |t| ==> !IsDelimiter(t[s]))
    ensures WordStart(t, p) == s
    decreases s - p
  {
    if p < s {
      WordStartAt(t, p + 1, s);
    }
  }

  lemma {:induction false} WordEndAt(t: Text, p: nat, e: nat)
    requires p <= e <= |t| && (forall i :: p <= i < e ==> !IsDelimiter(t[i])) && (e < |t| ==> IsDelimiter(t[e]))
    ensures WordEnd(t, p) == e
    decreases e - p
  {
    if p < e {
      WordEndAt(t, p + 1, e);
    }
  }

  lemma FirstWord(t: Text, p: nat, w: Spaced, rest: Text)
    requires p <= |t| && t[p..] == w.blanks + w.word + rest && (rest == [] || IsDelimiter(rest[0]))
    ensures var s, e := p + |w.blanks|, p + |w.blanks| + |w.word|;
            e <= |t| && WordStart(t, p) == s < |t| && WordEnd(t, s) == e && t[s..e] == w.word && t[e..] == rest
  {
    var s, e := p + |w.blanks|, p + |w.blanks| + |w.word|;
    var u := w.blanks + w.word + rest;
    assert forall i :: p <= i < |t| ==> t[i] == t[p..][i - p];
    assert forall i :: p <= i < s ==> t[i] == w.blanks[i - p];
    assert forall i :: s <= i < e ==> t[i] == w.word[i - s];
    assert forall i :: e <= i < |t| ==> t[i] == rest[i - e];
    WordStartAt(t, p, s);
    WordEndAt(t, s, e);
  }

  /** The words of a line are what stands between its spaces, tabs, carriage returns and line feeds. */
  lemma {:induction false} WordsAre(t: Text, p: nat, ws: seq<Spaced>, tail: seq<Blank>)
    requires p <= |t| && Apart(ws) && t[p..] == LineOf(ws, tail)
    ensures Words(t, p) == WordsOf(ws)
    decreases |ws|
  {
    hide Words, WordStart, WordEnd, IsDelimiter;
    if ws == [] {
      NoWords(t, p, tail);
    } else {
      var rest := LineOf(ws[1..], tail);
      RestIsApart(ws, tail);
      assert t[p..] == ws[0].blanks + ws[0].word + rest;
      FirstWord(t, p, ws[0], rest);
      var e := p + |ws[0].blanks| + |ws[0].word|;
      WordsAre(t, e, ws[1..], tail);
      OneWord(t, p);
      if e < |t| {
        assert t[e] == t[e..][0];
        SkipOne(t, e);
      }
    }
  }

  lemma NoWords(t: Text, p: nat, tail: seq<Blank>)
    requires p <= |t| && t[p..] == tail
    ensures Words(t, p) == []
  {
    assert forall i :: p <= i < |t| ==> t[i] == t[p..][i - p];
    WordStartAt(t, p, |t|);
  }

  lemma OneWord(t: Text, p: nat)
    requires p <= |t| && WordStart(t, p) < |t|
    ensures var s, e := WordStart(t, p), WordEnd(t, WordStart(t, p));
            Words(t, p) == [t[s..e]] + Words(t, if e < |t| then e + 1 else e)
  {
  }

  lemma RestIsApart(ws: seq<Spaced>, tail: seq<Blank>)
    requires ws != [] && Apart(ws)
    ensures Apart(ws[1..]) && (LineOf(ws[1..], tail) == [] || IsDelimiter(LineOf(ws[1..], tail)[0]))
  {
    var rest := ws[1..];
    if rest != [] {
      assert rest[0] == ws[1] && LineOf(rest, tail)[0] == rest[0].blanks[0];
    } else if tail != [] {
      assert IsDelimiter(tail[0]);
    }
  }

  lemma SkipOne(t: Text, p: nat)
    requires p < |t| && IsDelimiter(t[p])
    ensures Words(t, p) == Words(t, p + 1)
  {
    assert WordStart(t, p) == WordStart(t, p + 1);
  }

  /** A word cut out of the line in place: it stands at `at`, with a NUL behind it. */
  predicate WordAt(line: Text, at: nat, w: Text) {
    at + |w| < |line| && line[at..at + |w|] == w && line[at + |w|] == NUL
  }

  /** Behind `save`, where strtok_r() no longer writes, except for the line's own NUL. */
  predicate Behind(end: nat, save: nat, n: nat) {
    end < save || (end == save && end == n)
  }

  class Tokenizer {
    const line: array<Byte>
    ghost const text: CStr
    var save: nat

    /** From `save` on the line is as it was given, up to its NUL. */
    ghost predicate Valid()
      reads this, line
    {
      && save <= |text| < line.Length && line[|text|] == NUL
      && (forall i :: save <= i < |text| ==> line[i] == text[i])
    }

    constructor (line: array<Byte>, ghost text: CStr)
      requires |text| < line.Length && line[..|text|] == text && line[|text|] == NUL
      ensures Valid() && this.line == line && this.text == text && save == 0
    {
      this.line, this.text, this.save := line, text, 0;
      new;
      assert forall i :: 0 <= i < |text| ==> line[i] == line[..|text|][i];
    }

    method SkipDelimiters(from: nat) returns (s: nat)
      requires Valid() && save <= from <= |text|
      ensures s == WordStart(text, from)
    {
      s := from;
      while line[s] != NUL && IsDelimiter(line[s])
        invariant from <= s <= |text| && WordStart(text, from) == WordStart(text, s)
        decreases |text| - s
      {
        s := s + 1;
      }
    }

    method SkipWord(from: nat) returns (e: nat)
      requires Valid() && save <= from <= |text|
      ensures e == WordEnd(text, from)
    {
      e := from;
      while line[e] != NUL && !IsDelimiter(line[e])
        invariant from <= e <= |text| && WordEnd(text, from) == WordEnd(text, e)
        decreases |text| - e
      {
        e := e + 1;
      }
    }

    /** strtok_r(): the next word, cut off in place; None at the end of the line. */
    method Next() returns (word: Option<nat>)
      requires Valid()
      modifies this, line
      ensures Valid() && old(save) <= save
      ensures line[..old(save)] == old(line[..save])
      ensures var ws := Words(text, old(save));
              if word.None? then ws == []
              else ws != [] && old(save) <= word.value && WordAt(line[..], word.value, ws[0]) && Behind(word.value + |ws[0]|, save, |text|)
                   && ws[1..] == Words(text, save)
    {
      var s := SkipDelimiters(save);
      if line[s] == NUL {
        save := s;
        return None;
      }
      var e := SkipWord(s);
      ghost var w := text[s..e];
      assert line[s..e] == w;
      if line[e] == NUL {
        save := e;
      } else {
        line[e] := NUL;
        save := e + 1;
      }
      return Some(s);
    }
  }

  /** The first words of a command line, cut out of it in place. */
  method Split(line: array<Byte>, ghost text: CStr) returns (argv: seq<nat>)
    requires |text| < line.Length && line[..|text|] == text && line[|text|] == NUL
    modifies line
    ensures var ws := Words(text, 0);
            && |argv| == (if |ws| < MAX_ARGS then |ws| else MAX_ARGS)
            && forall k :: 0 <= k < |argv| ==> WordAt(line[..], argv[k], ws[k])
  {
    hide Words, WordAt, Standing;
    ghost var ws := Words(text, 0);
    argv := [];
    var t := new Tokenizer(line, text);
    ghost var from: nat := t.save;
    var word: Option<nat> := t.Next();
    NoneStanding(line[..], ws, from, |text|);
    while word.Some? && |argv| < MAX_ARGS
      invariant t.Valid() && from <= t.save
      invariant |argv| <= MAX_ARGS && |argv| <= |ws|
      invariant word.None? ==> |argv| == |ws|
      invariant word.Some? ==> |argv| < |ws| && WordAt(line[..], word.value, ws[|argv|])
                               && Behind(word.value + |ws[|argv|]|, t.save, |text|) && ws[|argv| + 1..] == Words(text, t.save)
      invariant Standing(line[..], argv, ws, from, |text|)
      decreases |ws| - |argv|, word.Some?
    {
      OneMoreStanding(line[..], argv, ws, from, t.save, |text|, word.value);
      argv := argv + [word.value];
      from := t.save;
      ghost var before := line[..];
      word := t.Next();
      StillStanding(before, line[..], argv, ws, from, |text|);
    }
    AllStanding(line[..], argv, ws, from, |text|);
  }

  /** The words found so far stand in the part of the line that is done with. */
  ghost predicate Standing(line: Text, argv: seq<nat>, ws: seq<Text>, save: nat, n: nat) {
    |argv| <= |ws| && forall k :: 0 <= k < |argv| ==> WordAt(line, argv[k], ws[k]) && Behind(argv[k] + |ws[k]|, save, n)
  }

  lemma NoneStanding(line: Text, ws: seq<Text>, save: nat, n: nat)
    ensures Standing(line, [], ws, save, n)
  {
  }

  lemma AllStanding(line: Text, argv: seq<nat>, ws: seq<Text>, save: nat, n: nat)
    requires Standing(line, argv, ws, save, n)
    ensures |argv| <= |ws| && forall k :: 0 <= k < |argv| ==> WordAt(line, argv[k], ws[k])
  {
  }

  lemma OneMoreStanding(line: Text, argv: seq<nat>, ws: seq<Text>, from: nat, save: nat, n: nat, at: nat)
    requires Standing(line, argv, ws, from, n) && from <= save <= n && |argv| < |ws|
    requires WordAt(line, at, ws[|argv|]) && Behind(at + |ws[|argv|]|, save, n)
    ensures Standing(line, argv + [at], ws, save, n)
  {
  }

  lemma SamePart(a: Text, b: Text, at: nat, end: nat, save: nat)
    requires at <= end <= save <= |a| && save <= |b| && a[..save] == b[..save]
    ensures a[at..end] == b[at..end]
  {
    assert a[at..end] == a[..save][at..end];
    assert b[at..end] == b[..save][at..end];
  }

  lemma StillStanding(before: Text, line: Text, argv: seq<nat>, ws: seq<Text>, save: nat, n: nat)
    requires Standing(before, argv, ws, save, n) && save <= n < |line| == |before|
    requires line[..save] == before[..save] && line[n] == NUL
    ensures Standing(line, argv, ws, save, n)
  {
    forall k | 0 <= k < |argv| ensures WordAt(line, argv[k], ws[k]) {
      var at, end := argv[k], argv[k] + |ws[k]|;
      assert WordAt(before, at, ws[k]);
      SamePart(before, line, at, end, save);
      if end < save {
        assert line[end] == line[..save][end] && before[end] == before[..save][end];
      }
    }
  }

  /** argv[k] as a C string. */
  function CStringAt(line: Text, at: nat): (w: Text)
    requires at <= |line|
    decreases |line| - at
  {
    if at == |line| || line[at] == NUL then [] else [line[at]] + CStringAt(line, at + 1)
  }

  // ---- The table ----

  datatype Command = Command(name: CStr, handler: nat, words: nat)

  /** Which command a line runs: the longest run of leading words that names one. */
  function Longest(table: map<Text, nat>, argv: seq<Text>, k: nat): (n: nat)
    requires k <= |argv|
    ensures n <= k && (n > 0 ==> Join(argv[..n]) in table)
    ensures forall i :: n < i <= k ==> Join(argv[..i]) !in table
  {
    if k == 0 then 0 else if Join(argv[..k]) in table then k else Longest(table, argv, k - 1)
  }

  /** add()'s answers. */
  datatype Status = Added | InvalidArg | NoMem

  /** What a command line leads to: nothing, exit code 127, or a handler with the remaining arguments. */
  datatype Outcome = Empty | NotFound(word: Text) | Call(handler: nat, args: seq<Text>)

  /** Which outcome a line has depends on the registered names alone, not on the order of their registration. */
  function OutcomeOf(table: map<Text, nat>, argv: seq<Text>): Outcome {
    if argv == [] then Empty
    else
      var n := Longest(table, argv, |argv|);
      if n == 0 then NotFound(argv[0]) else Call(table[Join(argv[..n])], argv[n..])
  }

  /**
   What the outcome says: a call has the handler of the longest name made of leading words and all the words behind
   it; the unknown word is the first one, when no name is made of leading words.
   */
  lemma OutcomeIff(table: map<Text, nat>, argv: seq<Text>, outcome: Outcome)
    ensures outcome == OutcomeOf(table, argv) <==>
            match outcome
            case Empty => argv == []
            case NotFound(word) => argv != [] && word == argv[0] && forall k :: 0 < k <= |argv| ==> Join(argv[..k]) !in table
            case Call(handler, args) =>
              exists k :: 0 < k <= |argv| && Join(argv[..k]) in table && table[Join(argv[..k])] == handler && args == argv[k..]
                          && forall j :: k < j <= |argv| ==> Join(argv[..j]) !in table
  {
    hide Join;
    if argv != [] {
      var n := Longest(table, argv, |argv|);
      if n > 0 && outcome.Call? {
        forall k | 0 < k <= |argv| && Join(argv[..k]) in table && forall j :: k < j <= |argv| ==> Join(argv[..j]) !in table
          ensures k == n
        {
        }
      }
    }
  }

  /** At most the first 16 words. */
  function FirstArgs(ws: seq<Text>): (argv: seq<Text>)
    ensures argv <= ws && |argv| == if |ws| < 16 then |ws| else 16
  {
    if |ws| < MAX_ARGS then ws else ws[..MAX_ARGS]
  }

  /** strchr(name + from, ' '), or the end of the name. */
  method FindSpace(name: Text, from: nat) returns (end: nat)
    requires from <= |name|
    ensures from <= end <= |name| && SPACE !in name[from..end] && (end < |name| ==> name[end] == SPACE)
  {
    end := from;
    while end < |name| && name[end] != SPACE
      invariant from <= end <= |name| && SPACE !in name[from..end]
    {
      end := end + 1;
    }
  }

  /** One word of a name against one argument. */
  lemma PrefixTurn(fs: seq<Text>, argv: seq<Text>, word: nat, w: Text, more: seq<Text>)
    requires word <= |argv| && fs == argv[..word] + ([w] + more)
    ensures word >= |argv| || argv[word] != w ==> !(fs <= argv)
    ensures word < |argv| && argv[word] == w ==> fs == argv[..word + 1] + more
    ensures word < |argv| && argv[word] == w && more == [] ==> fs <= argv
  {
    assert fs[word] == w;
    if word < |argv| && argv[word] == w {
      assert argv[..word + 1] == argv[..word] + [w];
    }
  }

  /** A name matches when its words are the first arguments. */
  method NameMatches(name: Text, argv: seq<Text>) returns (r: bool)
    ensures r == (Fields(name) <= argv)
  {
    hide Fields;
    var word, start: nat := 0, 0;
    assert name[0..] == name && argv[..0] == [];
    while true
      invariant start <= |name| && word <= |argv|
      invariant Fields(name) == argv[..word] + Fields(name[start..])
      decreases |name| - start
    {
      var end := FindSpace(name, start);
      ghost var w, more: seq<Text> := name[start..end], [];
      if end < |name| {
        assert name[start..] == w + [SPACE] + name[end + 1..];
        FieldsCons(w, name[end + 1..]);
        more := Fields(name[end + 1..]);
      } else {
        assert name[start..] == w && [w] + more == [w];
        FieldsOfWord(w);
      }
      PrefixTurn(Fields(name), argv, word, w, more);
      if word >= |argv| || argv[word] != name[start..end] {
        return false;
      }
      word := word + 1;
      if end == |name| {
        return true;
      }
      start := end + 1;
    }
  }

  /** The words of a name, counted in a byte. */
  method CountWords(name: Text) returns (words: nat)
    ensures words == |Fields(name)| % 256
  {
    hide Fields;
    words := 1;
    ghost var n: nat := 1;
    assert name[0..] == name;
    for i := 0 to |name|
      invariant words == n % 256 && n - 1 + |Fields(name[i..])| == |Fields(name)|
    {
      OneFieldMore(name, i);
      if name[i] == SPACE {
        ByteWraps(n);
        n := n + 1;
      }
      words := (words + if name[i] == SPACE then 1 else 0) % 256;
    }
    assert |Fields([])| == 1 by { EmptyField(); }
    assert name[|name|..] == [];
  }

  lemma EmptyField()
    ensures Fields([]) == [[]]
  {
  }

  lemma OneFieldMore(name: Text, i: nat)
    requires i < |name|
    ensures |Fields(name[i..])| == |Fields(name[i + 1..])| + if name[i] == SPACE then 1 else 0
  {
    assert name[i..][1..] == name[i + 1..];
  }

  lemma ByteWraps(n: nat)
    ensures (n % 256 + 1) % 256 == (n + 1) % 256
  {
  }

  /** The commands of a table, under distinct names. */
  ghost predicate IsTable(cs: seq<Command>, table: map<Text, nat>) {
    && |cs| == |table|
    && (forall i :: 0 <= i < |cs| ==> Registered(cs[i], table))
    && (forall i, j :: 0 <= i < j < |cs| ==> cs[i].name != cs[j].name)
    && (forall name :: name in table ==> exists i :: 0 <= i < |cs| && cs[i].name == name)
  }

  ghost predicate Registered(cmd: Command, table: map<Text, nat>) {
    cmd.name in table && table[cmd.name] == cmd.handler && cmd.words == |Fields(cmd.name)| % 256
  }

  lemma AppendCommand(cs: seq<Command>, table: map<Text, nat>, cmd: Command)
    requires IsTable(cs, table) && (forall i :: 0 <= i < |cs| ==> cs[i].name != cmd.name) && cmd.words == |Fields(cmd.name)| % 256
    ensures cmd.name !in table && IsTable(cs + [cmd], table[cmd.name := cmd.handler])
  {
    var cs', table' := cs + [cmd], table[cmd.name := cmd.handler];
    assert cs'[|cs|] == cmd;
    forall name | name in table' ensures exists i :: 0 <= i < |cs'| && cs'[i].name == name {
      if name != cmd.name {
        var i :| 0 <= i < |cs| && cs[i].name == name;
        assert cs'[i].name == name;
      }
    }
    forall i | 0 <= i < |cs'| ensures Registered(cs'[i], table') {
      assert i < |cs| ==> Registered(cs[i], table);
    }
  }

  lemma ReplaceCommand(cs: seq<Command>, table: map<Text, nat>, k: nat, cmd: Command)
    requires IsTable(cs, table) && k < |cs| && cs[k].name == cmd.name && cmd.words == |Fields(cmd.name)| % 256
    ensures cmd.name in table && IsTable(cs[k := cmd], table[cmd.name := cmd.handler])
  {
    var cs', table' := cs[k := cmd], table[cmd.name := cmd.handler];
    assert Registered(cs[k], table);
    forall name | name in table' ensures exists i :: 0 <= i < |cs'| && cs'[i].name == name {
      var i :| 0 <= i < |cs| && cs[i].name == name;
      assert cs'[i].name == name;
    }
    forall i | 0 <= i < |cs'| ensures Registered(cs'[i], table') {
      assert Registered(cs[i], table);
    }
  }

  lemma CommandNamed(cs: seq<Command>, table: map<Text, nat>, name: Text) returns (i: nat)
    requires IsTable(cs, table) && name in table
    ensures i < |cs| && cs[i].name == name && Registered(cs[i], table)
  {
    i :| 0 <= i < |cs| && cs[i].name == name;
  }

  lemma InTable(cs: seq<Command>, table: map<Text, nat>, cmd: Command)
    requires IsTable(cs, table) && cmd in cs
    ensures Registered(cmd, table)
  {
  }

  lemma SmallByte(n: nat)
    requires n <= MAX_ARGS
    ensures n % 256 == n
  {
  }

  /** A command that matches at least as many words as any other is the longest. */
  lemma BestIsLongest(cs: seq<Command>, table: map<Text, nat>, argv: seq<Text>, best: Command)
    requires IsTable(cs, table) && best in cs && |argv| <= MAX_ARGS && forall i :: 0 <= i < |argv| ==> SPACE !in argv[i]
    requires Fields(best.name) <= argv
    requires forall i :: 0 <= i < |cs| && Fields(cs[i].name) <= argv ==> cs[i].words <= best.words
    ensures var n := Longest(table, argv, |argv|);
            n > 0 && best.words == n && best.name == Join(argv[..n]) && table[Join(argv[..n])] == best.handler
  {
    hide IsTable, Fields, Join, Longest;
    var n, k := Longest(table, argv, |argv|), |Fields(best.name)|;
    InTable(cs, table, best);
    MatchIsJoin(best.name, argv);
    SmallByte(k);
    assert k <= |argv| && best.words == k && Join(argv[..k]) in table;
    assert k <= n;
    var i := CommandNamed(cs, table, Join(argv[..n]));
    FieldsJoin(argv[..n]);
    assert Fields(cs[i].name) == argv[..n] && argv[..n] <= argv;
    SmallByte(n);
  }

  lemma NoneIsLongest(cs: seq<Command>, table: map<Text, nat>, argv: seq<Text>)
    requires IsTable(cs, table) && forall i :: 0 <= i < |argv| ==> SPACE !in argv[i]
    requires forall i :: 0 <= i < |cs| ==> !(Fields(cs[i].name) <= argv)
    ensures Longest(table, argv, |argv|) == 0
  {
    hide IsTable, Fields, Join, Longest;
    var n := Longest(table, argv, |argv|);
    if n > 0 {
      var i := CommandNamed(cs, table, Join(argv[..n]));
      FieldsJoin(argv[..n]);
      assert false;
    }
  }

  /** Two commands never match the same number of leading words. */
  lemma MatchesDiffer(cs: seq<Command>, table: map<Text, nat>, argv: seq<Text>, i: nat, j: nat)
    requires IsTable(cs, table) && i < |cs| && j < |cs| && forall k :: 0 <= k < |argv| ==> SPACE !in argv[k]
    requires Fields(cs[i].name) <= argv && Fields(cs[j].name) <= argv && |Fields(cs[i].name)| == |Fields(cs[j].name)|
    ensures i == j
  {
    hide Fields, Join;
    MatchIsJoin(cs[i].name, argv);
    MatchIsJoin(cs[j].name, argv);
  }

  class CommandTable {
    const cmds: array<Option<Command>>
    ghost var cs: seq<Command>
    ghost var table: map<Text, nat>

    /** The commands fill the first slots. */
    ghost predicate Valid()
      reads this, cmds
    {
      && |cs| <= cmds.Length
      && (forall i :: 0 <= i < cmds.Length ==> cmds[i] == if i < |cs| then Some(cs[i]) else None)
      && IsTable(cs, table)
    }

    constructor (size: nat)
      ensures Valid() && fresh(cmds) && cmds.Length == size && table == map[]
    {
      cmds := new Option<Command>[size](_ => None);
      table, cs := map[], [];
    }

    method Add(name: Option<CStr>, handler: Option<nat>) returns (status: Status)
      requires Valid()
      modifies this, cmds
      ensures Valid()
      ensures var given := name.Some? && name.value != [] && handler.Some?;
              && (!given ==> status == InvalidArg && table == old(table))
              && (given && (name.value in old(table) || |old(table)| < cmds.Length) ==>
                    status == Added && table == old(table)[name.value := handler.value])
              && (given && name.value !in old(table) && |old(table)| == cmds.Length ==> status == NoMem && table == old(table))
    {
      hide IsTable, Fields;
      if name.None? || name.value == [] || handler.None? {
        return InvalidArg;
      }
      Sizes(cs, table, name.value);
      var i := 0;
      while i < cmds.Length
        invariant 0 <= i <= |cs|
        invariant forall j :: 0 <= j < i ==> cs[j].name != name.value
      {
        if cmds[i].None? || cmds[i].value.name == name.value {
          var words := CountWords(name.value);
          var cmd := Command(name.value, handler.value, words);
          if i < |cs| {
            ReplaceCommand(cs, table, i, cmd);
            cs := cs[i := cmd];
          } else {
            AppendCommand(cs, table, cmd);
            cs := cs + [cmd];
          }
          table := table[name.value := handler.value];
          cmds[i] := Some(cmd);
          return Added;
        }
        i := i + 1;
      }
      return NoMem;
    }

    /** The lookup loop of run(). */
    method Find(argv: seq<Text>) returns (best: Option<Command>)
      requires Valid() && |argv| <= MAX_ARGS && forall i :: 0 <= i < |argv| ==> SPACE !in argv[i]
      ensures var n := Longest(table, argv, |argv|);
              && (best.None? <==> n == 0)
              && (best.Some? ==> best.value.words == n && best.value.name == Join(argv[..n]) && table[Join(argv[..n])] == best.value.handler)
    {
      hide IsTable, Fields, Longest;
      best := None;
      for i := 0 to cmds.Length
        invariant best.None? ==> forall j :: 0 <= j < i && j < |cs| ==> !(Fields(cs[j].name) <= argv)
        invariant best.Some? ==> best.value in cs && Fields(best.value.name) <= argv
        invariant best.Some? ==> forall j :: 0 <= j < i && j < |cs| && Fields(cs[j].name) <= argv ==> cs[j].words <= best.value.words
      {
        var cmd := cmds[i];
        if cmd.Some? && (best.None? || cmd.value.words > best.value.words) {
          assert cmd.value == cs[i];
          var matches := NameMatches(cmd.value.name, argv);
          if matches {
            best := cmd;
          }
        }
      }
      if best.Some? {
        BestIsLongest(cs, table, argv, best.value);
      } else {
        NoneIsLongest(cs, table, argv);
      }
    }

    /** run(): the longest name made of leading words is the one called, with the arguments behind it. */
    method Run(line: array<Byte>, ghost text: CStr) returns (outcome: Outcome)
      requires Valid() && line != cmds as object
      requires |text| < line.Length && line[..|text|] == text && line[|text|] == NUL
      modifies line
      ensures outcome == OutcomeOf(table, FirstArgs(Words(text, 0)))
    {
      hide Words, Fields;
      WordsOfCString(text, 0);
      var starts := Split(line, text);
      var argv := Args(line, starts, FirstArgs(Words(text, 0)), text);
      if argv == [] {
        return Empty;
      }
      var best := Find(argv);
      if best.None? {
        return NotFound(argv[0]);
      }
      return Call(best.value.handler, argv[best.value.words..]);
    }
  }

  lemma Sizes(cs: seq<Command>, table: map<Text, nat>, name: Text)
    requires IsTable(cs, table)
    ensures |cs| == |table|
    ensures name in table <==> exists i :: 0 <= i < |cs| && cs[i].name == name
  {
    forall i | 0 <= i < |cs| ensures cs[i].name in table {
      assert Registered(cs[i], table);
    }
  }

  lemma {:induction false} WordsOfCString(t: CStr, p: nat)
    requires p <= |t|
    ensures forall i :: 0 <= i < |Words(t, p)| ==> NUL !in Words(t, p)[i]
    decreases |t| - p
  {
    var s := WordStart(t, p);
    if s < |t| {
      var e := WordEnd(t, s);
      WordsOfCString(t, if e < |t| then e + 1 else e);
    }
  }

  /** argv as C strings. */
  method Args(line: array<Byte>, starts: seq<nat>, ghost ws: seq<Text>, ghost text: CStr) returns (argv: seq<Text>)
    requires |starts| == |ws| && forall k :: 0 <= k < |starts| ==> WordAt(line[..], starts[k], ws[k]) && NUL !in ws[k]
    ensures argv == ws
  {
    argv := [];
    for k := 0 to |starts|
      invariant argv == ws[..k]
    {
      WordIsCString(line[..], starts[k], ws[k]);
      argv := argv + [CStringAt(line[..], starts[k])];
    }
  }

  lemma {:induction false} WordIsCString(line: Text, at: nat, w: Text)
    requires WordAt(line, at, w) && NUL !in w
    ensures CStringAt(line, at) == w
    decreases |w|
  {
    if w != [] {
      assert line[at] == line[at..at + |w|][0] == w[0];
      assert line[at + 1..at + |w|] == line[at..at + |w|][1..];
      WordIsCString(line, at + 1, w[1..]);
    }
  }
}
