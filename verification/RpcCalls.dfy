/** The outstanding call() and its answer: names, isolation from other answers, and delivery. */
module RpcCalls {
  import opened Bytes
  import opened Options
  import opened RpcMachine
  import opened RpcOwnership
  import JsmnPrefix
  import JsmnSpec
  import JsonReader
  import JsonText

  // ---- Names ----

  /** The name of the n-th call: "c" and a decimal number, which wraps at 2^32. */
  function NameOf(n: nat): Text {
    CallName(n % COUNTER_RANGE)
  }

  /** A call's name is a c and the decimal number of the call, and reaches the handlers uncut. */
  lemma NameReads(k: nat)
    requires k < COUNTER_RANGE
    ensures |CallName(k)| > 1 && CallName(k)[0] == 99 && JsonText.ParseInt(CallName(k)[1..]) == Some(k)
    ensures |CallName(k)| <= 64 && KeptCorrelation(CallName(k)) == CallName(k)
  {
    JsonText.DecimalRoundTrip(k);
    assert CallName(k)[1..] == JsonText.Decimal(k);
    assert JsonText.Pow10(10) == 10000000000;
    JsonText.DigitsLength(k, 10);
  }

  /** Two calls have different names unless a multiple of 2^32 calls lies between them. */
  lemma NamesDiffer(i: nat, n: nat)
    requires i < n < i + 0x1_0000_0000
    ensures NameOf(i) != NameOf(n)
  {
    NameReads(i % COUNTER_RANGE);
    NameReads(n % COUNTER_RANGE);
    assert n - i == COUNTER_RANGE * (n / COUNTER_RANGE - i / COUNTER_RANGE) + (n % COUNTER_RANGE - i % COUNTER_RANGE);
  }

  lemma NextCounts(n: nat)
    ensures (n % COUNTER_RANGE + 1) % COUNTER_RANGE == (n + 1) % COUNTER_RANGE
  {
  }

  // ---- What the call buffer holds ----

  ghost predicate PrefixOfOne(t: Text, answers: seq<Message>) {
    t == [] || exists k :: 0 <= k < |answers| && t <= answers[k].body
  }

  /** The message at hand carries the name of the call that waits. */
  predicate AtHand(s: State) {
    s.mqtt.inbound.Some? && s.mqtt.rxResponse && s.call.correlation != [] && s.mqtt.rxCorrelation == s.call.correlation
  }

  predicate InCall(stage: RequestStage) {
    stage.CallClear? || stage.CallPublish? || stage.CallWait? || stage.CallDisarm?
  }

  /** An answer on <down>res under the name of this call. */
  predicate IsAnswerTo(c: Config, m: Message, call: nat) {
    m.topic == c.down + [114, 101, 115] && m.correlation == NameOf(call)
  }

  ghost predicate AllAnswer(c: Config, answers: seq<Message>, call: nat) {
    forall k :: 0 <= k < |answers| ==> IsAnswerTo(c, answers[k], call)
  }

  ghost predicate Sound(c: Config, p: Parsed) {
    JsmnPrefix.Accepted(p.document, p.cap) && PrefixOfOne(p.document, p.answers) && AllAnswer(c, p.answers, p.call)
  }

  /** call_buf[..call_len] is always the beginning of an answer to this call. */
  ghost predicate CallInv(c: Config, s: State) {
    && |s.call.buf| == CALL_BUF_SIZE && s.call.len <= CALL_BUF_SIZE
    && s.call.counter == s.hist.calls % COUNTER_RANGE
    && (s.call.correlation != [] ==> s.call.correlation == NameOf(s.hist.calls) && PrefixOfOne(s.call.buf[..s.call.len], s.hist.answers))
    && AllAnswer(c, s.hist.answers, s.hist.calls)
    && (InCall(s.req.stage) ==> s.call.correlation != [])
    && (AtHand(s) ==>
          var m := s.mqtt.inbound.value;
          && m in s.hist.answers
          && s.mqtt.upto <= |m.body|
          && (s.mqtt.upto < CALL_BUF_SIZE ==> s.call.buf[..s.mqtt.upto] == m.body[..s.mqtt.upto]))
    && (s.req.stage.CallParse? ==>
          && s.call.correlation == [] && s.req.stage.len <= CALL_BUF_SIZE
          && PrefixOfOne(s.call.buf[..s.req.stage.len], s.hist.answers))
    && (forall k :: 0 <= k < |s.hist.parsed| ==> Sound(c, s.hist.parsed[k]))
  }

  lemma PrefixKept(t: Text, answers: seq<Message>, more: seq<Message>)
    requires PrefixOfOne(t, answers)
    ensures PrefixOfOne(t, answers + more)
  {
    if t != [] {
      var k :| 0 <= k < |answers| && t <= answers[k].body;
      assert (answers + more)[k] == answers[k];
    }
  }

  lemma BeginKeepsCall(c: Config, s: State, m: Message, n: nat)
    requires CallInv(c, s) && Safe(c, s) && Enabled(c, s, Begin(m, n))
    ensures CallInv(c, AfterBegin(c, s, m, n))
  {
    hide SlotOk, Sound, NameOf;
    PurposeIff(c, m.topic, []);
    hide PurposeOf;
    var more := if Answers(c, s, m) then [m] else [];
    if s.call.correlation != [] {
      PrefixKept(s.call.buf[..s.call.len], s.hist.answers, more);
    }
    assert s.call.correlation == [] ==> s.hist.answers + more == s.hist.answers;
  }

  lemma StoreKeepsCall(c: Config, s: State)
    requires CallInv(c, s) && MqttOk(c, s) && s.mqtt.stage.Fragment?
    ensures CallInv(c, AfterStore(c, s))
  {
    hide SlotOk, Sound, Stored, Newest, PurposeOf, AllAnswer, NameOf;
    if AtHand(s) {
      DeliverKeepsCall(c, s);
    }
  }

  lemma DeliverKeepsCall(c: Config, s: State)
    requires CallInv(c, s) && AtHand(s) && s.mqtt.stage.Fragment? && s.mqtt.upto + s.mqtt.stage.n <= |s.mqtt.inbound.value.body|
    ensures var call, end, body := Delivered(s.call, s.mqtt.rxCorrelation, FragmentData(s), s.mqtt.upto), s.mqtt.upto + s.mqtt.stage.n, s.mqtt.inbound.value.body;
            && |call.buf| == CALL_BUF_SIZE && call.len <= CALL_BUF_SIZE && call.correlation == s.call.correlation && call.counter == s.call.counter
            && (end < CALL_BUF_SIZE ==> call.buf[..end] == body[..end])
            && PrefixOfOne(call.buf[..call.len], s.hist.answers)
  {
    hide Sound, AllAnswer, NameOf;
    var body, at, end := s.mqtt.inbound.value.body, s.mqtt.upto, s.mqtt.upto + s.mqtt.stage.n;
    if end < CALL_BUF_SIZE {
      var call := Delivered(s.call, s.mqtt.rxCorrelation, FragmentData(s), at);
      assert call.buf[..end] == call.buf[..at] + call.buf[at..end];
      assert body[..end] == body[..at] + body[at..end];
    }
  }

  lemma RequestKeepsCall(c: Config, s: State, e: Event)
    requires CallInv(c, s) && Safe(c, s) && Enabled(c, s, e) && (e.StartCall? || e.EndCall? || e.ParseAnswer?)
    ensures CallInv(c, Next(c, s, e))
  {
    hide SlotOk, PurposeOf, CallName;
    NextCounts(s.hist.calls);
    assert CallName(NextCounter(s)) != [] by {
      NameReads(NextCounter(s));
    }
  }

  lemma StepKeepsCall(c: Config, s: State, e: Event)
    requires CallInv(c, s) && Safe(c, s) && Enabled(c, s, e)
    ensures CallInv(c, Next(c, s, e))
  {
    hide SlotOk, PurposeOf, Sound, AfterBegin, AfterStore, Started, PrefixOfOne, Answers, AllAnswer, NameOf;
    if e.Begin? {
      BeginKeepsCall(c, s, e.msg, e.n);
    } else if e.Store? {
      StoreKeepsCall(c, s);
    } else if e.StartCall? || e.EndCall? || e.ParseAnswer? {
      RequestKeepsCall(c, s, e);
    }
  }

  lemma {:induction false} EveryRunCalls(c: Config, es: seq<Event>)
    requires Run(c, es).Some?
    ensures CallInv(c, Run(c, es).value)
    decreases |es|
  {
    if es != [] {
      var before := es[..|es| - 1];
      hide CallInv;
      EveryRunCalls(c, before);
      StepKeepsCall(c, Run(c, before).value, es[|es| - 1]);
    }
  }

  // ---- Isolation ----

  /**
   Whatever a call parses is the beginning of an answer that began after that call was published and carries its
   name, even if the bit of an earlier call comes late; it is the whole answer when the answer's last byte closes its
   root object; and no answer to another of the last 2^32 calls is among those it can come from.
   */
  lemma CallsAreIsolated(c: Config, es: seq<Event>, i: nat) returns (k: nat)
    requires Run(c, es).Some? && i < |Run(c, es).value.hist.parsed|
    ensures var p := Run(c, es).value.hist.parsed[i];
            && k < |p.answers| && p.document <= p.answers[k].body
            && (JsmnPrefix.ClosesAtEnd(p.answers[k].body) ==> p.document == p.answers[k].body)
            && AllAnswer(c, p.answers, p.call)
            && forall j, call: nat :: 0 <= j < |p.answers| && call < p.call < call + 0x1_0000_0000 ==> p.answers[j].correlation != NameOf(call)
  {
    hide NameOf;
    EveryRunCalls(c, es);
    var p := Run(c, es).value.hist.parsed[i];
    assert Sound(c, p);
    assert p.document != [];
    k :| 0 <= k < |p.answers| && p.document <= p.answers[k].body;
    if JsmnPrefix.ClosesAtEnd(p.answers[k].body) {
      JsmnPrefix.AcceptedPrefixIsWhole(p.document, p.answers[k].body, p.cap);
    }
    forall j, call: nat | 0 <= j < |p.answers| && call < p.call < call + 0x1_0000_0000 ensures p.answers[j].correlation != NameOf(call) {
      assert IsAnswerTo(c, p.answers[j], p.call);
      NamesDiffer(call, p.call);
    }
  }

  /** A message at hand that is an answer to call number `call`, if it is an answer at all, and is not let through. */
  ghost predicate Ignored(s: State, call: nat, buf: Text, answers: seq<Message>) {
    && !s.mqtt.stage.SignalCall? && s.call.buf == buf && (s.hist.answers == answers || s.hist.answers == [])
    && call < s.hist.calls
    && (s.mqtt.inbound.Some? && s.mqtt.rxResponse ==> s.mqtt.rxCorrelation == NameOf(call))
  }

  lemma IgnoredStep(c: Config, s: State, e: Event, call: nat, buf: Text, answers: seq<Message>)
    requires CallInv(c, s) && Safe(c, s) && Enabled(c, s, e) && !e.Begin? && Ignored(s, call, buf, answers)
    requires s.hist.calls < call + 0x1_0000_0000
    ensures !e.RaiseCall? && Ignored(Next(c, s, e), call, buf, answers)
  {
    hide NameOf, Started, Stored, PurposeOf, SlotOk, IsAnswer, AllAnswer, Sound, PrefixOfOne;
    NamesDiffer(call, s.hist.calls);
  }

  lemma {:induction false} IgnoredRun(c: Config, es: seq<Event>, more: seq<Event>, call: nat, buf: Text, answers: seq<Message>)
    requires Run(c, es).Some? && Run(c, es + more).Some? && Ignored(Run(c, es).value, call, buf, answers)
    requires (forall k :: 0 <= k < |more| ==> !more[k].Begin?) && Run(c, es + more).value.hist.calls < call + 0x1_0000_0000
    ensures Ignored(Run(c, es + more).value, call, buf, answers) && forall k :: 0 <= k < |more| ==> !more[k].RaiseCall?
    decreases |more|
  {
    hide CallInv, Ignored, Run, Safe, Enabled, Next;
    if more == [] {
      assert es + more == es;
    } else {
      var before, e := more[..|more| - 1], more[|more| - 1];
      assert es + more == es + before + [e];
      RunLast(c, es + before, e);
      var s := Run(c, es + before).value;
      CallsGrow(c, s, e);
      IgnoredRun(c, es, before, call, buf, answers);
      EveryRunCalls(c, es + before);
      IgnoredStep(c, s, e, call, buf, answers);
    }
  }

  lemma CallsGrow(c: Config, s: State, e: Event)
    requires Safe(c, s) && Enabled(c, s, e)
    ensures s.hist.calls <= Next(c, s, e).hist.calls
  {
    hide PurposeOf, Started, Stored, SlotOk;
  }

  lemma {:induction false} RunCallsGrow(c: Config, es: seq<Event>, more: seq<Event>)
    requires Run(c, es).Some? && Run(c, es + more).Some?
    ensures Run(c, es).value.hist.calls <= Run(c, es + more).value.hist.calls
    decreases |more|
  {
    hide Run, Safe, Enabled, Next;
    if more == [] {
      assert es + more == es;
    } else {
      var before, e := more[..|more| - 1], more[|more| - 1];
      assert es + more == es + before + [e];
      RunLast(c, es + before, e);
      RunCallsGrow(c, es, before);
      CallsGrow(c, Run(c, es + before).value, e);
    }
  }

  /**
   A late answer. A message named like an earlier one of the last 2^32 calls is ignored to its last fragment,
   whatever the request task does meanwhile: it leaves call_buf alone, never raises the call bit, and is not counted
   among the answers to the waiting call.
   */
  lemma LateAnswerIsIgnored(c: Config, es: seq<Event>, m: Message, n: nat, more: seq<Event>, call: nat)
    requires Run(c, es).Some? && Run(c, es + [Begin(m, n)] + more).Some?
    requires call < Run(c, es).value.hist.calls && m.correlation == NameOf(call)
    requires (forall k :: 0 <= k < |more| ==> !more[k].Begin?) && Run(c, es + [Begin(m, n)] + more).value.hist.calls < call + 0x1_0000_0000
    ensures var s, t := Run(c, es).value, Run(c, es + [Begin(m, n)] + more).value;
            && t.call.buf == s.call.buf && (t.hist.answers == s.hist.answers || t.hist.answers == [])
            && forall k :: 0 <= k < |more| ==> !more[k].RaiseCall?
  {
    hide CallInv, Safe, NameOf, Run;
    var s, begun := Run(c, es).value, es + [Begin(m, n)];
    RunPrefix(c, begun, more);
    RunLast(c, es, Begin(m, n));
    EveryRunCalls(c, es);
    RunCallsGrow(c, begun, more);
    CallsGrow(c, s, Begin(m, n));
    BeginIgnored(c, s, m, n, call);
    IgnoredRun(c, begun, more, call, s.call.buf, s.hist.answers);
  }

  lemma BeginIgnored(c: Config, s: State, m: Message, n: nat, call: nat)
    requires CallInv(c, s) && Safe(c, s) && Enabled(c, s, Begin(m, n)) && call < s.hist.calls < call + 0x1_0000_0000
    requires m.correlation == NameOf(call)
    ensures Ignored(Next(c, s, Begin(m, n)), call, s.call.buf, s.hist.answers)
  {
    hide NameOf, PurposeOf;
    NameReads(call % COUNTER_RANGE);
    NamesDiffer(call, s.hist.calls);
    assert KeptCorrelation(m.correlation) == NameOf(call) by {
      KeptName(call);
    }
    hide KeptCorrelation;
    assert s.hist.answers + [] == s.hist.answers;
  }

  lemma KeptName(call: nat)
    ensures KeptCorrelation(NameOf(call)) == NameOf(call)
  {
    NameReads(call % COUNTER_RANGE);
  }

  // ---- Delivery ----

  /** While the call waits, the first `upto` bytes of its answer m have been stored; the last one signals. */
  ghost predicate Delivering(s: State, m: Message, upto: nat, hist: History) {
    && Partway(s, m, upto, hist) && s.call.len == upto
    && s.mqtt.stage == if upto == |m.body| then SignalCall else Idle
  }

  ghost predicate Partway(s: State, m: Message, upto: nat, hist: History) {
    && s.req.stage.CallWait? && s.hist == hist && upto <= |m.body| < CALL_BUF_SIZE == |s.call.buf|
    && s.call.correlation != [] && !s.call.overflow && s.call.buf[..upto] == m.body[..upto]
    && s.mqtt.inbound == Some(m) && s.mqtt.rxResponse && s.mqtt.rxCorrelation == s.call.correlation && s.mqtt.upto == upto
  }

  /** A call waits for its answer m, of which nothing has come. */
  ghost predicate Awaiting(c: Config, s: State, m: Message) {
    && s.req.stage.CallWait? && s.mqtt.stage.Idle? && !s.call.overflow
    && IsAnswerTo(c, m, s.hist.calls) && |m.body| < 1024
  }

  lemma StoreDelivers(c: Config, s: State, m: Message, upto: nat, n: nat, hist: History)
    requires MqttOk(c, s) && s.mqtt.stage == Fragment(n) && upto + n <= |m.body| && (n > 0 || m.body == [])
    requires Partway(s, m, upto, hist)
    ensures Delivering(AfterStore(c, s), m, upto + n, hist)
  {
    hide SlotOk, PurposeOf;
    var data := m.body[upto..upto + n];
    assert FragmentData(s) == data;
    var call := Delivered(s.call, s.mqtt.rxCorrelation, data, upto);
    assert call.buf[..upto + n] == call.buf[..upto] + call.buf[upto..upto + n];
    assert m.body[..upto + n] == m.body[..upto] + data;
  }

  lemma FirstFragment(c: Config, es: seq<Event>, s: State, m: Message, n: nat) returns (es': seq<Event>, t: State)
    requires Run(c, es) == Some(s) && Awaiting(c, s, m) && n <= |m.body| && (n > 0 || m.body == [])
    ensures es' == es + [Begin(m, n), Store] && Run(c, es') == Some(t)
    ensures Delivering(t, m, n, s.hist.(answers := s.hist.answers + [m]))
  {
    hide Inv, Run, SlotOk, NameOf, PurposeOf, AllAnswer, Sound, PrefixOfOne;
    EveryRunCalls(c, es);
    KeptName(s.hist.calls);
    PurposeIff(c, m.topic, []);
    hide KeptCorrelation;
    var es1, s1 := RunStep(c, es, s, Begin(m, n));
    assert s1.hist == s.hist.(answers := s.hist.answers + [m]);
    assert [] <= m.body;
    EveryRun(c, es1);
    InvIsSafe(c, s1);
    StoreDelivers(c, s1, m, 0, n, s.hist.(answers := s.hist.answers + [m]));
    es', t := RunStep(c, es1, s1, Store);
    assert es + [Begin(m, n)] + [Store] == es + [Begin(m, n), Store];
  }

  lemma NextFragment(c: Config, es: seq<Event>, s: State, m: Message, upto: nat, n: nat, hist: History) returns (es': seq<Event>, t: State)
    requires Run(c, es) == Some(s) && Delivering(s, m, upto, hist) && n > 0 && upto + n <= |m.body|
    ensures es' == es + [More(n), Store] && Run(c, es') == Some(t)
    ensures Delivering(t, m, upto + n, hist)
  {
    hide Inv, Run, SlotOk, PurposeOf;
    var es1, s1 := RunStep(c, es, s, More(n));
    EveryRun(c, es1);
    InvIsSafe(c, s1);
    StoreDelivers(c, s1, m, upto, n, hist);
    es', t := RunStep(c, es1, s1, Store);
    assert es + [More(n)] + [Store] == es + [More(n), Store];
  }

  function BytesIn(parts: seq<nat>): nat {
    if parts == [] then 0 else BytesIn(parts[..|parts| - 1]) + parts[|parts| - 1]
  }

  /** A message in contiguous fragments of these sizes. */
  function Fragments(m: Message, parts: seq<nat>): seq<Event>
    requires parts != []
  {
    if |parts| == 1 then [Begin(m, parts[0]), Store]
    else Fragments(m, parts[..|parts| - 1]) + [More(parts[|parts| - 1]), Store]
  }

  ghost predicate IsSplit(m: Message, parts: seq<nat>) {
    parts != [] && BytesIn(parts) <= |m.body| && (m.body == [] ==> parts == [0]) && (m.body != [] ==> forall k :: 0 <= k < |parts| ==> parts[k] > 0)
  }

  lemma {:induction false} FragmentsDeliver(c: Config, es: seq<Event>, s: State, m: Message, parts: seq<nat>) returns (t: State)
    requires Run(c, es) == Some(s) && Awaiting(c, s, m) && IsSplit(m, parts)
    ensures Run(c, es + Fragments(m, parts)) == Some(t)
    ensures Delivering(t, m, BytesIn(parts), s.hist.(answers := s.hist.answers + [m]))
    decreases |parts|
  {
    hide Run, Awaiting, Delivering;
    if |parts| == 1 {
      assert parts[..0] == [];
      assert BytesIn(parts) == BytesIn([]) + parts[0];
      var es';
      es', t := FirstFragment(c, es, s, m, parts[0]);
    } else {
      var before, n := parts[..|parts| - 1], parts[|parts| - 1];
      var u := FragmentsDeliver(c, es, s, m, before);
      var es';
      es', t := NextFragment(c, es + Fragments(m, before), u, m, BytesIn(before), n, s.hist.(answers := s.hist.answers + [m]));
      assert es + Fragments(m, before) + [More(n), Store] == es + Fragments(m, parts);
    }
  }

  const ANSWERED: seq<Event> := [RaiseCall, Answered, EndCall]

  /**
   Delivery. In any state in which a call waits, an answer under its name that comes in whole, in whatever fragments,
   and that a reader with `cap` tokens accepts, ends the wait and is parsed.
   */
  lemma AnswerIsParsed(c: Config, es: seq<Event>, m: Message, parts: seq<nat>, cap: nat)
    requires Run(c, es).Some? && Awaiting(c, Run(c, es).value, m)
    requires IsSplit(m, parts) && BytesIn(parts) == |m.body| && JsmnPrefix.Accepted(m.body, cap)
    ensures var s, es' := Run(c, es).value, es + Fragments(m, parts) + ANSWERED + [ParseAnswer(cap)];
            && Run(c, es').Some?
            && Run(c, es').value.hist.parsed == s.hist.parsed + [Parsed(m.body, s.hist.answers + [m], cap, s.hist.calls)]
  {
    hide Run, Awaiting, SlotOk, PurposeOf;
    var s := Run(c, es).value;
    var s1 := FragmentsDeliver(c, es, s, m, parts);
    var es1 := es + Fragments(m, parts);
    var es2, s2 := RunStep(c, es1, s1, RaiseCall);
    var es3, s3 := RunStep(c, es2, s2, Answered);
    var es4, s4 := RunStep(c, es3, s3, EndCall);
    assert s4.call.buf[..s4.req.stage.len] == m.body;
    var es5, s5 := RunStep(c, es4, s4, ParseAnswer(cap));
    assert es5 == es1 + ANSWERED + [ParseAnswer(cap)];
  }

  /** A call that waits can be reached: the connection comes up and the call is started and published. */
  lemma WaitingCallRun(c: Config) returns (es: seq<Event>)
    ensures Run(c, es).Some? && forall body :: |body| < 1024 ==> Awaiting(c, Run(c, es).value, Message(c.down + RES, NameOf(1), [], body))
  {
    hide Run, SlotOk, PurposeOf, CallName;
    RunStart(c);
    var s: State;
    es, s := RunStep(c, [], Init(c), Raise(ConnectedBit));
    es, s := RunStep(c, es, s, Wake);
    es, s := RunStep(c, es, s, StartCall);
    es, s := RunStep(c, es, s, ClearCall);
    es, s := RunStep(c, es, s, Publish(true));
  }
}
