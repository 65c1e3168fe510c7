/**
 The two tasks of the request protocol as one interleaved machine. Each queue operation, each event-group
 operation and each critical section is one atomic event; the MQTT task (sc_mqtt::handle_data, the disconnect
 case of event_handler) and the request task (sc_client::run_task, sc_rpc::handle_ready, sc_rpc::call) take turns
 in any order.
 */
module RpcMachine {
  import opened Bytes
  import opened Options
  import JsmnSpec
  import JsonReader
  import RpcHandler
  import opened JsonText

  // ---- Messages and slots ----

  /** `slots` is the queue length, the two sizes are the configured ones, `up` and `down` are the topic prefixes d/<id>/up/ and d/<id>/down/. */
  datatype Config = Config(slots: nat, payloadMax: nat, resultMax: nat, up: Text, down: Text)

  /** An inbound message; one without properties has an empty correlation and an empty response topic. */
  datatype Message = Message(topic: Text, correlation: Text, responseTopic: Text, body: Text)

  datatype Purpose = Foreign | Request(name: Text) | Response

  const REQ: Text := [LOWER_R, LOWER_E, 113, SLASH]
  const RES: Text := [LOWER_R, LOWER_E, LOWER_S]
  const DOT: Byte := 46
  const METHOD_MAX := 47
  const CORRELATION_MAX := 64
  const TOPIC_MAX := 95
  const CALL_BUF_SIZE := 1024

  function PurposeOf(c: Config, topic: Text): Purpose {
    if |topic| <= |c.down| || topic[..|c.down|] != c.down then Foreign
    else
      var sub := topic[|c.down|..];
      if |sub| > 4 && sub[..4] == REQ then Request(sub[4..])
      else if sub == RES then Response
      else Foreign
  }

  /** Requests come on <down>req/<name> and answers on <down>res. */
  lemma PurposeIff(c: Config, topic: Text, name: Text)
    ensures PurposeOf(c, topic) == Request(name) <==> name != [] && topic == c.down + [114, 101, 113, 47] + name
    ensures PurposeOf(c, topic) == Response <==> topic == c.down + [114, 101, 115]
  {
    if c.down <= topic {
      var sub := topic[|c.down|..];
      assert topic == c.down + sub;
      if |sub| > 4 {
        assert sub == sub[..4] + sub[4..];
      }
    }
    if topic == c.down + [114, 101, 113, 47] + name {
      assert topic[|c.down|..] == [114, 101, 113, 47] + name;
    }
    if topic == c.down + [114, 101, 115] {
      assert topic[|c.down|..] == [114, 101, 115];
    }
  }

  /** sc_rpc_slot; `payload` is the whole buffer of payloadMax + 1 bytes. */
  datatype Slot = Slot(tooLarge: bool, name: Text, correlation: Text, responseTopic: Text, payload: Text, payloadLen: nat)

  /** What a slot says to the request task. */
  datatype RequestData = RequestData(name: Text, correlation: Text, responseTopic: Text, tooLarge: bool, payload: Text)

  function Dotted(b: Byte): Byte {
    if b == SLASH then DOT else b
  }

  function MethodName(name: Text): Text {
    seq(if |name| < METHOD_MAX then |name| else METHOD_MAX, i requires 0 <= i < |name| => Dotted(name[i]))
  }

  function KeptCorrelation(t: Text): Text {
    if |t| <= CORRELATION_MAX then t else []
  }

  function KeptTopic(t: Text): Text {
    if |t| <= TOPIC_MAX then t else []
  }

  /** What a slot keeps: at most 47 bytes of the name, with dots for slashes, and a correlation and a topic that fit. */
  lemma KeptIs(name: Text, t: Text)
    ensures |MethodName(name)| == if |name| < 47 then |name| else 47
    ensures forall i :: 0 <= i < |MethodName(name)| ==> MethodName(name)[i] == if name[i] == 47 then 46 else name[i]
    ensures KeptCorrelation(t) == if |t| <= 64 then t else []
    ensures KeptTopic(t) == if |t| <= 95 then t else []
  {
  }

  /** The request a whole message stands for, however it is cut into fragments. */
  function RequestOf(c: Config, m: Message): RequestData
    requires PurposeOf(c, m.topic).Request?
  {
    var tooLarge := |m.body| > c.payloadMax;
    RequestData(MethodName(PurposeOf(c, m.topic).name), KeptCorrelation(m.correlation), KeptTopic(m.responseTopic),
                tooLarge, if tooLarge then [] else m.body)
  }

  ghost predicate SlotOk(c: Config, slot: Slot) {
    |slot.payload| == c.payloadMax + 1 && slot.payloadLen <= c.payloadMax
  }

  function RequestIn(slot: Slot): RequestData {
    RequestData(slot.name, slot.correlation, slot.responseTopic, slot.tooLarge,
                if slot.payloadLen <= |slot.payload| then slot.payload[..slot.payloadLen] else slot.payload)
  }

  /** take_free_slot() and the rest of start_request(): the slot is reset, then filled from the first fragment. */
  function Started(c: Config, slot: Slot, m: Message): Slot
    requires PurposeOf(c, m.topic).Request?
  {
    var r := RequestOf(c, m);
    Slot(r.tooLarge, r.name, r.correlation, r.responseTopic, slot.payload, 0)
  }

  /** memcpy(buf + at, data, |data|). */
  function Overwrite(buf: Text, at: nat, data: Text): (r: Text)
    requires at + |data| <= |buf|
    ensures |r| == |buf| && r[at..at + |data|] == data && r[..at] == buf[..at]
  {
    buf[..at] + data + buf[at + |data|..]
  }

  /** One fragment of a request: stored if it fits; the last one also terminates the payload. */
  function Stored(c: Config, slot: Slot, at: nat, data: Text, total: nat): Slot
    requires SlotOk(c, slot)
  {
    var s := if !slot.tooLarge && at + |data| <= c.payloadMax
             then slot.(payload := Overwrite(slot.payload, at, data), payloadLen := at + |data|)
             else slot;
    if at + |data| >= total then s.(payload := s.payload[s.payloadLen := NUL]) else s
  }

  // ---- The state ----

  datatype EventBit = RequestBit | ConnectedBit | DisconnectedBit | ReportBit | CallBit

  const WAKING: set<EventBit> := {RequestBit, ConnectedBit, DisconnectedBit, ReportBit}

  /** What the MQTT task does next; Take and Fragment carry the size of the fragment at hand. */
  datatype MqttStage = Idle | Take(n: nat) | Fragment(n: nat) | Enqueue | SignalRequest | SignalCall

  /** `upto` bytes of `inbound` came with earlier fragments. */
  datatype MqttTask = MqttTask(stage: MqttStage, rxSlot: Option<nat>, rxResponse: bool, rxCorrelation: Text,
                               inbound: Option<Message>, upto: nat)

  datatype RequestStage =
    | Waiting
    | Connected
    | CallClear | CallPublish | CallWait | CallDisarm(ok: bool) | CallParse(overflow: bool, len: nat)
    | Draining
    | Handling(idx: nat) | Responding(idx: nat) | Returning(idx: nat)

  /** `bits` is what the wait of run_task returned. */
  datatype RequestTask = RequestTask(stage: RequestStage, bits: set<EventBit>)

  /** The call_* fields; an empty correlation means that no call is waiting. */
  datatype CallState = CallState(correlation: Text, buf: Text, len: nat, overflow: bool, counter: nat)

  datatype Arrival = Arrival(msg: Message, gotSlot: bool, complete: bool)

  datatype Reply = Reply(topic: Text, correlation: Text, body: Text)

  /** A document that call number `call` parsed, and the answers begun for that call so far. */
  datatype Parsed = Parsed(document: Text, answers: seq<Message>, cap: nat, call: nat)

  /** History, for the specification only; `calls` counts the calls that were started. */
  datatype History = History(arrivals: seq<Arrival>, handled: seq<RequestData>, replies: seq<Reply>,
                             answers: seq<Message>, parsed: seq<Parsed>, calls: nat)

  datatype State = State(free: seq<nat>, ready: seq<nat>, bits: set<EventBit>, slots: seq<Slot>,
                         mqtt: MqttTask, req: RequestTask, call: CallState, hist: History)

  function Init(c: Config): State {
    var buf := seq(c.payloadMax + 1, i => NUL);
    State(seq(c.slots, i => i), [], {}, seq(c.slots, i => Slot(false, [], [], [], buf, 0)),
          MqttTask(Idle, None, false, [], None, 0), RequestTask(Waiting, {}),
          CallState([], seq(CALL_BUF_SIZE, i => NUL), 0, false, 0), History([], [], [], [], [], 0))
  }

  // ---- Events ----

  datatype Event =
    // The MQTT task
    | Disconnect
    | Begin(msg: Message, n: nat)
    | More(n: nat)
    | TakeSlot | Store | Submit | RaiseRequest | RaiseCall
    // Other tasks
    | Raise(bit: EventBit)
    // The request task
    | Wake | StartCall | ClearCall | Publish(sent: bool) | Answered | TimedOut | EndCall | ParseAnswer(cap: nat)
    | StartDrain | Receive | Handle | Respond(body: Text) | GiveBack

  /** xQueueSend(queue, x, 0) on a queue of `n` entries; a send to a full queue fails and changes nothing. */
  function Send(q: seq<nat>, n: nat, x: nat): seq<nat> {
    if |q| < n then q + [x] else q
  }

  function CallName(k: nat): Text {
    [99] + Decimal(k) // "c%lu"
  }

  const COUNTER_RANGE := 0x1_0000_0000

  function NextCounter(s: State): nat {
    (s.call.counter + 1) % COUNTER_RANGE
  }

  predicate Published(stage: RequestStage) {
    stage.CallWait? || stage.CallDisarm?
  }

  /** A message for the call that is waiting now. */
  predicate Answers(c: Config, s: State, m: Message) {
    PurposeOf(c, m.topic).Response? && s.call.correlation != [] && KeptCorrelation(m.correlation) == s.call.correlation
  }

  /**
   Fragments are contiguous from 0 and only an empty message has an empty fragment. Correlations are fresh:
   an answer to a call begins only after that call was published, and a call's name differs from the
   correlation of the answer begun last.
   */
  ghost predicate Enabled(c: Config, s: State, e: Event) {
    match e
    case Disconnect => s.mqtt.stage.Idle?
    case Begin(m, n) => s.mqtt.stage.Idle? && n <= |m.body| && (n > 0 || m.body == [])
                        && (Answers(c, s, m) ==> Published(s.req.stage))
    case More(n) => s.mqtt.stage.Idle? && s.mqtt.inbound.Some? && n > 0 && s.mqtt.upto + n <= |s.mqtt.inbound.value.body|
    case TakeSlot => s.mqtt.stage.Take?
    case Store => s.mqtt.stage.Fragment?
    case Submit => s.mqtt.stage.Enqueue?
    case RaiseRequest => s.mqtt.stage.SignalRequest?
    case RaiseCall => s.mqtt.stage.SignalCall?
    case Raise(b) => b in {ConnectedBit, DisconnectedBit, ReportBit}
    case Wake => s.req.stage.Waiting?
    case StartCall => s.req.stage.Connected? && !(s.mqtt.rxResponse && s.mqtt.rxCorrelation == CallName(NextCounter(s)))
    case ClearCall => s.req.stage.CallClear?
    case Publish(_) => s.req.stage.CallPublish?
    case Answered => s.req.stage.CallWait? && CallBit in s.bits
    case TimedOut => s.req.stage.CallWait? && CallBit !in s.bits
    case EndCall => s.req.stage.CallDisarm?
    case ParseAnswer(_) => s.req.stage.CallParse?
    case StartDrain => s.req.stage.Connected?
    case Receive => s.req.stage.Draining?
    case Handle => s.req.stage.Handling?
    case Respond(body) => s.req.stage.Responding? && s.req.stage.idx < |s.slots| && IsAnswer(c, RequestIn(s.slots[s.req.stage.idx]), body)
    case GiveBack => s.req.stage.Returning?
  }

  // ---- The MQTT task ----

  /** give_back(rx_slot) if there is one. */
  function FreeAfterGiveBack(c: Config, s: State): seq<nat> {
    if s.mqtt.rxSlot.Some? then Send(s.free, c.slots, s.mqtt.rxSlot.value) else s.free
  }

  function AfterDisconnect(c: Config, s: State): State {
    s.(free := FreeAfterGiveBack(c, s), mqtt := s.mqtt.(rxSlot := None, inbound := None))
  }

  function AfterBegin(c: Config, s: State, m: Message, n: nat): State {
    var purpose := PurposeOf(c, m.topic);
    var stage := match purpose
      case Foreign => Idle
      case Request(_) => Take(n)
      case Response => Fragment(n);
    s.(free := FreeAfterGiveBack(c, s),
       mqtt := MqttTask(stage, None, purpose.Response?,
                        if purpose.Response? then KeptCorrelation(m.correlation) else s.mqtt.rxCorrelation,
                        Some(m), if purpose.Foreign? then n else 0),
       hist := s.hist.(arrivals := s.hist.arrivals + if purpose.Request? then [Arrival(m, false, false)] else [],
                       answers := s.hist.answers + if Answers(c, s, m) then [m] else []))
  }

  /** The newest arrival after a change. */
  function Newest(arrivals: seq<Arrival>, gotSlot: bool, complete: bool): seq<Arrival> {
    if arrivals == [] then []
    else
      var last := arrivals[|arrivals| - 1];
      arrivals[|arrivals| - 1 := Arrival(last.msg, last.gotSlot || gotSlot, last.complete || complete)]
  }

  function AfterTake(c: Config, s: State): State
    requires s.mqtt.stage.Take? && MqttOk(c, s)
  {
    if s.free == [] then s.(mqtt := s.mqtt.(stage := Fragment(s.mqtt.stage.n)))
    else
      var i := s.free[0];
      s.(free := s.free[1..],
         slots := s.slots[i := Started(c, s.slots[i], s.mqtt.inbound.value)],
         mqtt := s.mqtt.(stage := Fragment(s.mqtt.stage.n), rxSlot := Some(i)),
         hist := s.hist.(arrivals := Newest(s.hist.arrivals, true, false)))
  }

  /** deliver_response(), the critical section. */
  function Delivered(call: CallState, correlation: Text, data: Text, at: nat): CallState
    requires |call.buf| == CALL_BUF_SIZE
  {
    if call.correlation == [] || correlation != call.correlation then call
    else if at + |data| < CALL_BUF_SIZE then call.(buf := Overwrite(call.buf, at, data), len := at + |data|)
    else call.(overflow := true)
  }

  function FragmentData(s: State): Text
    requires s.mqtt.stage.Fragment? && s.mqtt.inbound.Some? && s.mqtt.upto + s.mqtt.stage.n <= |s.mqtt.inbound.value.body|
  {
    s.mqtt.inbound.value.body[s.mqtt.upto..s.mqtt.upto + s.mqtt.stage.n]
  }

  function AfterStore(c: Config, s: State): State
    requires s.mqtt.stage.Fragment? && MqttOk(c, s)
  {
    var data, at, total := FragmentData(s), s.mqtt.upto, |s.mqtt.inbound.value.body|;
    var last := at + |data| >= total;
    var mqtt := s.mqtt.(upto := at + |data|);
    if s.mqtt.rxResponse then
      var ours := s.call.correlation != [] && s.mqtt.rxCorrelation == s.call.correlation;
      s.(call := Delivered(s.call, s.mqtt.rxCorrelation, data, at),
         mqtt := mqtt.(stage := if ours && last then SignalCall else Idle))
    else
      var hist := if last && PurposeOf(c, s.mqtt.inbound.value.topic).Request? then s.hist.(arrivals := Newest(s.hist.arrivals, false, true)) else s.hist;
      if s.mqtt.rxSlot.None? then s.(mqtt := mqtt.(stage := Idle), hist := hist)
      else
        var i := s.mqtt.rxSlot.value;
        s.(slots := s.slots[i := Stored(c, s.slots[i], at, data, total)],
           mqtt := mqtt.(stage := if last then Enqueue else Idle), hist := hist)
  }

  function AfterSubmit(c: Config, s: State): State
    requires s.mqtt.rxSlot.Some?
  {
    s.(ready := Send(s.ready, c.slots, s.mqtt.rxSlot.value), mqtt := s.mqtt.(stage := SignalRequest))
  }

  function AfterRaiseRequest(s: State): State {
    s.(bits := s.bits + {RequestBit}, mqtt := s.mqtt.(stage := Idle, rxSlot := None))
  }

  /** What every access of the MQTT task needs. */
  ghost predicate MqttOk(c: Config, s: State) {
    && |s.slots| == c.slots
    && (forall i :: 0 <= i < |s.slots| ==> SlotOk(c, s.slots[i]))
    && (forall k :: 0 <= k < |s.free| ==> s.free[k] < c.slots)
    && (s.mqtt.rxSlot.Some? && !s.mqtt.stage.SignalRequest? ==> s.mqtt.rxSlot.value < c.slots)
    && |s.call.buf| == CALL_BUF_SIZE
    && var m := s.mqtt;
       && (m.stage.Take? ==> m.inbound.Some? && PurposeOf(c, m.inbound.value.topic).Request? && m.rxSlot.None?
                             && m.upto + m.stage.n <= |m.inbound.value.body|)
       && (m.stage.Fragment? ==> m.inbound.Some? && m.upto + m.stage.n <= |m.inbound.value.body|)
       && (m.stage.Enqueue? || m.stage.SignalRequest? ==> m.rxSlot.Some?)
  }

  // ---- The request task ----

  function AfterWake(s: State): State {
    s.(bits := s.bits - WAKING,
       req := RequestTask(if ConnectedBit in s.bits then Connected else Draining, s.bits))
  }

  function AfterStartCall(s: State): State {
    var k := NextCounter(s);
    s.(req := s.req.(stage := CallClear),
       call := s.call.(correlation := CallName(k), len := 0, overflow := false, counter := k),
       hist := s.hist.(answers := [], calls := s.hist.calls + 1))
  }

  function AfterEndCall(s: State): State
    requires s.req.stage.CallDisarm?
  {
    s.(req := s.req.(stage := if s.req.stage.ok then CallParse(s.call.overflow, s.call.len) else Connected),
       call := s.call.(correlation := []))
  }

  function AfterParse(s: State, cap: nat): State
    requires s.req.stage.CallParse? && s.req.stage.len <= |s.call.buf|
  {
    var document := s.call.buf[..s.req.stage.len];
    var ok := !s.req.stage.overflow && JsonReader.ParseOutcome(JsmnSpec.Tokenize(document, cap)).Ok?;
    s.(req := s.req.(stage := Connected),
       hist := s.hist.(parsed := s.hist.parsed + if ok then [Parsed(document, s.hist.answers, cap, s.hist.calls)] else []))
  }

  function AfterReceive(s: State): State {
    if s.ready == [] then s.(req := s.req.(stage := Waiting))
    else s.(ready := s.ready[1..], req := s.req.(stage := Handling(s.ready[0])))
  }

  /** respond(): the Response Topic, or up/res when there is none or it is foreign. */
  function Address(c: Config, topic: Text): Text {
    if topic != [] && c.up <= topic then topic else c.up + RES
  }

  /** The request as handle() reads it from its slot. */
  function HandlerRequest(r: RequestData): RpcHandler.Request {
    RpcHandler.Request(r.tooLarge, CString(r.name), r.payload)
  }

  /** A body that handle() may publish for this request, whatever the methods and their handlers. */
  ghost predicate IsAnswer(c: Config, r: RequestData, body: Text) {
    exists known: bool, o: RpcHandler.Outcome ::
      RpcHandler.IsBody(c.payloadMax, c.resultMax, HandlerRequest(r), known, o, body)
  }

  ghost predicate ReqOk(s: State) {
    && (forall k :: 0 <= k < |s.ready| ==> s.ready[k] < |s.slots|)
    && (s.req.stage.Handling? || s.req.stage.Responding? || s.req.stage.Returning? ==> s.req.stage.idx < |s.slots|)
    && s.call.len <= |s.call.buf|
    && (s.req.stage.CallParse? ==> s.req.stage.len <= |s.call.buf|)
  }

  // ---- Runs ----

  ghost predicate Safe(c: Config, s: State) {
    MqttOk(c, s) && ReqOk(s)
  }

  ghost function Next(c: Config, s: State, e: Event): State
    requires Safe(c, s) && Enabled(c, s, e)
  {
    match e
    case Disconnect => AfterDisconnect(c, s)
    case Begin(m, n) => AfterBegin(c, s, m, n)
    case More(n) => s.(mqtt := s.mqtt.(stage := Fragment(n)))
    case TakeSlot => AfterTake(c, s)
    case Store => AfterStore(c, s)
    case Submit => AfterSubmit(c, s)
    case RaiseRequest => AfterRaiseRequest(s)
    case RaiseCall => s.(bits := s.bits + {CallBit}, mqtt := s.mqtt.(stage := Idle))
    case Raise(b) => s.(bits := s.bits + {b})
    case Wake => AfterWake(s)
    case StartCall => AfterStartCall(s)
    case ClearCall => s.(bits := s.bits - {CallBit}, req := s.req.(stage := CallPublish))
    case Publish(sent) => s.(req := s.req.(stage := if sent then CallWait else CallDisarm(false)))
    case Answered => s.(bits := s.bits - {CallBit}, req := s.req.(stage := CallDisarm(true)))
    case TimedOut => s.(req := s.req.(stage := CallDisarm(false)))
    case EndCall => AfterEndCall(s)
    case ParseAnswer(cap) => AfterParse(s, cap)
    case StartDrain => s.(req := s.req.(stage := Draining))
    case Receive => AfterReceive(s)
    case Handle => s.(req := s.req.(stage := Responding(s.req.stage.idx)),
                      hist := s.hist.(handled := s.hist.handled + [RequestIn(s.slots[s.req.stage.idx])]))
    case Respond(body) => var slot := s.slots[s.req.stage.idx];
                          var reply := Reply(Address(c, slot.responseTopic), slot.correlation, body);
                          s.(req := s.req.(stage := Returning(s.req.stage.idx)),
                             hist := s.hist.(replies := s.hist.replies + [reply]))
    case GiveBack => s.(free := Send(s.free, c.slots, s.req.stage.idx), req := s.req.(stage := Draining))
  }

  /** The state after a run; None when an event was not enabled, or was not safe to take. */
  ghost function Run(c: Config, es: seq<Event>): Option<State>
    decreases |es|
  {
    if es == [] then Some(Init(c))
    else
      var s := Run(c, es[..|es| - 1]);
      if s.Some? then Then(c, s.value, es[|es| - 1]) else None
  }

  ghost function Then(c: Config, s: State, e: Event): Option<State> {
    if Safe(c, s) && Enabled(c, s, e) then Some(Next(c, s, e)) else None
  }

  /** The state some events later. */
  ghost function RunFrom(c: Config, s: State, es: seq<Event>): Option<State>
    decreases es
  {
    if es == [] then Some(s)
    else
      var t := Then(c, s, es[0]);
      if t.Some? then RunFrom(c, t.value, es[1..]) else None
  }

  lemma {:induction false} RunFromAppend(c: Config, s: State, a: seq<Event>, b: seq<Event>)
    requires RunFrom(c, s, a).Some?
    ensures RunFrom(c, s, a + b) == RunFrom(c, RunFrom(c, s, a).value, b)
    decreases a
  {
    hide Safe, Enabled, Next;
    if a == [] {
      assert a + b == b;
    } else {
      assert (a + b)[0] == a[0] && (a + b)[1..] == a[1..] + b;
      RunFromAppend(c, Next(c, s, a[0]), a[1..], b);
    }
  }
}
