/** A device at rest serves a request, in whatever fragments it comes. */
module RpcService {
  import opened Bytes
  import opened Options
  import opened RpcMachine
  import opened RpcOwnership
  import opened RpcRequests
  import opened RpcCalls

  /** Nothing is under way, and a slot is free. */
  ghost predicate AtRest(s: State) {
    s.mqtt.stage.Idle? && s.req.stage.Waiting? && s.ready == [] && s.free != []
  }

  function ArrivalOf(m: Message, complete: bool): Arrival {
    Arrival(m, true, complete)
  }

  /** The first `upto` bytes of the request m are in a slot; the last one is about to be enqueued. */
  ghost predicate Incoming(s: State, m: Message, upto: nat, was: State) {
    && s.req == was.req && s.ready == was.ready && s.bits == was.bits && upto <= |m.body|
    && s.mqtt.inbound == Some(m) && s.mqtt.upto == upto && !s.mqtt.rxResponse && s.mqtt.rxSlot.Some?
    && s.hist == was.hist.(arrivals := was.hist.arrivals + [ArrivalOf(m, upto == |m.body|)])
    && s.mqtt.stage == if upto == |m.body| then Enqueue else Idle
  }

  lemma StoreComes(c: Config, s: State, m: Message, upto: nat, n: nat, was: State)
    requires MqttOk(c, s) && s.mqtt.stage == Fragment(n) && upto + n <= |m.body| && (n > 0 || m.body == [])
    requires PurposeOf(c, m.topic).Request? && s.mqtt.inbound == Some(m) && s.mqtt.upto == upto && !s.mqtt.rxResponse && s.mqtt.rxSlot.Some?
    requires s.req == was.req && s.ready == was.ready && s.bits == was.bits
    requires s.hist == was.hist.(arrivals := was.hist.arrivals + [ArrivalOf(m, false)])
    ensures Incoming(AfterStore(c, s), m, upto + n, was)
  {
    hide SlotOk, PurposeOf, Stored;
    var a := was.hist.arrivals;
    assert (a + [ArrivalOf(m, false)])[|a| := ArrivalOf(m, true)] == a + [ArrivalOf(m, true)];
  }

  lemma FirstPart(c: Config, es: seq<Event>, s: State, m: Message, n: nat) returns (es': seq<Event>, t: State)
    requires Run(c, es) == Some(s) && AtRest(s) && PurposeOf(c, m.topic).Request? && n <= |m.body| && (n > 0 || m.body == [])
    ensures es' == es + [Begin(m, n), TakeSlot, Store] && Run(c, es') == Some(t) && Incoming(t, m, n, s)
  {
    hide Inv, Run, SlotOk, PurposeOf, Started, KeptCorrelation;
    var es1, s1 := RunStep(c, es, s, Begin(m, n));
    var es2, s2 := RunStep(c, es1, s1, TakeSlot);
    var a := s.hist.arrivals;
    assert (a + [Arrival(m, false, false)])[|a| := ArrivalOf(m, false)] == a + [ArrivalOf(m, false)];
    EveryRun(c, es2);
    InvIsSafe(c, s2);
    StoreComes(c, s2, m, 0, n, s);
    es', t := RunStep(c, es2, s2, Store);
    assert es + [Begin(m, n)] + [TakeSlot] + [Store] == es + [Begin(m, n), TakeSlot, Store];
  }

  lemma NextPart(c: Config, es: seq<Event>, s: State, m: Message, upto: nat, n: nat, was: State) returns (es': seq<Event>, t: State)
    requires Run(c, es) == Some(s) && Incoming(s, m, upto, was) && PurposeOf(c, m.topic).Request? && n > 0 && upto + n <= |m.body|
    ensures es' == es + [More(n), Store] && Run(c, es') == Some(t) && Incoming(t, m, upto + n, was)
  {
    hide Inv, Run, SlotOk, PurposeOf;
    var es1, s1 := RunStep(c, es, s, More(n));
    EveryRun(c, es1);
    InvIsSafe(c, s1);
    StoreComes(c, s1, m, upto, n, was);
    es', t := RunStep(c, es1, s1, Store);
    assert es + [More(n)] + [Store] == es + [More(n), Store];
  }

  /** A request in contiguous fragments of these sizes. */
  function Parts(m: Message, parts: seq<nat>): seq<Event>
    requires parts != []
  {
    if |parts| == 1 then [Begin(m, parts[0]), TakeSlot, Store]
    else Parts(m, parts[..|parts| - 1]) + [More(parts[|parts| - 1]), Store]
  }

  lemma {:induction false} PartsCome(c: Config, es: seq<Event>, s: State, m: Message, parts: seq<nat>) returns (t: State)
    requires Run(c, es) == Some(s) && AtRest(s) && PurposeOf(c, m.topic).Request? && IsSplit(m, parts)
    ensures Run(c, es + Parts(m, parts)) == Some(t) && Incoming(t, m, BytesIn(parts), s)
    decreases |parts|
  {
    hide Run, AtRest, Incoming, PurposeOf;
    if |parts| == 1 {
      assert parts[..0] == [];
      assert BytesIn(parts) == BytesIn([]) + parts[0];
      var es';
      es', t := FirstPart(c, es, s, m, parts[0]);
    } else {
      var before, n := parts[..|parts| - 1], parts[|parts| - 1];
      var u := PartsCome(c, es, s, m, before);
      var es';
      es', t := NextPart(c, es + Parts(m, before), u, m, BytesIn(before), n, s);
      assert es + Parts(m, before) + [More(n), Store] == es + Parts(m, parts);
    }
  }

  /** Submitted and signalled, it is taken by the request task, which may have to connect first. */
  function Taken(connected: bool): seq<Event> {
    [Submit, RaiseRequest, Wake] + (if connected then [StartDrain] else []) + [Receive, Handle]
  }

  /** Up to the drain. */
  lemma DrainRun(c: Config, es: seq<Event>, s: State, m: Message, was: State) returns (es': seq<Event>, t: State)
    requires Run(c, es) == Some(s) && Incoming(s, m, |m.body|, was) && AtRest(was)
    ensures es' == es + [Submit, RaiseRequest, Wake] + (if ConnectedBit in was.bits then [StartDrain] else []) && Run(c, es') == Some(t)
    ensures t.req.stage.Draining? && t.mqtt.stage.Idle? && t.hist == s.hist && |t.ready| == 1
  {
    hide Inv, Run, SlotOk, PurposeOf, RequestIn, Stored, Started, AfterBegin, AfterStore, AfterTake;
    QueueHasRoom(c, es, s);
    var es1, s1 := RunStep(c, es, s, Submit);
    var es2, s2 := RunStep(c, es1, s1, RaiseRequest);
    var es3, s3 := RunStep(c, es2, s2, Wake);
    assert es3 == es + [Submit, RaiseRequest, Wake];
    es', t := es3, s3;
    if ConnectedBit in was.bits {
      es', t := RunStep(c, es3, s3, StartDrain);
    }
  }

  lemma HandledRun(c: Config, es: seq<Event>, s: State, m: Message, was: State) returns (t: State)
    requires Run(c, es) == Some(s) && Incoming(s, m, |m.body|, was) && AtRest(was)
    ensures Run(c, es + Taken(ConnectedBit in was.bits)) == Some(t) && t.req.stage.Responding? && t.hist.arrivals == s.hist.arrivals
    ensures t.ready == [] && t.mqtt.stage.Idle? && t.hist.replies == s.hist.replies
    ensures t.hist.handled != [] && t.hist.handled[..|t.hist.handled| - 1] == s.hist.handled
  {
    hide Inv, Run, SlotOk, PurposeOf, RequestIn, Incoming, AtRest, AfterBegin, AfterStore, AfterTake;
    var es1, s1 := DrainRun(c, es, s, m, was);
    var es2, s2 := RunStep(c, es1, s1, Receive);
    var es3, s3 := RunStep(c, es2, s2, Handle);
    t := s3;
    assert es3 == es + Taken(ConnectedBit in was.bits);
  }

  lemma QueueHasRoom(c: Config, es: seq<Event>, s: State)
    requires Run(c, es) == Some(s) && s.mqtt.stage.Enqueue?
    ensures c.slots > 0
  {
    hide Run;
    EveryRun(c, es);
    InvIsSafe(c, s);
  }

  lemma LastReceived(arrivals: seq<Arrival>, m: Message)
    ensures Received(arrivals + [ArrivalOf(m, true)]) == Received(arrivals) + [m]
  {
    assert (arrivals + [ArrivalOf(m, true)])[..|arrivals|] == arrivals;
  }

  /** When nothing else is under way, what is handled last is the request of the message received last. */
  lemma LastHandled(c: Config, es: seq<Event>, s: State, a: seq<Arrival>, m: Message, name: Text) returns (r: RequestData)
    requires Run(c, es) == Some(s) && s.req.stage.Responding? && s.ready == [] && s.mqtt.stage.Idle?
    requires s.hist.arrivals == a + [ArrivalOf(m, true)] && m.topic == c.down + [114, 101, 113, 47] + name
    ensures s.hist.handled != [] && r == s.hist.handled[|s.hist.handled| - 1] && Makes(c, m, name, r)
    ensures s.req.stage.idx < |s.slots| && RequestIn(s.slots[s.req.stage.idx]) == r
  {
    hide Run, RequestIn, Addressed, AnsweredBy, Fifo, Receiving, IsAnswer, Received;
    ExactlyOnceInOrder(c, es);
    EveryRunKeeps(c, es);
    LastReceived(a, m);
    assert Pipeline(s) == [];
    var h := s.hist.handled;
    r := h[|h| - 1];
    assert Serves(c, m, r);
    var name' :| Makes(c, m, name', r);
    assert m.topic[|c.down| + 4..] == name' && m.topic[|c.down| + 4..] == name;
  }

  lemma LastReplied(c: Config, es: seq<Event>, s: State, a: seq<Arrival>, m: Message)
    requires Run(c, es) == Some(s) && s.req.stage.Returning? && s.ready == [] && s.mqtt.stage.Idle?
    requires s.hist.arrivals == a + [ArrivalOf(m, true)]
    ensures s.hist.replies != [] && Addressed(c, m, s.hist.replies[|s.hist.replies| - 1])
  {
    hide Run, RequestIn, Addressed, AnsweredBy, IsAnswer, Received, Serves;
    ExactlyOnceInOrder(c, es);
    LastReceived(a, m);
    assert Pipeline(s) == [];
  }

  /**
   A device at rest with a free slot serves a request that comes in whole, in whatever fragments: the request its
   message makes reaches its handler, and any body the handler makes goes out to the message's own address.
   */
  lemma RequestIsServed(c: Config, es: seq<Event>, m: Message, parts: seq<nat>, name: Text, body: Text) returns (r: RequestData, reply: Reply, t: State)
    requires Run(c, es).Some? && AtRest(Run(c, es).value) && name != [] && m.topic == c.down + [114, 101, 113, 47] + name
    requires IsSplit(m, parts) && BytesIn(parts) == |m.body|
    requires forall q :: Makes(c, m, name, q) ==> IsAnswer(c, q, body)
    ensures Makes(c, m, name, r) && Addressed(c, m, reply) && reply.body == body
    ensures var s, es' := Run(c, es).value, es + Parts(m, parts) + Taken(ConnectedBit in Run(c, es).value.bits) + [Respond(body), GiveBack];
            && Run(c, es') == Some(t)
            && t.hist.handled == s.hist.handled + [r] && t.hist.replies == s.hist.replies + [reply]
            && t.free != [] && t.ready == [] && t.mqtt.stage.Idle? && t.req.stage.Draining?
  {
    hide Run, SlotOk, PurposeOf, IsAnswer, Makes, Addressed, RequestIn, Address, Safe, Received, Parts, Taken, Started, Stored, Inv;
    PurposeIff(c, m.topic, name);
    var s := Run(c, es).value;
    var s1 := PartsCome(c, es, s, m, parts);
    var es1 := es + Parts(m, parts);
    var s2 := HandledRun(c, es1, s1, m, s);
    var es2 := es1 + Taken(ConnectedBit in s.bits);
    r := LastHandled(c, es2, s2, s.hist.arrivals, m, name);
    assert s2.hist.handled == s.hist.handled + [r];
    reply, t := RespondRun(c, es2, s2, body, s.hist.arrivals, m);
  }

  lemma RespondRun(c: Config, es: seq<Event>, s: State, body: Text, a: seq<Arrival>, m: Message) returns (reply: Reply, t: State)
    requires Run(c, es) == Some(s) && Enabled(c, s, Respond(body)) && s.ready == [] && s.mqtt.stage.Idle?
    requires s.hist.arrivals == a + [ArrivalOf(m, true)]
    ensures Run(c, es + [Respond(body), GiveBack]) == Some(t) && Addressed(c, m, reply) && reply.body == body
    ensures t.hist.handled == s.hist.handled && t.hist.replies == s.hist.replies + [reply]
    ensures t.free != [] && t.ready == [] && t.mqtt.stage.Idle? && t.req.stage.Draining?
  {
    hide Run, SlotOk, PurposeOf, IsAnswer, Addressed, RequestIn, Address, Safe, Inv, AfterBegin, AfterStore, AfterTake;
    var es1, s1 := RunStep(c, es, s, Respond(body));
    reply := s1.hist.replies[|s1.hist.replies| - 1];
    LastReplied(c, es1, s1, a, m);
    var es2, s2 := RunStep(c, es1, s1, GiveBack);
    t := s2;
    SlotReturns(c, es1, s1);
    assert es2 == es + [Respond(body), GiveBack];
  }

  lemma SlotReturns(c: Config, es: seq<Event>, s: State)
    requires Run(c, es) == Some(s) && s.req.stage.Returning?
    ensures Send(s.free, c.slots, s.req.stage.idx) != []
  {
    hide Run;
    EveryRun(c, es);
    Room(c, s);
  }
}
