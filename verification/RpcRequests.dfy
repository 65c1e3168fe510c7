/** Requests are handled exactly once and in order, whole, whatever the fragmentation and the interleaving. */
module RpcRequests {
  import opened Bytes
  import opened Options
  import opened RpcMachine
  import opened RpcOwnership

  /** The requests that were received to the end and had a slot, as their whole messages read. */
  function Accepted(c: Config, arrivals: seq<Arrival>): seq<RequestData> {
    if arrivals == [] then []
    else
      var last := arrivals[|arrivals| - 1];
      Accepted(c, arrivals[..|arrivals| - 1])
      + if last.gotSlot && last.complete && PurposeOf(c, last.msg.topic).Request? then [RequestOf(c, last.msg)] else []
  }

  /** The slots of requests on their way to the handlers, in order. */
  function Pipeline(s: State): seq<nat> {
    (if s.req.stage.Handling? then [s.req.stage.idx] else [])
    + s.ready
    + (if s.mqtt.stage.Enqueue? && s.mqtt.rxSlot.Some? then [s.mqtt.rxSlot.value] else [])
  }

  function Contents(slots: seq<Slot>, idxs: seq<nat>): (r: seq<RequestData>)
    requires forall k :: 0 <= k < |idxs| ==> idxs[k] < |slots|
  {
    seq(|idxs|, k requires 0 <= k < |idxs| => RequestIn(slots[idxs[k]]))
  }

  ghost predicate InRange(s: State, idxs: seq<nat>) {
    forall k :: 0 <= k < |idxs| ==> idxs[k] < |s.slots|
  }

  predicate Terminated(slot: Slot) {
    slot.payloadLen < |slot.payload| && slot.payload[slot.payloadLen] == NUL
  }

  ghost predicate AllTerminated(slots: seq<Slot>, idxs: seq<nat>)
    requires forall k :: 0 <= k < |idxs| ==> idxs[k] < |slots|
  {
    forall k :: 0 <= k < |idxs| ==> Terminated(slots[idxs[k]])
  }

  /** Handled, then waiting: the accepted requests in order. Each one that waits has its payload terminated. */
  ghost predicate Fifo(c: Config, s: State) {
    && InRange(s, Pipeline(s))
    && AllTerminated(s.slots, Pipeline(s))
    && s.hist.handled + Contents(s.slots, Pipeline(s)) == Accepted(c, s.hist.arrivals)
  }

  /** The answer to a request: on its own topic, with its own correlation, and a body its handler can have made. */
  ghost predicate IsReplyTo(c: Config, r: RequestData, reply: Reply) {
    reply.topic == Address(c, r.responseTopic) && reply.correlation == r.correlation && IsAnswer(c, r, reply.body)
  }

  ghost predicate AnsweredBy(c: Config, rs: seq<RequestData>, replies: seq<Reply>) {
    |rs| == |replies| && forall k :: 0 <= k < |rs| ==> IsReplyTo(c, rs[k], replies[k])
  }

  /** Every handled request but the one at hand is answered, with its own address. */
  ghost predicate Replied(c: Config, s: State) {
    var h := s.hist.handled;
    if s.req.stage.Responding? then
      h != [] && s.req.stage.idx < |s.slots| && RequestIn(s.slots[s.req.stage.idx]) == h[|h| - 1]
      && AnsweredBy(c, h[..|h| - 1], s.hist.replies)
    else
      AnsweredBy(c, h, s.hist.replies)
  }

  /** A slot that holds the first `upto` bytes of a request, or nothing of one that is too large. */
  ghost predicate Partial(c: Config, slot: Slot, m: Message, upto: nat)
    requires PurposeOf(c, m.topic).Request?
  {
    var r := RequestOf(c, m);
    && slot.name == r.name && slot.correlation == r.correlation && slot.responseTopic == r.responseTopic
    && slot.tooLarge == r.tooLarge
    && upto <= |m.body|
    && slot.payloadLen == (if r.tooLarge then 0 else upto)
    && slot.payloadLen <= |slot.payload|
    && slot.payload[..slot.payloadLen] == m.body[..slot.payloadLen]
  }

  ghost predicate IsRequest(c: Config, m: Option<Message>) {
    m.Some? && PurposeOf(c, m.value.topic).Request?
  }

  /** What the MQTT task is in the middle of. */
  ghost predicate Receiving(c: Config, s: State) {
    var m, a := s.mqtt, s.hist.arrivals;
    && (m.inbound.Some? ==> m.rxResponse == PurposeOf(c, m.inbound.value.topic).Response?)
    && (m.stage.SignalCall? ==> m.rxResponse)
    && (m.rxSlot.Some? || m.stage.Take? || m.stage.Enqueue? || m.stage.SignalRequest? ==> IsRequest(c, m.inbound))
    && (m.stage.Enqueue? || m.stage.SignalRequest? ==> m.upto == |m.inbound.value.body|)
    && (IsRequest(c, m.inbound) ==>
          && a != [] && a[|a| - 1].msg == m.inbound.value
          && (m.stage.Take? ==> m.upto == 0 && !a[|a| - 1].gotSlot && !a[|a| - 1].complete)
          && ((m.stage.Idle? || m.stage.Fragment?) && m.rxSlot.Some? ==>
                && a[|a| - 1].gotSlot && !a[|a| - 1].complete
                && m.rxSlot.value < |s.slots| && Partial(c, s.slots[m.rxSlot.value], m.inbound.value, m.upto))
          && ((m.stage.Fragment? || (m.stage.Idle? && m.upto < |m.inbound.value.body|)) && m.rxSlot.None? ==> !a[|a| - 1].gotSlot))
  }

  ghost predicate ReqInv(c: Config, s: State) {
    Fifo(c, s) && Replied(c, s) && Receiving(c, s)
  }

  // ---- Steps of the MQTT task ----

  lemma ContentsFrame(slots: seq<Slot>, i: nat, slot: Slot, idxs: seq<nat>)
    requires i < |slots| && i !in idxs && forall k :: 0 <= k < |idxs| ==> idxs[k] < |slots|
    ensures Contents(slots[i := slot], idxs) == Contents(slots, idxs)
    ensures AllTerminated(slots[i := slot], idxs) == AllTerminated(slots, idxs)
  {
  }

  lemma ContentsAppend(slots: seq<Slot>, a: seq<nat>, b: seq<nat>)
    requires forall k :: 0 <= k < |a| ==> a[k] < |slots|
    requires forall k :: 0 <= k < |b| ==> b[k] < |slots|
    ensures Contents(slots, a + b) == Contents(slots, a) + Contents(slots, b)
    ensures AllTerminated(slots, a + b) <==> AllTerminated(slots, a) && AllTerminated(slots, b)
  {
    var ab := a + b;
    if AllTerminated(slots, ab) {
      forall k | 0 <= k < |a| ensures Terminated(slots[a[k]]) {
        assert ab[k] == a[k];
      }
      forall k | 0 <= k < |b| ensures Terminated(slots[b[k]]) {
        assert ab[|a| + k] == b[k];
      }
    }
  }

  lemma ContentsOne(slots: seq<Slot>, i: nat)
    requires i < |slots|
    ensures Contents(slots, [i]) == [RequestIn(slots[i])]
  {
  }

  /** A new arrival, or a change of the newest one, leaves the accepted requests as they are until it is complete with a slot. */
  lemma AcceptedNew(c: Config, a: seq<Arrival>, m: Message)
    ensures Accepted(c, a + [Arrival(m, false, false)]) == Accepted(c, a)
  {
    assert (a + [Arrival(m, false, false)])[..|a|] == a;
  }

  lemma AcceptedNewest(c: Config, a: seq<Arrival>, gotSlot: bool, complete: bool)
    requires a != [] && PurposeOf(c, a[|a| - 1].msg.topic).Request?
    ensures var last, a' := a[|a| - 1], Newest(a, gotSlot, complete);
            Accepted(c, a') == Accepted(c, a)
              + if (last.gotSlot || gotSlot) && (last.complete || complete) && !(last.gotSlot && last.complete)
                then [RequestOf(c, last.msg)] else []
  {
    assert Newest(a, gotSlot, complete)[..|a| - 1] == a[..|a| - 1];
  }

  lemma BeginKeeps(c: Config, s: State, m: Message, n: nat)
    requires ReqInv(c, s) && s.mqtt.stage.Idle?
    ensures ReqInv(c, AfterBegin(c, s, m, n))
  {
    hide Partial;
    AcceptedNew(c, s.hist.arrivals, m);
    var t := AfterBegin(c, s, m, n);
    assert Pipeline(t) == Pipeline(s);
    assert s.hist.arrivals + [] == s.hist.arrivals;
  }

  lemma TakeKeeps(c: Config, s: State)
    requires Inv(c, s) && Safe(c, s) && ReqInv(c, s) && s.mqtt.stage.Take?
    ensures ReqInv(c, AfterTake(c, s))
  {
    hide Owned, PurposeOf, Accepted, Contents, AllTerminated, Newest, Partial, Started;
    var t := AfterTake(c, s);
    assert Pipeline(t) == Pipeline(s);
    if s.free != [] {
      Apart(c, s);
      assert s.free[0] in s.free;
      ContentsFrame(s.slots, s.free[0], t.slots[s.free[0]], Pipeline(s));
      AcceptedNewest(c, s.hist.arrivals, true, false);
      NewestIs(s.hist.arrivals, true, false);
      StartedPartial(c, s.slots[s.free[0]], s.mqtt.inbound.value);
    }
  }

  lemma NewestIs(a: seq<Arrival>, gotSlot: bool, complete: bool)
    requires a != []
    ensures var last, a' := a[|a| - 1], Newest(a, gotSlot, complete);
            |a'| == |a| && a'[|a| - 1] == Arrival(last.msg, last.gotSlot || gotSlot, last.complete || complete)
  {
  }

  /** A slot just taken holds nothing of its request's payload yet. */
  lemma StartedPartial(c: Config, slot: Slot, m: Message)
    requires PurposeOf(c, m.topic).Request?
    ensures Partial(c, Started(c, slot, m), m, 0)
  {
  }

  lemma StoreKeepsPartial(c: Config, slot: Slot, m: Message, at: nat, n: nat)
    requires PurposeOf(c, m.topic).Request? && SlotOk(c, slot) && at + n <= |m.body| && Partial(c, slot, m, at)
    ensures var t := Stored(c, slot, at, m.body[at..at + n], |m.body|);
            && SlotOk(c, t) && Partial(c, t, m, at + n)
            && (at + n == |m.body| ==> RequestIn(t) == RequestOf(c, m) && Terminated(t))
  {
    hide PurposeOf, KeptCorrelation, KeptTopic, MethodName;
    var t := Stored(c, slot, at, m.body[at..at + n], |m.body|);
    if !slot.tooLarge {
      assert m.body[..at] + m.body[at..at + n] == m.body[..at + n];
      assert t.payload[..at + n] == slot.payload[..at] + m.body[at..at + n];
    }
    assert at + n == |m.body| ==> m.body[..at + n] == m.body;
  }

  /** The slot after the fragments `parts`, the first of them at `at`. */
  ghost function StoreAll(c: Config, slot: Slot, m: Message, at: nat, parts: seq<nat>): Option<Slot>
    decreases parts
  {
    if parts == [] then Some(slot)
    else if SlotOk(c, slot) && at + parts[0] <= |m.body| then
      StoreAll(c, Stored(c, slot, at, m.body[at..at + parts[0]], |m.body|), m, at + parts[0], parts[1..])
    else None
  }

  function Total(parts: seq<nat>): nat {
    if parts == [] then 0 else parts[0] + Total(parts[1..])
  }

  /** Reassembly does not depend on the fragmentation: every contiguous split of a message makes the same request. */
  lemma {:induction false} AnySplit(c: Config, slot: Slot, m: Message, at: nat, parts: seq<nat>)
    requires PurposeOf(c, m.topic).Request? && SlotOk(c, slot) && Partial(c, slot, m, at)
    requires parts != [] && at + Total(parts) == |m.body|
    ensures var r := StoreAll(c, slot, m, at, parts);
            r.Some? && SlotOk(c, r.value) && RequestIn(r.value) == RequestOf(c, m) && Terminated(r.value)
    decreases parts
  {
    hide RequestIn, RequestOf, Partial, PurposeOf, Stored;
    StoreKeepsPartial(c, slot, m, at, parts[0]);
    var next := Stored(c, slot, at, m.body[at..at + parts[0]], |m.body|);
    if parts[1..] == [] {
      assert StoreAll(c, slot, m, at, parts) == StoreAll(c, next, m, at + parts[0], []) == Some(next);
    } else {
      AnySplit(c, next, m, at + parts[0], parts[1..]);
    }
  }

  lemma StoreWithSlot(c: Config, s: State)
    requires Inv(c, s) && Safe(c, s) && ReqInv(c, s) && s.mqtt.stage.Fragment? && !s.mqtt.rxResponse && s.mqtt.rxSlot.Some?
    ensures ReqInv(c, AfterStore(c, s))
  {
    hide Owned, Partial, Stored, PurposeOf, AllTerminated, Contents, Accepted;
    var t, m, at, n := AfterStore(c, s), s.mqtt.inbound.value, s.mqtt.upto, s.mqtt.stage.n;
    var i := s.mqtt.rxSlot.value;
    AcceptedNewest(c, s.hist.arrivals, false, true);
    StoreKeepsPartial(c, s.slots[i], m, at, n);
    Apart(c, s);
    assert i in MqttHeld(s);
    ContentsFrame(s.slots, i, t.slots[i], Pipeline(s));
    if at + n == |m.body| {
      StoredLast(c, s, t, i, RequestOf(c, m));
    } else {
      assert Pipeline(t) == Pipeline(s);
    }
  }

  /** The last fragment puts a whole request at the end of the pipeline. */
  lemma StoredLast(c: Config, s: State, t: State, i: nat, r: RequestData)
    requires Fifo(c, s) && !s.mqtt.stage.Enqueue? && InRange(t, Pipeline(s))
    requires t.req == s.req && t.ready == s.ready && t.mqtt.stage.Enqueue? && t.mqtt.rxSlot == Some(i) && t.hist.handled == s.hist.handled
    requires Contents(t.slots, Pipeline(s)) == Contents(s.slots, Pipeline(s))
    requires AllTerminated(t.slots, Pipeline(s)) == AllTerminated(s.slots, Pipeline(s))
    requires i < |t.slots| && RequestIn(t.slots[i]) == r && Terminated(t.slots[i])
    requires Accepted(c, t.hist.arrivals) == Accepted(c, s.hist.arrivals) + [r]
    ensures Fifo(c, t)
  {
    hide Contents, Accepted;
    assert Pipeline(t) == Pipeline(s) + [i];
    ContentsAppend(t.slots, Pipeline(s), [i]);
    ContentsOne(t.slots, i);
    assert s.hist.handled + (Contents(s.slots, Pipeline(s)) + [r]) == s.hist.handled + Contents(s.slots, Pipeline(s)) + [r];
  }

  lemma StoreWithoutSlot(c: Config, s: State)
    requires Inv(c, s) && Safe(c, s) && ReqInv(c, s) && s.mqtt.stage.Fragment? && (s.mqtt.rxResponse || s.mqtt.rxSlot.None?)
    ensures ReqInv(c, AfterStore(c, s))
  {
    hide Owned, Partial, Delivered, PurposeOf;
    if !s.mqtt.rxResponse && IsRequest(c, s.mqtt.inbound) {
      AcceptedNewest(c, s.hist.arrivals, false, true);
    }
    assert Pipeline(AfterStore(c, s)) == Pipeline(s);
  }

  lemma SubmitKeeps(c: Config, s: State)
    requires Inv(c, s) && Safe(c, s) && ReqInv(c, s) && s.mqtt.stage.Enqueue?
    ensures ReqInv(c, AfterSubmit(c, s))
  {
    hide Owned, Partial, PurposeOf;
    Room(c, s);
    assert Pipeline(AfterSubmit(c, s)) == Pipeline(s);
  }

  // ---- Steps of the request task ----

  lemma ReceiveKeeps(c: Config, s: State)
    requires Safe(c, s) && ReqInv(c, s) && s.req.stage.Draining?
    ensures ReqInv(c, AfterReceive(s))
  {
    hide Partial, PurposeOf;
    assert s.ready != [] ==> s.ready == [s.ready[0]] + s.ready[1..];
    assert Pipeline(AfterReceive(s)) == Pipeline(s);
  }

  lemma HandleKeepsFifo(c: Config, s: State)
    requires Safe(c, s) && Fifo(c, s) && s.req.stage.Handling?
    ensures Fifo(c, Next(c, s, Handle))
  {
    hide PurposeOf, AllTerminated, SlotOk, RequestIn, Contents, Accepted, Safe;
    var t, i, h := Next(c, s, Handle), s.req.stage.idx, s.hist.handled;
    assert Pipeline(s) == [i] + Pipeline(t);
    assert Pipeline(s)[0] == i && forall k :: 0 <= k < |Pipeline(t)| ==> Pipeline(t)[k] == Pipeline(s)[k + 1];
    ContentsAppend(s.slots, [i], Pipeline(t));
    ContentsOne(s.slots, i);
    assert h + ([RequestIn(s.slots[i])] + Contents(s.slots, Pipeline(t))) == h + [RequestIn(s.slots[i])] + Contents(s.slots, Pipeline(t));
  }

  lemma HandleKeeps(c: Config, s: State)
    requires Safe(c, s) && ReqInv(c, s) && s.req.stage.Handling?
    ensures ReqInv(c, Next(c, s, Handle))
  {
    hide Fifo, Partial, PurposeOf;
    HandleKeepsFifo(c, s);
    var h' := Next(c, s, Handle).hist.handled;
    assert h'[..|h'| - 1] == s.hist.handled;
  }

  lemma RespondKeeps(c: Config, s: State, body: Text)
    requires Safe(c, s) && ReqInv(c, s) && s.req.stage.Responding? && Enabled(c, s, Respond(body))
    ensures ReqInv(c, Next(c, s, Respond(body)))
  {
    hide Partial, PurposeOf, IsAnswer, Accepted, AllTerminated, MqttOk;
    var t, h := Next(c, s, Respond(body)), s.hist.handled;
    assert Pipeline(t) == Pipeline(s);
    assert IsReplyTo(c, h[|h| - 1], t.hist.replies[|h| - 1]);
  }

  lemma OtherKeeps(c: Config, s: State, e: Event)
    requires Safe(c, s) && ReqInv(c, s) && Enabled(c, s, e)
    requires !e.Begin? && !e.TakeSlot? && !e.Store? && !e.Submit? && !e.Receive? && !e.Handle? && !e.Respond?
    ensures ReqInv(c, Next(c, s, e))
  {
    hide Partial, PurposeOf, SlotOk, AllTerminated, Accepted, Contents, AnsweredBy;
    var t := Next(c, s, e);
    assert t.hist.handled == s.hist.handled && t.hist.replies == s.hist.replies && t.hist.arrivals == s.hist.arrivals && t.slots == s.slots;
    assert Pipeline(t) == Pipeline(s);
  }

  lemma StepKeeps(c: Config, s: State, e: Event)
    requires Inv(c, s) && Safe(c, s) && ReqInv(c, s) && Enabled(c, s, e)
    ensures ReqInv(c, Next(c, s, e))
  {
    hide Inv, MqttOk, ReqOk, ReqInv, AfterBegin, AfterTake, AfterStore, AfterSubmit, AfterReceive;
    match e
    case Begin(m, n) => BeginKeeps(c, s, m, n);
    case TakeSlot => TakeKeeps(c, s);
    case Store => if !s.mqtt.rxResponse && s.mqtt.rxSlot.Some? { StoreWithSlot(c, s); } else { StoreWithoutSlot(c, s); }
    case Submit => SubmitKeeps(c, s);
    case Receive => ReceiveKeeps(c, s);
    case Handle => HandleKeeps(c, s);
    case Respond(body) => RespondKeeps(c, s, body);
    case _ => OtherKeeps(c, s, e);
  }

  lemma {:induction false} EveryRunKeeps(c: Config, es: seq<Event>)
    requires Run(c, es).Some?
    ensures ReqInv(c, Run(c, es).value)
    decreases |es|
  {
    hide Inv, ReqInv;
    if es == [] {
      InitKeeps(c);
    } else {
      var before := es[..|es| - 1];
      EveryRunKeeps(c, before);
      EveryRun(c, before);
      StepKeeps(c, Run(c, before).value, es[|es| - 1]);
    }
  }

  lemma InitKeeps(c: Config)
    ensures ReqInv(c, Init(c))
  {
    assert Pipeline(Init(c)) == [];
  }

  // ---- Messages ----

  /** The messages that were received to the end and had a slot. */
  function Received(arrivals: seq<Arrival>): seq<Message> {
    if arrivals == [] then []
    else
      var last := arrivals[|arrivals| - 1];
      Received(arrivals[..|arrivals| - 1]) + if last.gotSlot && last.complete then [last.msg] else []
  }

  /** The request that a message on <down>req/<name> makes, byte by byte. */
  ghost predicate Makes(c: Config, m: Message, name: Text, r: RequestData) {
    && name != [] && m.topic == c.down + [114, 101, 113, 47] + name
    && |r.name| == (if |name| < 47 then |name| else 47)
    && (forall i :: 0 <= i < |r.name| ==> r.name[i] == if name[i] == 47 then 46 else name[i])
    && r.correlation == (if |m.correlation| <= 64 then m.correlation else [])
    && r.tooLarge == (|m.body| > c.payloadMax)
    && r.payload == (if |m.body| > c.payloadMax then [] else m.body)
  }

  /** The address of the answer to a message: its own correlation, and its own response topic below <up>. */
  ghost predicate Addressed(c: Config, m: Message, reply: Reply) {
    && reply.correlation == (if |m.correlation| <= 64 then m.correlation else [])
    && reply.topic == (if 0 < |m.responseTopic| <= 95 && c.up <= m.responseTopic then m.responseTopic else c.up + [114, 101, 115])
  }

  ghost predicate Serves(c: Config, m: Message, r: RequestData) {
    exists name :: Makes(c, m, name, r)
  }

  lemma RequestServes(c: Config, m: Message, reply: Reply)
    requires PurposeOf(c, m.topic).Request?
    ensures Serves(c, m, RequestOf(c, m)) && (IsReplyTo(c, RequestOf(c, m), reply) ==> Addressed(c, m, reply))
  {
    var name := PurposeOf(c, m.topic).name;
    PurposeIff(c, m.topic, name);
    hide PurposeOf, IsAnswer;
    assert Makes(c, m, name, RequestOf(c, m));
  }

  ghost predicate AllRequests(c: Config, arrivals: seq<Arrival>) {
    forall k :: 0 <= k < |arrivals| ==> PurposeOf(c, arrivals[k].msg.topic).Request?
  }

  lemma {:induction false} AcceptedAreReceived(c: Config, arrivals: seq<Arrival>)
    requires AllRequests(c, arrivals)
    ensures var accepted, received := Accepted(c, arrivals), Received(arrivals);
            && |accepted| == |received|
            && forall k :: 0 <= k < |received| ==> PurposeOf(c, received[k].topic).Request? && accepted[k] == RequestOf(c, received[k])
    decreases |arrivals|
  {
    hide PurposeOf, RequestOf;
    if arrivals != [] {
      AcceptedAreReceived(c, arrivals[..|arrivals| - 1]);
    }
  }

  lemma {:induction false} ArrivalsAreRequests(c: Config, es: seq<Event>)
    requires Run(c, es).Some?
    ensures AllRequests(c, Run(c, es).value.hist.arrivals)
    decreases |es|
  {
    hide AllRequests;
    NoArrivals(c);
    if es != [] {
      var before := es[..|es| - 1];
      ArrivalsAreRequests(c, before);
      hide Run, Init;
      ArrivalStep(c, Run(c, before).value, es[|es| - 1]);
    }
  }

  lemma NoArrivals(c: Config)
    ensures AllRequests(c, Init(c).hist.arrivals)
  {
  }

  lemma ArrivalStep(c: Config, s: State, e: Event)
    requires Safe(c, s) && Enabled(c, s, e) && AllRequests(c, s.hist.arrivals)
    ensures AllRequests(c, Next(c, s, e).hist.arrivals)
  {
    hide PurposeOf, Started, Stored, IsAnswer, SlotOk, FreeAfterGiveBack, Answers, Delivered, RequestIn;
  }

  /**
   Over every run the handled requests are the first of the accepted ones, in order, and each but the one at hand
   has been answered once. Nothing else is ever handled: a request cut off by a disconnect or a new message, or
   refused for want of a slot, is not among the accepted ones. Said of the messages themselves: each request handled is
   the one its message makes, and each answer has its message's correlation and response topic.
   */
  lemma ExactlyOnceInOrder(c: Config, es: seq<Event>)
    requires Run(c, es).Some?
    ensures var s := Run(c, es).value;
            var accepted := Accepted(c, s.hist.arrivals);
            && s.hist.handled <= accepted
            && InRange(s, Pipeline(s)) && Contents(s.slots, Pipeline(s)) == accepted[|s.hist.handled|..]
            && AllTerminated(s.slots, Pipeline(s))
            && |s.hist.replies| <= |s.hist.handled| && AnsweredBy(c, s.hist.handled[..|s.hist.replies|], s.hist.replies)
            && |s.hist.handled| - |s.hist.replies| == (if s.req.stage.Responding? then 1 else 0)
    ensures var s := Run(c, es).value;
            var received := Received(s.hist.arrivals);
            && |s.hist.handled| + |Pipeline(s)| == |received|
            && (forall k :: 0 <= k < |s.hist.handled| ==> Serves(c, received[k], s.hist.handled[k]))
            && (forall k :: 0 <= k < |s.hist.replies| ==> Addressed(c, received[k], s.hist.replies[k]) && IsAnswer(c, s.hist.handled[k], s.hist.replies[k].body))
  {
    EveryRunKeeps(c, es);
    ArrivalsAreRequests(c, es);
    hide Run, IsAnswer, PurposeOf, Serves, Addressed, RequestOf, Address, RequestIn, AllTerminated, Receiving;
    var s := Run(c, es).value;
    var h, accepted := s.hist.handled, Accepted(c, s.hist.arrivals);
    assert h == accepted[..|h|];
    AcceptedAreReceived(c, s.hist.arrivals);
    var received := Received(s.hist.arrivals);
    forall k | 0 <= k < |h| ensures Serves(c, received[k], h[k]) && (k < |s.hist.replies| ==> Addressed(c, received[k], s.hist.replies[k])) {
      assert h[k] == accepted[k];
      RequestServes(c, received[k], if k < |s.hist.replies| then s.hist.replies[k] else Reply([], [], []));
    }
  }
}
