/**
 sc_rpc and sc_mqtt as objects with their buffers. `Coupled` says that the objects are the machine of RpcMachine.dfy
 in memory. Run without interruption, the methods of either task keep it and take the machine along a run.
 */
module RpcDevice {
  import opened Bytes
  import opened Options
  import opened RpcMachine
  import opened RpcOwnership
  import RpcRequests
  import JsonReader
  import JsmnPrefix
  import RpcHandler

  /** The fields of a slot other than its payload buffer. */
  datatype Head = Head(tooLarge: bool, name: Text, correlation: Text, responseTopic: Text, payloadLen: nat)

  /** What call() returns: success with the token of "result", or why not. */
  datatype CallResult = Success(resultTok: int) | Unanswered | TooLong | NotParsed | NotOk

  // ---- Runs of the request task ----

  /** handle_ready()'s turn for a request answered by `reply`. */
  function Turn(reply: Reply): seq<Event> {
    [Receive, Handle, Respond(reply.body), Event.GiveBack]
  }

  /** Its turns for requests answered by `replies`. */
  function Drain(replies: seq<Reply>): seq<Event> {
    if replies == [] then [] else Turn(replies[0]) + Drain(replies[1..])
  }

  lemma {:induction false} DrainSnoc(replies: seq<Reply>, reply: Reply)
    ensures Drain(replies + [reply]) == Drain(replies) + Turn(reply)
  {
    hide Turn;
    if replies == [] {
      assert ([reply])[1..] == [];
    } else {
      assert (replies + [reply])[1..] == replies[1..] + [reply];
      DrainSnoc(replies[1..], reply);
    }
  }

  lemma RunFromHere(c: Config, s: State)
    ensures RunFrom(c, s, []) == Some(s)
  {
  }

  lemma StepKeepsInv(c: Config, s: State, e: Event)
    requires Inv(c, s) && Enabled(c, s, e)
    ensures Safe(c, s) && Inv(c, Next(c, s, e))
  {
    hide Safe, Enabled, Next;
    InvIsSafe(c, s);
    StepKeepsOwned(c, s, e);
    StepKeepsShaped(c, s, e);
  }

  /** One more event of a run. */
  lemma Onward(c: Config, s: State, es: seq<Event>, t: State, e: Event) returns (es': seq<Event>)
    requires RunFrom(c, s, es) == Some(t) && Inv(c, t) && Enabled(c, t, e)
    ensures Safe(c, t) && Inv(c, Next(c, t, e))
    ensures es' == es + [e] && RunFrom(c, s, es') == Some(Next(c, t, e))
  {
    hide Inv, Safe, Enabled, Next;
    StepKeepsInv(c, t, e);
    es' := es + [e];
    RunFromAppend(c, s, es, [e]);
    assert [e][1..] == [];
    assert RunFrom(c, Next(c, t, e), []) == Some(Next(c, t, e));
  }

  lemma TakeOne(q: seq<nat>, k: nat)
    requires k < |q|
    ensures q[k..] != [] && q[k..][0] == q[k] && q[k..][1..] == q[k + 1..] && q[..k + 1] == q[..k] + [q[k]]
  {
  }

  lemma HandleIs(c: Config, s: State)
    requires Inv(c, s) && s.req.stage.Handling?
    ensures Safe(c, s) && Enabled(c, s, Handle)
    ensures Next(c, s, Handle) == s.(req := s.req.(stage := Responding(s.req.stage.idx)),
                                     hist := s.hist.(handled := s.hist.handled + [RequestIn(s.slots[s.req.stage.idx])]))
  {
    hide Inv, RequestIn;
    InvIsSafe(c, s);
  }

  lemma RespondIs(c: Config, s: State, body: Text)
    requires Inv(c, s) && s.req.stage.Responding? && s.req.stage.idx < |s.slots| && IsAnswer(c, RequestIn(s.slots[s.req.stage.idx]), body)
    ensures Safe(c, s) && Enabled(c, s, Respond(body))
    ensures var slot := s.slots[s.req.stage.idx];
            var reply := Reply(Address(c, slot.responseTopic), slot.correlation, body);
            Next(c, s, Respond(body)) == s.(req := s.req.(stage := Returning(s.req.stage.idx)), hist := s.hist.(replies := s.hist.replies + [reply]))
  {
    hide Inv, RequestIn, IsAnswer, Address;
    InvIsSafe(c, s);
  }

  lemma KeepsAddress(slot: Slot)
    ensures RequestIn(slot).responseTopic == slot.responseTopic && RequestIn(slot).correlation == slot.correlation
  {
  }

  /** There is room for the slot that is given back. */
  lemma HandsRoom(c: Config, s: State)
    requires Inv(c, s) && s.req.stage.Returning?
    ensures |s.free| < c.slots
  {
    Room(c, s);
  }

  class Rpc {
    const c: Config
    const heads: array<Head>
    /** One row of payloadMax + 1 bytes for each slot. */
    const payloads: array2<Byte>
    const callBuf: array<Byte>
    const respBuf: array<Byte>
    var freeSlots: seq<nat>
    var readySlots: seq<nat>
    var events: set<EventBit>
    var callCorrelation: Text
    var callLen: nat
    var callOverflow: bool
    var callCounter: nat
    /** The machine's state. */
    ghost var m: State

    ghost predicate Allocated() {
      && heads.Length == c.slots && payloads.Length0 == c.slots && payloads.Length1 == c.payloadMax + 1
      && callBuf.Length == CALL_BUF_SIZE && respBuf.Length == c.resultMax && respBuf != callBuf
    }

    ghost function Row(i: nat): Text
      requires Allocated() && i < c.slots
      reads payloads
    {
      seq(c.payloadMax + 1, k requires 0 <= k <= c.payloadMax reads payloads => payloads[i, k])
    }

    ghost function SlotValue(i: nat): Slot
      requires Allocated() && i < c.slots
      reads heads, payloads
    {
      var h := heads[i];
      Slot(h.tooLarge, h.name, h.correlation, h.responseTopic, Row(i), h.payloadLen)
    }

    ghost function Slots(): seq<Slot>
      requires Allocated()
      reads heads, payloads
    {
      seq(c.slots, i requires 0 <= i < c.slots reads heads, payloads => SlotValue(i))
    }

    ghost function Call(): CallState
      requires Allocated()
      reads this`callCorrelation, this`callLen, this`callOverflow, this`callCounter, callBuf
    {
      CallState(callCorrelation, callBuf[..], callLen, callOverflow, callCounter)
    }

    /** The object is its part of the machine's state. */
    ghost predicate Coupled()
      reads this, heads, payloads, callBuf
    {
      && Allocated() && Inv(c, m)
      && m.free == freeSlots && m.ready == readySlots && m.bits == events && m.slots == Slots() && m.call == Call()
    }

    /** init(). */
    constructor (c: Config)
      ensures Coupled() && this.c == c && m == Init(c)
    {
      hide Inv;
      this.c := c;
      heads := new Head[c.slots](_ => Head(false, [], [], [], 0));
      payloads := new Byte[c.slots, c.payloadMax + 1]((_, _) => NUL);
      callBuf := new Byte[CALL_BUF_SIZE](_ => NUL);
      respBuf := new Byte[c.resultMax](_ => NUL);
      m := Init(c);
      readySlots, events := [], {};
      callCorrelation, callLen, callOverflow, callCounter := [], 0, false, 0;
      freeSlots := [];
      new;
      assert forall i: nat :: i < c.slots ==> Row(i) == seq(c.payloadMax + 1, _ => NUL);
      assert Slots() == Init(c).slots;
      assert callBuf[..] == Init(c).call.buf;
      for idx := 0 to c.slots
        invariant freeSlots == seq(idx, i => i)
        invariant Slots() == Init(c).slots && Call() == Init(c).call && readySlots == [] && events == {} && m == Init(c)
      {
        freeSlots := Send(freeSlots, c.slots, idx);
      }
      InitInv(c);
    }

    /** A slot that was written is the only one that changed. */
    twostate predicate OnlySlot(i: nat, slot: Slot)
      requires Allocated() && i < c.slots
      reads heads, payloads
    {
      Slots() == old(Slots())[i := slot]
    }

    method TakeFreeSlot() returns (slot: Option<nat>)
      requires Allocated() && forall k :: 0 <= k < |freeSlots| ==> freeSlots[k] < c.slots
      modifies this`freeSlots, heads
      ensures old(freeSlots) == [] ==> slot == None && freeSlots == [] && Slots() == old(Slots())
      ensures old(freeSlots) != [] ==>
                && slot == Some(old(freeSlots)[0]) && freeSlots == old(freeSlots)[1..]
                && OnlySlot(slot.value, Slot(false, [], [], [], old(Row(freeSlots[0])), 0))
    {
      if freeSlots == [] {
        return None;
      }
      var idx := freeSlots[0];
      freeSlots := freeSlots[1..];
      heads[idx] := Head(false, [], [], [], 0);
      return Some(idx);
    }

    /** The rest of start_request(). */
    method FillHead(idx: nat, name: Text, correlation: Text, responseTopic: Text, total: nat)
      requires Allocated() && idx < c.slots
      modifies heads
      ensures OnlySlot(idx, Slot(total > c.payloadMax, MethodName(name), KeptCorrelation(correlation), KeptTopic(responseTopic),
                                 old(Row(idx)), old(heads[idx].payloadLen)))
    {
      var copyLen := if |name| < METHOD_MAX then |name| else METHOD_MAX;
      var copied: Text := [];
      for i := 0 to copyLen
        invariant |copied| == i && forall k :: 0 <= k < i ==> copied[k] == Dotted(name[k])
      {
        copied := copied + [if name[i] == SLASH then DOT else name[i]];
      }
      assert copied == MethodName(name);
      heads[idx] := Head(total > c.payloadMax, copied, KeptCorrelation(correlation), KeptTopic(responseTopic), heads[idx].payloadLen);
    }

    /** start_request() as a whole. */
    method StartRequest(name: Text, correlation: Text, responseTopic: Text, total: nat) returns (slot: Option<nat>)
      requires Allocated() && forall k :: 0 <= k < |freeSlots| ==> freeSlots[k] < c.slots
      modifies this`freeSlots, heads
      ensures old(freeSlots) == [] ==> slot == None && freeSlots == [] && Slots() == old(Slots())
      ensures old(freeSlots) != [] ==>
                && slot == Some(old(freeSlots)[0]) && freeSlots == old(freeSlots)[1..]
                && OnlySlot(slot.value, Slot(total > c.payloadMax, MethodName(name), KeptCorrelation(correlation), KeptTopic(responseTopic),
                                             old(Row(freeSlots[0])), 0))      ensures slot.Some? ==> var h := heads[slot.value];
                             && h.correlation == (if |correlation| <= 64 then correlation else [])
                             && h.responseTopic == (if |responseTopic| <= 95 then responseTopic else [])
                             && |h.name| == (if |name| < 47 then |name| else 47)
                             && forall i :: 0 <= i < |h.name| ==> h.name[i] == if name[i] == 47 then 46 else name[i]
    {
      hide MethodName, KeptCorrelation, KeptTopic;
      slot := TakeFreeSlot();
      if slot.Some? {
        ghost var taken := Slots();
        assert taken[slot.value] == SlotValue(slot.value);
        FillHead(slot.value, name, correlation, responseTopic, total);
        KeptIs(name, correlation);
        KeptIs(name, responseTopic);
        assert Slots()[slot.value] == SlotValue(slot.value);
        assert Slots() == old(Slots())[slot.value := Slots()[slot.value]];
      }
    }

    /** One fragment of a request into its slot. */
    method StoreFragment(idx: nat, data: Text, at: nat, total: nat)
      requires Allocated() && idx < c.slots && SlotOk(c, SlotValue(idx))
      modifies heads, payloads
      ensures OnlySlot(idx, Stored(c, old(SlotValue(idx)), at, data, total))
    {
      ghost var was := SlotValue(idx);
      var h := heads[idx];
      if !h.tooLarge && at + |data| <= c.payloadMax {
        CopyRow(idx, at, data);
        heads[idx] := h.(payloadLen := at + |data|);
      }
      if at + |data| >= total {
        Terminate(idx, heads[idx].payloadLen);
      }
      assert SlotValue(idx).payload == Stored(c, was, at, data, total).payload;
      assert forall i: nat :: i < c.slots && i != idx ==> Row(i) == old(Row(i)) && heads[i] == old(heads[i]);
    }

    /** memcpy(payload + at, data, |data|). */
    method CopyRow(idx: nat, at: nat, data: Text)
      requires Allocated() && idx < c.slots && at + |data| <= c.payloadMax
      modifies payloads
      ensures Row(idx) == Overwrite(old(Row(idx)), at, data)
      ensures forall i: nat :: i < c.slots && i != idx ==> Row(i) == old(Row(i))
    {
      forall k | 0 <= k < |data| {
        payloads[idx, at + k] := data[k];
      }
    }

    method Terminate(idx: nat, len: nat)
      requires Allocated() && idx < c.slots && len <= c.payloadMax
      modifies payloads
      ensures Row(idx) == old(Row(idx))[len := NUL]
      ensures forall i: nat :: i < c.slots && i != idx ==> Row(i) == old(Row(i))
    {
      payloads[idx, len] := NUL;
    }

    method Submit(idx: nat)
      modifies this`readySlots, this`events
      ensures readySlots == Send(old(readySlots), c.slots, idx) && events == old(events) + {RequestBit}
    {
      readySlots := Send(readySlots, c.slots, idx);
      events := events + {RequestBit};
    }

    method GiveBack(idx: nat)
      modifies this`freeSlots
      ensures freeSlots == Send(old(freeSlots), c.slots, idx)
    {
      freeSlots := Send(freeSlots, c.slots, idx);
    }

    method DeliverResponse(correlation: Text, data: Text, at: nat, total: nat)
      requires Allocated()
      modifies this`callLen, this`callOverflow, this`events, callBuf
      ensures Call() == Delivered(old(Call()), correlation, data, at)
      ensures var ours := callCorrelation != [] && correlation == callCorrelation;
              events == if ours && at + |data| >= total then old(events) + {CallBit} else old(events)
    {
      var complete := false;
      var ours := callCorrelation != [] && correlation == callCorrelation;
      if ours {
        if at + |data| < CALL_BUF_SIZE {
          forall k | 0 <= k < |data| {
            callBuf[at + k] := data[k];
          }
          callLen := at + |data|;
        } else {
          callOverflow := true;
        }
        complete := at + |data| >= total;
      }
      assert callBuf[..] == Delivered(old(Call()), correlation, data, at).buf;
      if complete {
        events := events + {CallBit};
      }
    }

    /**
     call() up to and with its publish, whose outcome is `sent`: the new call is armed, and a bit left over from an
     earlier one is cleared.
     */
    method StartCall(sent: bool) returns (correlation: Text)
      requires Coupled() && Enabled(c, m, Event.StartCall)
      modifies this`callCorrelation, this`callLen, this`callOverflow, this`callCounter, this`events, this`m
      ensures Coupled() && RunFrom(c, old(m), [Event.StartCall, ClearCall, Publish(sent)]) == Some(m)
      ensures correlation == CallName(callCounter) && callCounter == (old(callCounter) + 1) % COUNTER_RANGE
      ensures Call() == CallState(correlation, old(callBuf[..]), 0, false, callCounter)
      ensures events == old(events) - {CallBit}
      ensures m.req.stage == if sent then CallWait else CallDisarm(false)
    {
      hide Inv, Safe, CallName, RunFrom, AfterBegin, AfterTake, AfterStore, AfterDisconnect, Rpc.Row, Rpc.SlotValue, Rpc.Slots;
      ghost var was, es := m, [];
      RunFromHere(c, m);
      es := Onward(c, was, es, m, Event.StartCall);
      callCounter := (callCounter + 1) % COUNTER_RANGE;
      correlation := CallName(callCounter);
      callCorrelation := correlation;
      callLen := 0;
      callOverflow := false;
      m := Next(c, m, Event.StartCall);
      es := Onward(c, was, es, m, ClearCall);
      events := events - {CallBit};
      m := Next(c, m, ClearCall);
      es := Onward(c, was, es, m, Publish(sent));
      m := Next(c, m, Publish(sent));
      assert es == [Event.StartCall, ClearCall, Publish(sent)];
    }

    /** The end of call()'s wait: the call bit, which it takes, or the timeout. */
    method EndWait() returns (answered: bool)
      requires Coupled() && m.req.stage.CallWait?
      modifies this`events, this`m
      ensures answered == (CallBit in old(events)) && events == old(events) - {CallBit}
      ensures Coupled() && m.req.stage == CallDisarm(answered)
      ensures RunFrom(c, old(m), [if answered then Answered else TimedOut]) == Some(m)
    {
      hide Inv, Safe, RunFrom;
      ghost var was := m;
      answered := CallBit in events;
      ghost var e := if answered then Answered else TimedOut;
      RunFromHere(c, m);
      ghost var es := Onward(c, was, [], m, e);
      events := events - {CallBit};
      m := Next(c, m, e);
      assert es == [e];
    }

    /**
     call() after its wait: nothing is stored any more, and success means that the call was answered within the
     buffer by a document that says "ok":true.
     */
    method FinishCall(answered: bool, doc: JsonReader.Reader) returns (ret: CallResult)
      requires Coupled() && m.req.stage == CallDisarm(answered)
      modifies this`callCorrelation, this`m, doc, doc.tokens
      ensures Coupled() && Call() == old(Call()).(correlation := [])
      ensures RunFrom(c, old(m), if answered then [EndCall, ParseAnswer(doc.tokens.Length)] else [EndCall]) == Some(m)
      ensures var document := Parsed(callBuf[..callLen], m.hist.answers, doc.tokens.Length, m.hist.calls);
              m.hist.parsed == old(m.hist.parsed) + if ret.Success? || ret.NotOk? then [document] else []
      ensures !answered ==> ret == Unanswered
      ensures answered && callOverflow ==> ret == TooLong
      ensures answered && !callOverflow ==> doc.Valid() && doc.json == callBuf[..callLen]
      ensures ret.NotParsed? <==> answered && !callOverflow && !JsmnPrefix.Accepted(callBuf[..callLen], doc.tokens.Length)
      ensures ret.Success? <==> answered && !callOverflow && JsmnPrefix.Accepted(callBuf[..callLen], doc.tokens.Length)
                                && doc.Valid() && doc.json == callBuf[..callLen]
                                && JsonReader.BoolSpec(doc.json, doc.Toks(), JsonReader.FindSpec(doc.json, doc.Toks(), doc.par, 0, Ascii("ok"))) == Some(true)
      ensures ret.Success? ==> ret.resultTok == JsonReader.FindSpec(doc.json, doc.Toks(), doc.par, 0, Ascii("result"))
    {
      hide JsonReader.BoolSpec, JsonReader.FindSpec, Ascii, Inv;
      Disarm(answered, doc.tokens.Length);
      if !answered {
        return Unanswered;
      }
      if callOverflow {
        return TooLong;
      }
      var parsed := doc.Parse(callBuf[..callLen]);
      if parsed != JsonReader.Ok {
        return NotParsed;
      }
      var ok := doc.GetBool(0, Ascii("ok"));
      if ok != Some(true) {
        return NotOk;
      }
      var tok := doc.Find(0, Ascii("result"));
      return Success(tok);
    }

    /** The critical section after the wait, and for the machine the parse that follows an answer. */
    method Disarm(answered: bool, ghost cap: nat)
      requires Coupled() && m.req.stage == CallDisarm(answered)
      modifies this`callCorrelation, this`m
      ensures Coupled() && Call() == old(Call()).(correlation := []) && callLen <= CALL_BUF_SIZE
      ensures RunFrom(c, old(m), if answered then [EndCall, ParseAnswer(cap)] else [EndCall]) == Some(m)
      ensures var ok := answered && !callOverflow && JsmnPrefix.Accepted(callBuf[..callLen], cap);
              m.hist.parsed == old(m.hist.parsed) + if ok then [Parsed(callBuf[..callLen], m.hist.answers, cap, m.hist.calls)] else []
    {
      hide Owned, SlotOk, RunFrom, MqttOk, PurposeOf, AfterBegin, AfterTake, AfterStore, AfterDisconnect, Rpc.Row, Rpc.SlotValue, Rpc.Slots;
      ghost var was, es := m, [];
      RunFromHere(c, m);
      es := Onward(c, was, es, m, EndCall);
      callCorrelation := [];
      m := Next(c, m, EndCall);
      if answered {
        es := Onward(c, was, es, m, ParseAnswer(cap));
        m := Next(c, m, ParseAnswer(cap));
        assert es == [EndCall, ParseAnswer(cap)];
      } else {
        assert es == [EndCall];
      }
    }

    /** handle() and respond() of one slot, whatever methods there are and whatever the handler does. */
    method HandleSlot(idx: nat) returns (r: RequestData, reply: Reply)
      requires Allocated() && idx < c.slots && SlotOk(c, SlotValue(idx))
      modifies respBuf
      ensures r == RequestIn(SlotValue(idx)) && RpcRequests.IsReplyTo(c, r, reply)
    {
      var h := heads[idx];
      var payload := ReadPayload(idx, h.payloadLen);
      r := RequestData(h.name, h.correlation, h.responseTopic, h.tooLarge, payload);
      var known: bool, o: RpcHandler.Outcome := *, *;
      var body := RpcHandler.Handle(respBuf, c.payloadMax, HandlerRequest(r), known, o);
      reply := Reply(Address(c, h.responseTopic), h.correlation, body);
    }

    /** handle() of the slot at hand, for the machine its two events. */
    method HandleAtHand(idx: nat) returns (r: RequestData, reply: Reply)
      requires Coupled() && m.req.stage == Handling(idx)
      modifies this`m, respBuf
      ensures Coupled() && m.req.stage == Returning(idx) && m.ready == readySlots && m.free == freeSlots
      ensures idx < c.slots && r == RequestIn(SlotValue(idx)) && RpcRequests.IsReplyTo(c, r, reply)
      ensures RunFrom(c, old(m), [Handle, Respond(reply.body)]) == Some(m)
      ensures m.hist == old(m.hist).(handled := old(m.hist.handled) + [r], replies := old(m.hist.replies) + [reply])
    {
      hide Inv, Next, Enabled, RunFrom, RequestIn, SlotOk, IsAnswer, Address, Rpc.Row, Rpc.SlotValue, Rpc.Call;
      HandleIs(c, m);
      ghost var was := m;
      RunFromHere(c, m);
      ghost var es := Onward(c, was, [], m, Handle);
      assert m.slots[idx] == SlotValue(idx);
      KeepsAddress(SlotValue(idx));
      r, reply := HandleSlot(idx);
      m := Next(c, m, Handle);
      RespondIs(c, m, reply.body);
      es := Onward(c, was, es, m, Respond(reply.body));
      m := Next(c, m, Respond(reply.body));
      assert es == [Handle, Respond(reply.body)];
    }

    /** One turn of handle_ready()'s loop. */
    method HandleNext() returns (r: RequestData, reply: Reply)
      requires Coupled() && m.req.stage.Draining? && readySlots != []
      modifies this`readySlots, this`freeSlots, this`m, respBuf
      ensures Coupled() && m.req.stage.Draining?
      ensures readySlots == old(readySlots)[1..] && freeSlots == old(freeSlots) + [old(readySlots)[0]]
      ensures old(readySlots)[0] < c.slots && r == RequestIn(SlotValue(old(readySlots)[0])) && RpcRequests.IsReplyTo(c, r, reply)
      ensures RunFrom(c, old(m), Turn(reply)) == Some(m)
      ensures m.hist == old(m.hist).(handled := old(m.hist.handled) + [r], replies := old(m.hist.replies) + [reply])
    {
      hide Inv, Safe, RunFrom, RequestIn, SlotOk, RpcRequests.IsReplyTo;
      ghost var was, es := m, [];
      RunFromHere(c, m);
      es := Onward(c, was, es, m, Receive);
      var idx := readySlots[0];
      readySlots := readySlots[1..];
      m := Next(c, m, Receive);
      r, reply := HandleAtHand(idx);
      RunFromAppend(c, was, es, [Handle, Respond(reply.body)]);
      es := Onward(c, was, es + [Handle, Respond(reply.body)], m, Event.GiveBack);
      HandsRoom(c, m);
      GiveBack(idx);
      m := Next(c, m, Event.GiveBack);
      assert es == Turn(reply);
    }

    /** The requests in these slots. */
    ghost predicate Hold(idxs: seq<nat>, rs: seq<RequestData>)
      requires Allocated() && forall k :: 0 <= k < |idxs| ==> idxs[k] < c.slots
      reads heads, payloads
    {
      |rs| == |idxs| && forall k :: 0 <= k < |rs| ==> rs[k] == RequestIn(SlotValue(idxs[k]))
    }

    /** handle_ready(): every waiting request is handled and answered in order, and its slot is free again. */
    method HandleReady() returns (handled: seq<RequestData>, replies: seq<Reply>)
      requires Coupled() && m.req.stage.Draining?
      modifies this`readySlots, this`freeSlots, this`m, respBuf
      ensures Coupled() && RunFrom(c, old(m), Drain(replies) + [Receive]) == Some(m) && m.req.stage.Waiting?
      ensures readySlots == [] && freeSlots == old(freeSlots) + old(readySlots)
      ensures (forall k :: 0 <= k < |old(readySlots)| ==> old(readySlots)[k] < c.slots) && Hold(old(readySlots), handled)
      ensures RpcRequests.AnsweredBy(c, handled, replies)
      ensures m.hist == old(m.hist).(handled := old(m.hist.handled) + handled, replies := old(m.hist.replies) + replies)
    {
      hide Inv, Safe, RequestIn, SlotOk, RpcRequests.IsReplyTo, RunFrom, Rpc.Row, Rpc.SlotValue, Rpc.Slots, Rpc.Call, Turn;
      handled, replies := [], [];
      ghost var was, ready, free := m, readySlots, freeSlots;
      RunFromHere(c, m);
      while readySlots != []
        invariant Coupled() && m.req.stage.Draining? && RunFrom(c, was, Drain(replies)) == Some(m)
        invariant |handled| <= |ready| && readySlots == ready[|handled|..] && freeSlots == free + ready[..|handled|]
        invariant forall k :: 0 <= k < |handled| ==> ready[k] < c.slots
        invariant Hold(ready[..|handled|], handled) && RpcRequests.AnsweredBy(c, handled, replies)
        invariant m.hist == was.hist.(handled := was.hist.handled + handled, replies := was.hist.replies + replies)
        decreases |readySlots|
      {
        ghost var k := |handled|;
        TakeOne(ready, k);
        var r, reply := HandleNext();
        assert was.hist.handled + handled + [r] == was.hist.handled + (handled + [r]);
        assert was.hist.replies + replies + [reply] == was.hist.replies + (replies + [reply]);
        RunFromAppend(c, was, Drain(replies), Turn(reply));
        DrainSnoc(replies, reply);
        handled := handled + [r];
        replies := replies + [reply];
      }
      assert ready[..|handled|] == ready;
      ReceiveNone(was, Drain(replies));
    }

    /** The receive that ends the loop. */
    ghost method ReceiveNone(was: State, es: seq<Event>)
      requires Coupled() && m.req.stage.Draining? && readySlots == [] && RunFrom(c, was, es) == Some(m)
      modifies this`m
      ensures Coupled() && m.req.stage.Waiting? && m.hist == old(m.hist) && RunFrom(c, was, es + [Receive]) == Some(m)
    {
      hide Inv, Safe, RunFrom;
      var more := Onward(c, was, es, m, Receive);
      m := Next(c, m, Receive);
    }

    method ReadPayload(idx: nat, len: nat) returns (payload: Text)
      requires Allocated() && idx < c.slots && len <= c.payloadMax
      ensures payload == Row(idx)[..len]
    {
      payload := [];
      for k := 0 to len
        invariant payload == Row(idx)[..k]
      {
        payload := payload + [payloads[idx, k]];
      }
    }
  }

  // ---- Uninterrupted runs of the machine ----

  /** What the MQTT task does next when it is in the middle of a message. */
  function EventOf(stage: MqttStage): Event
    requires !stage.Idle?
  {
    match stage
    case Take(_) => TakeSlot
    case Fragment(_) => Store
    case Enqueue => Event.Submit
    case SignalRequest => RaiseRequest
    case SignalCall => RaiseCall
  }

  function Rank(stage: MqttStage): nat {
    match stage
    case Take(_) => 4
    case Fragment(_) => 3
    case Enqueue => 2
    case SignalRequest => 1
    case SignalCall => 1
    case Idle => 0
  }

  /** The events of the MQTT task alone, up to its next wait for a data event. */
  ghost function Settled(c: Config, s: State): State
    decreases Rank(s.mqtt.stage)
  {
    if s.mqtt.stage.Idle? || !Safe(c, s) then s else Settled(c, Next(c, s, EventOf(s.mqtt.stage)))
  }

  /** One of these events keeps the invariant and leads to the same settled state. */
  lemma SettleStep(c: Config, s: State)
    requires Inv(c, s) && !s.mqtt.stage.Idle?
    ensures Safe(c, s) && Inv(c, Next(c, s, EventOf(s.mqtt.stage)))
    ensures Settled(c, s) == Settled(c, Next(c, s, EventOf(s.mqtt.stage)))
  {
    hide Inv, Safe;
    InvIsSafe(c, s);
    StepKeepsInv(c, s, EventOf(s.mqtt.stage));
  }

  /** A settled state is reached by a run of the machine. */
  lemma {:induction false} SettledIsReached(c: Config, es: seq<Event>) returns (es': seq<Event>)
    requires Run(c, es).Some?
    ensures Run(c, es') == Some(Settled(c, Run(c, es).value)) && es <= es'
    decreases Rank(Run(c, es).value.mqtt.stage)
  {
    hide Inv, Run, Safe;
    var s := Run(c, es).value;
    es' := es;
    if !s.mqtt.stage.Idle? {
      EveryRun(c, es);
      SettleStep(c, s);
      var more, t := RunStep(c, es, s, EventOf(s.mqtt.stage));
      es' := SettledIsReached(c, more);
    }
  }

  class Mqtt {
    const rpc: Rpc
    var rxSlot: Option<nat>
    var rxResponse: bool
    var rxCorrelation: Text

    /** The objects are the machine's state in memory. */
    ghost predicate Coupled()
      reads this, rpc, rpc.heads, rpc.payloads, rpc.callBuf
    {
      && rpc.Coupled()
      && rpc.m.mqtt.rxSlot == rxSlot && rpc.m.mqtt.rxResponse == rxResponse && rpc.m.mqtt.rxCorrelation == rxCorrelation
    }

    constructor (c: Config)
      ensures Coupled() && rpc.m == Init(c) && rpc.c == c
    {
      rpc := new Rpc(c);
      rxSlot, rxResponse, rxCorrelation := None, false, [];
    }

    /** give_back() of a slot that was being filled. */
    method GiveBackRx()
      requires Coupled()
      modifies this`rxSlot, rpc`freeSlots
      ensures rpc.freeSlots == FreeAfterGiveBack(rpc.c, rpc.m) && rxSlot == None
    {
      if rxSlot.Some? {
        rpc.GiveBack(rxSlot.value);
        rxSlot := None;
      }
    }

    /** MQTT_EVENT_DISCONNECTED. */
    method OnDisconnected()
      requires Coupled() && rpc.m.mqtt.stage.Idle?
      modifies this, rpc`m, rpc`freeSlots
      ensures Coupled() && Safe(rpc.c, old(rpc.m)) && rpc.m == Next(rpc.c, old(rpc.m), Disconnect)
    {
      hide Inv, Safe;
      StepKeepsInv(rpc.c, rpc.m, Disconnect);
      GiveBackRx();
      rpc.m := Next(rpc.c, rpc.m, Disconnect);
    }

    /** The first fragment of a message, up to take_free_slot(). */
    method OnFirst(topic: Text, correlation: Text, ghost msg: Message, ghost n: nat) returns (purpose: Purpose)
      requires Coupled() && Enabled(rpc.c, rpc.m, Begin(msg, n)) && topic == msg.topic && correlation == msg.correlation
      modifies this, rpc`m, rpc`freeSlots
      ensures Coupled() && Safe(rpc.c, old(rpc.m)) && rpc.m == Next(rpc.c, old(rpc.m), Begin(msg, n)) && purpose == PurposeOf(rpc.c, topic)
    {
      hide Inv, Safe, Answers, KeptCorrelation;
      StepKeepsInv(rpc.c, rpc.m, Begin(msg, n));
      GiveBackRx();
      rxResponse := false;
      purpose := PurposeOf(rpc.c, topic);
      if purpose.Response? {
        rxResponse := true;
        rxCorrelation := KeptCorrelation(correlation);
      }
      rpc.m := Next(rpc.c, rpc.m, Begin(msg, n));
    }

    method OnRequest(name: Text, correlation: Text, responseTopic: Text, total: nat, ghost msg: Message)
      requires Coupled() && rpc.m.mqtt.stage.Take? && rpc.m.mqtt.inbound == Some(msg)
      requires PurposeOf(rpc.c, msg.topic) == Request(name) && correlation == msg.correlation && responseTopic == msg.responseTopic
      requires total == |msg.body|
      modifies this, rpc`m, rpc`freeSlots, rpc.heads
      ensures Coupled() && Safe(rpc.c, old(rpc.m)) && rpc.m == Next(rpc.c, old(rpc.m), TakeSlot)
    {
      hide Inv, MethodName, KeptCorrelation, KeptTopic, Newest, PurposeOf, SlotOk;
      StepKeepsInv(rpc.c, rpc.m, TakeSlot);
      assert rpc.m.free != [] ==> rpc.m.slots[rpc.m.free[0]] == rpc.SlotValue(rpc.m.free[0]);
      rxSlot := rpc.StartRequest(name, correlation, responseTopic, total);
      rpc.m := Next(rpc.c, rpc.m, TakeSlot);
      assert rpc.m.slots == rpc.Slots();
    }

    /** A fragment of an answer. */
    method OnResponse(data: Text, offset: nat, total: nat)
      requires Coupled() && rpc.m.mqtt.stage.Fragment? && rxResponse
      requires FragmentIs(data, offset, total)
      modifies rpc`m, rpc`callLen, rpc`callOverflow, rpc`events, rpc.callBuf
      ensures Coupled() && rpc.m.mqtt.stage.Idle? && rpc.m == Settled(rpc.c, old(rpc.m))
    {
      hide Inv, Newest, Stored, Delivered;
      SettleStep(rpc.c, rpc.m);
      rpc.DeliverResponse(rxCorrelation, data, offset, total);
      rpc.m := Next(rpc.c, rpc.m, Store);
      if rpc.m.mqtt.stage.SignalCall? {
        SettleStep(rpc.c, rpc.m);
        rpc.m := Next(rpc.c, rpc.m, RaiseCall);
      }
    }

    /** The fragment at hand. */
    ghost predicate FragmentIs(data: Text, offset: nat, total: nat)
      reads rpc`m
    {
      && rpc.m.mqtt.stage == Fragment(|data|) && rpc.m.mqtt.inbound.Some? && offset == rpc.m.mqtt.upto
      && offset + |data| <= total == |rpc.m.mqtt.inbound.value.body|
      && data == rpc.m.mqtt.inbound.value.body[offset..offset + |data|]
    }

    /** A fragment of a request, or of a message nobody wants. */
    method OnPayload(data: Text, offset: nat, total: nat)
      requires Coupled() && rpc.m.mqtt.stage.Fragment? && !rxResponse
      requires FragmentIs(data, offset, total)
      modifies this, rpc`m, rpc`readySlots, rpc`events, rpc.heads, rpc.payloads
      ensures Coupled() && rpc.m.mqtt.stage.Idle? && rpc.m == Settled(rpc.c, old(rpc.m))
    {
      hide Inv, Newest, Stored, Delivered, PurposeOf, AfterBegin, AfterTake, AfterDisconnect, Rpc.Row, Rpc.SlotValue;
      SettleStep(rpc.c, rpc.m);
      if rxSlot.None? {
        rpc.m := Next(rpc.c, rpc.m, Store);
        return;
      }
      var idx := rxSlot.value;
      rpc.StoreFragment(idx, data, offset, total);
      rpc.m := Next(rpc.c, rpc.m, Store);
      if offset + |data| >= total {
        OnComplete(idx);
      }
    }

    /** The request is complete: submit(). */
    method OnComplete(idx: nat)
      requires Coupled() && rpc.m.mqtt.stage.Enqueue? && rxSlot == Some(idx)
      modifies this`rxSlot, rpc`m, rpc`readySlots, rpc`events
      ensures Coupled() && rpc.m.mqtt.stage.Idle? && rpc.m == Settled(rpc.c, old(rpc.m))
    {
      hide Inv, AfterBegin, AfterTake, AfterStore, AfterDisconnect, Rpc.Row, Rpc.SlotValue, Rpc.Slots, Rpc.Call;
      SettleStep(rpc.c, rpc.m);
      rpc.Submit(idx);
      rpc.m := Next(rpc.c, rpc.m, Event.Submit);
      SettleStep(rpc.c, rpc.m);
      rpc.m := Next(rpc.c, rpc.m, RaiseRequest);
      rxSlot := None;
    }

    /**
     handle_data(): whatever the fragment, the objects end in the state the machine settles in when no other task
     takes a turn meanwhile.
     */
    method HandleData(topic: Text, correlation: Text, responseTopic: Text, data: Text, offset: nat, total: nat, ghost msg: Message)
      requires Coupled() && Enabled(rpc.c, rpc.m, DataEvent(msg, data, offset))
      requires offset == 0 ==> topic == msg.topic && correlation == msg.correlation && responseTopic == msg.responseTopic
      requires offset > 0 ==> rpc.m.mqtt.inbound == Some(msg) && rpc.m.mqtt.upto == offset
      requires offset + |data| <= total == |msg.body| && data == msg.body[offset..offset + |data|]
      modifies this, rpc, rpc.heads, rpc.payloads, rpc.callBuf
      ensures Coupled() && rpc.m.mqtt.stage.Idle? && Safe(rpc.c, old(rpc.m))
      ensures rpc.m == Settled(rpc.c, Next(rpc.c, old(rpc.m), DataEvent(msg, data, offset)))
    {
      hide Inv, Safe, PurposeOf, KeptCorrelation, Answers;
      if offset == 0 {
        var purpose := OnFirst(topic, correlation, msg, |data|);
        if purpose.Foreign? {
          return;
        }
        if purpose.Request? {
          SettleStep(rpc.c, rpc.m);
          OnRequest(purpose.name, correlation, responseTopic, total, msg);
        }
      } else {
        StepKeepsInv(rpc.c, rpc.m, More(|data|));
        rpc.m := Next(rpc.c, rpc.m, More(|data|));
      }
      if rxResponse {
        OnResponse(data, offset, total);
      } else {
        OnPayload(data, offset, total);
      }
    }

    ghost function DataEvent(msg: Message, data: Text, offset: nat): Event {
      if offset == 0 then Begin(msg, |data|) else More(|data|)
    }
  }
}
