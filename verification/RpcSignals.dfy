/** Wake-ups: when the request task can sleep over a request that is ready, and when it cannot. */
module RpcSignals {
  import opened Bytes
  import opened Options
  import opened RpcMachine
  import opened RpcOwnership
  import opened RpcRequests

  /** A request is ready, but nothing will wake a task that waits for it. */
  ghost predicate Unsignalled(s: State) {
    s.ready != [] && RequestBit !in s.bits && !s.mqtt.stage.SignalRequest?
  }

  /** Only a pass that took the bit itself, and has yet to drain, may leave a ready request without one. */
  ghost predicate WakeInv(s: State) {
    Unsignalled(s) ==> !s.req.stage.Waiting? && RequestBit in s.req.bits
  }

  lemma StepKeepsWake(c: Config, s: State, e: Event)
    requires Safe(c, s) && Enabled(c, s, e) && WakeInv(s)
    ensures WakeInv(Next(c, s, e))
    ensures Unsignalled(Next(c, s, e)) && !e.Wake? ==> Unsignalled(s)
    ensures RequestBit in s.bits && !e.Wake? ==> RequestBit in Next(c, s, e).bits
    ensures e.Wake? ==> Next(c, s, e).bits == s.bits * {CallBit}
  {
    hide SlotOk, PurposeOf, Started, Newest, Answers, RequestIn, IsAnswer, Stored, Delivered, FreeAfterGiveBack;
    if e.Wake? {
      WakeTakes(s.bits);
    }
  }

  lemma WakeTakes(bits: set<EventBit>)
    ensures bits - WAKING == bits * {CallBit}
  {
    forall b | b in bits ensures b in WAKING || b == CallBit {
      match b
      case CallBit =>
      case _ =>
    }
  }

  lemma InitWakes(c: Config)
    ensures WakeInv(Init(c))
  {
  }

  lemma {:induction false} EveryRunWakes(c: Config, es: seq<Event>)
    requires Run(c, es).Some?
    ensures WakeInv(Run(c, es).value)
    decreases |es|
  {
    hide Inv, WakeInv;
    if es == [] {
      InitWakes(c);
    } else {
      var before := es[..|es| - 1];
      EveryRunWakes(c, before);
      StepKeepsWake(c, Run(c, before).value, es[|es| - 1]);
    }
  }

  /**
   No wake-up is lost in run_task's wait, and a device at rest has handled and answered every request it accepted.
   */
  lemma NoLostWakeup(c: Config, es: seq<Event>)
    requires Run(c, es).Some? && Run(c, es).value.req.stage.Waiting?
    ensures var s := Run(c, es).value;
            && (s.ready != [] ==> RequestBit in s.bits || s.mqtt.stage.SignalRequest?)
            && (RequestBit !in s.bits && !s.mqtt.stage.SignalRequest? && !s.mqtt.stage.Enqueue? ==>
                  s.hist.handled == Accepted(c, s.hist.arrivals) && AnsweredBy(c, s.hist.handled, s.hist.replies))
  {
    EveryRunWakes(c, es);
    ExactlyOnceInOrder(c, es);
    var s := Run(c, es).value;
    if RequestBit !in s.bits && !s.mqtt.stage.SignalRequest? && !s.mqtt.stage.Enqueue? {
      assert Pipeline(s) == [];
      var accepted := Accepted(c, s.hist.arrivals);
      assert accepted == s.hist.handled + accepted[|s.hist.handled|..];
    }
  }

  // ---- Inside call() ----

  /** Events after which the request task is still in on_connected(), before it drains. */
  predicate BeforeDrain(e: Event) {
    !e.Wake? && !e.StartDrain?
  }

  /** A call of this pass can block while a request is ready and nothing will wake it up. */
  ghost predicate MayBlockUnsignalled(c: Config, s: State) {
    exists es: seq<Event> :: LeadsToBlock(c, s, es)
  }

  ghost predicate LeadsToBlock(c: Config, s: State, es: seq<Event>) {
    && (forall k :: 0 <= k < |es| ==> BeforeDrain(es[k]))
    && var t := RunFrom(c, s, es);
       t.Some? && t.value.req.stage.CallWait? && Unsignalled(t.value)
  }

  lemma {:induction false} StaysSignalled(c: Config, s: State, es: seq<Event>)
    requires WakeInv(s) && !Unsignalled(s) && RunFrom(c, s, es).Some? && forall k :: 0 <= k < |es| ==> BeforeDrain(es[k])
    ensures !Unsignalled(RunFrom(c, s, es).value)
    decreases es
  {
    hide Unsignalled, WakeInv;
    if es != [] {
      StepKeepsWake(c, s, es[0]);
      StaysSignalled(c, Next(c, s, es[0]), es[1..]);
    }
  }

  const CALL: seq<Event> := [StartCall, ClearCall, Publish(true)]

  /** From on_connected() a call blocks three steps later, with the queue and the bits as they are. */
  lemma EnterCall(c: Config, s: State)
    requires Safe(c, s) && Enabled(c, s, StartCall)
    ensures var t := RunFrom(c, s, CALL);
            t.Some? && t.value.req.stage.CallWait? && t.value.ready == s.ready && t.value.mqtt == s.mqtt
            && t.value.bits == s.bits - {CallBit}
  {
    hide SlotOk, PurposeOf, CallName;
    var s1 := Next(c, s, StartCall);
    var s2 := Next(c, s1, ClearCall);
    var s3 := Next(c, s2, Publish(true));
    assert CALL[1..] == [ClearCall, Publish(true)] && CALL[1..][1..] == [Publish(true)];
    assert RunFrom(c, s3, []) == Some(s3);
    assert RunFrom(c, s2, [Publish(true)]) == Some(s3);
    assert RunFrom(c, s1, [ClearCall, Publish(true)]) == Some(s3);
  }

  /**
   Inside call() a wake-up can be lost: run_task's wait takes the request bit together with the connected bit, and
   on_connected() calls the platform before the request is drained. It can happen in a pass that is about to call
   exactly when a request was already ready, with its bit taken, at that moment.
   */
  lemma CallBlocksUnsignalledIff(c: Config, es: seq<Event>)
    requires Run(c, es).Some? && Enabled(c, Run(c, es).value, StartCall)
    ensures MayBlockUnsignalled(c, Run(c, es).value) <==> Unsignalled(Run(c, es).value)
  {
    var s := Run(c, es).value;
    EveryRun(c, es);
    InvIsSafe(c, s);
    EveryRunWakes(c, es);
    if Unsignalled(s) {
      EnterCall(c, s);
      assert LeadsToBlock(c, s, CALL);
    } else {
      forall es': seq<Event> ensures !LeadsToBlock(c, s, es') {
        if LeadsToBlock(c, s, es') {
          StaysSignalled(c, s, es');
        }
      }
    }
  }

  /** A whole request with an empty payload becomes ready. */
  lemma ReadyRun(c: Config) returns (es: seq<Event>, s: State)
    requires c.slots > 0
    ensures Run(c, es) == Some(s) && s.req.stage.Waiting? && s.ready != [] && s.mqtt.stage.Idle? && !s.mqtt.rxResponse
  {
    hide Run, Inv, Safe, SlotOk, PurposeOf, Started, Stored, Newest;
    var request := Message(c.down + REQ + [LOWER_A], [], [], []);
    IsRequestTopic(c);
    RunStart(c);
    es, s := RunStep(c, [], Init(c), Begin(request, 0));
    es, s := RunStep(c, es, s, TakeSlot);
    es, s := RunStep(c, es, s, Store);
    es, s := RunStep(c, es, s, Submit);
    es, s := RunStep(c, es, s, RaiseRequest);
  }

  lemma IsRequestTopic(c: Config)
    ensures PurposeOf(c, c.down + REQ + [LOWER_A]) == Request([LOWER_A])
  {
    var topic := c.down + REQ + [LOWER_A];
    assert topic[..|c.down|] == c.down && topic[|c.down|..] == REQ + [LOWER_A];
    assert (REQ + [LOWER_A])[..4] == REQ && (REQ + [LOWER_A])[4..] == [LOWER_A];
  }

  /** Such a run: a request becomes ready and the connection comes up before the task wakes, then it calls first. */
  lemma BlockedUnsignalledRun(c: Config) returns (es: seq<Event>)
    requires c.slots > 0
    ensures Run(c, es).Some? && Run(c, es).value.req.stage.CallWait? && Unsignalled(Run(c, es).value)
  {
    hide Run, Inv, Safe, SlotOk, CallName, PurposeOf;
    var s: State;
    es, s := ReadyRun(c);
    es, s := RunStep(c, es, s, Raise(ConnectedBit));
    es, s := RunStep(c, es, s, Wake);
    es, s := RunStep(c, es, s, StartCall);
    es, s := RunStep(c, es, s, ClearCall);
    es, s := RunStep(c, es, s, Publish(true));
  }
}
