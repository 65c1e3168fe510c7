/** Slot conservation: over every interleaving each slot is in one queue or in the hands of one task. */
module RpcOwnership {
  import opened Bytes
  import opened Options
  import opened RpcMachine

  /** The slot the MQTT task may write. Between the enqueue and the end of submit() rx_slot is no longer its own. */
  function MqttHeld(s: State): seq<nat> {
    if s.mqtt.rxSlot.Some? && !s.mqtt.stage.SignalRequest? then [s.mqtt.rxSlot.value] else []
  }

  /** The slot the request task may read. */
  function ReqHeld(s: State): seq<nat> {
    if s.req.stage.Handling? || s.req.stage.Responding? || s.req.stage.Returning? then [s.req.stage.idx] else []
  }

  /** Where the slots are. */
  function Places(s: State): multiset<nat> {
    multiset(s.free) + multiset(s.ready) + multiset(MqttHeld(s)) + multiset(ReqHeld(s))
  }

  function AllSlots(n: nat): multiset<nat> {
    multiset(seq(n, i => i))
  }

  ghost predicate Owned(c: Config, s: State) {
    Places(s) == AllSlots(c.slots)
  }

  /** Buffer sizes, and which stages go with a message or a slot at hand. */
  ghost predicate Shaped(c: Config, s: State) {
    && |s.slots| == c.slots
    && (forall i :: 0 <= i < |s.slots| ==> SlotOk(c, s.slots[i]))
    && |s.call.buf| == CALL_BUF_SIZE
    && s.call.len <= CALL_BUF_SIZE
    && (s.req.stage.CallParse? ==> s.req.stage.len <= CALL_BUF_SIZE)
    && var m := s.mqtt;
       && (m.stage.Take? || m.stage.Fragment? ==> m.inbound.Some? && m.upto + m.stage.n <= |m.inbound.value.body|)
       && (m.stage.Take? ==> m.rxSlot.None? && PurposeOf(c, m.inbound.value.topic).Request?)
       && (m.stage.Enqueue? || m.stage.SignalRequest? ==> m.rxSlot.Some?)
  }

  ghost predicate Inv(c: Config, s: State) {
    Owned(c, s) && Shaped(c, s)
  }

  lemma {:induction false} AllSlotsCount(n: nat, i: nat)
    ensures AllSlots(n)[i] == if i < n then 1 else 0
  {
    if n > 0 {
      AllSlotsCount(n - 1, i);
      assert seq(n, k => k) == seq(n - 1, k => k) + [n - 1];
    }
  }

  lemma IsSlot(c: Config, s: State, i: nat)
    requires Owned(c, s) && i in Places(s)
    ensures i < c.slots && Places(s)[i] == 1
  {
    AllSlotsCount(c.slots, i);
  }

  /** No slot is lost or doubled, so a queue about to receive one has room for it. */
  lemma Room(c: Config, s: State)
    requires Owned(c, s)
    ensures |s.free| + |s.ready| + |MqttHeld(s)| + |ReqHeld(s)| == c.slots
  {
    assert |Places(s)| == |multiset(s.free)| + |multiset(s.ready)| + |multiset(MqttHeld(s))| + |multiset(ReqHeld(s))|;
    assert |AllSlots(c.slots)| == |seq(c.slots, i => i)|;
  }

  lemma InvIsSafe(c: Config, s: State)
    requires Inv(c, s)
    ensures Safe(c, s)
  {
    forall k | 0 <= k < |s.free| ensures s.free[k] < c.slots {
      assert s.free[k] in multiset(s.free);
      IsSlot(c, s, s.free[k]);
    }
    forall k | 0 <= k < |s.ready| ensures s.ready[k] < c.slots {
      assert s.ready[k] in multiset(s.ready);
      IsSlot(c, s, s.ready[k]);
    }
    if MqttHeld(s) != [] {
      assert MqttHeld(s)[0] in multiset(MqttHeld(s));
      IsSlot(c, s, MqttHeld(s)[0]);
    }
    if ReqHeld(s) != [] {
      assert ReqHeld(s)[0] in multiset(ReqHeld(s));
      IsSlot(c, s, ReqHeld(s)[0]);
    }
  }

  lemma GivenBack(c: Config, s: State)
    requires Owned(c, s) && s.mqtt.stage.Idle?
    ensures multiset(FreeAfterGiveBack(c, s)) == multiset(s.free) + multiset(MqttHeld(s))
  {
    Room(c, s);
  }

  lemma First(q: seq<nat>)
    requires q != []
    ensures multiset(q) == multiset([q[0]]) + multiset(q[1..])
  {
    assert q == [q[0]] + q[1..];
  }

  lemma GiveBackKeepsOwned(c: Config, s: State, e: Event)
    requires Owned(c, s) && Safe(c, s) && Enabled(c, s, e) && (e.Disconnect? || e.Begin?)
    ensures Places(Next(c, s, e)) == Places(s)
  {
    hide Owned, SlotOk, PurposeOf, Answers, AllSlots, FreeAfterGiveBack;
    GivenBack(c, s);
    assert MqttHeld(Next(c, s, e)) == [];
  }

  lemma TakeKeepsOwned(c: Config, s: State)
    requires MqttOk(c, s) && s.mqtt.stage.Take?
    ensures Places(AfterTake(c, s)) == Places(s)
  {
    hide SlotOk, PurposeOf, Started, Newest;
    if s.free != [] {
      First(s.free);
      assert MqttHeld(s) == [] && MqttHeld(AfterTake(c, s)) == [s.free[0]];
    }
  }

  lemma SubmitKeepsOwned(c: Config, s: State)
    requires Owned(c, s) && s.mqtt.stage.Enqueue? && s.mqtt.rxSlot.Some?
    ensures Places(AfterSubmit(c, s)) == Places(s)
  {
    Room(c, s);
    assert MqttHeld(s) == [s.mqtt.rxSlot.value] && MqttHeld(AfterSubmit(c, s)) == [];
  }

  lemma ReceiveKeepsOwned(c: Config, s: State)
    requires ReqOk(s) && s.req.stage.Draining?
    ensures Places(AfterReceive(s)) == Places(s)
  {
    if s.ready != [] {
      First(s.ready);
    }
  }

  lemma ReturnKeepsOwned(c: Config, s: State)
    requires Owned(c, s) && Safe(c, s) && s.req.stage.Returning?
    ensures Places(Next(c, s, GiveBack)) == Places(s)
  {
    hide Owned, SlotOk, AllSlots, MqttOk;
    Room(c, s);
    assert Next(c, s, GiveBack).free == s.free + [s.req.stage.idx];
  }

  lemma StepKeepsOwned(c: Config, s: State, e: Event)
    requires Owned(c, s) && Safe(c, s) && Enabled(c, s, e)
    ensures Places(Next(c, s, e)) == Places(s)
  {
    hide Owned, SlotOk, PurposeOf, Started, Newest, Answers, RequestIn, IsAnswer, AllSlots, Stored, Delivered;
    if e.Disconnect? || e.Begin? {
      GiveBackKeepsOwned(c, s, e);
    } else if e.TakeSlot? {
      TakeKeepsOwned(c, s);
    } else if e.Submit? {
      SubmitKeepsOwned(c, s);
    } else if e.Receive? {
      ReceiveKeepsOwned(c, s);
    } else if e.GiveBack? {
      ReturnKeepsOwned(c, s);
    } else {
      assert Next(c, s, e).free == s.free && Next(c, s, e).ready == s.ready;
      assert MqttHeld(Next(c, s, e)) == MqttHeld(s) && ReqHeld(Next(c, s, e)) == ReqHeld(s);
    }
  }

  lemma StepKeepsShaped(c: Config, s: State, e: Event)
    requires Inv(c, s) && Safe(c, s) && Enabled(c, s, e)
    ensures Shaped(c, Next(c, s, e))
  {
    hide Owned, PurposeOf, Overwrite;
  }

  lemma InitInv(c: Config)
    ensures Inv(c, Init(c))
  {
  }

  /** The invariant holds in every state of every run. */
  lemma {:induction false} EveryRun(c: Config, es: seq<Event>)
    requires Run(c, es).Some?
    ensures Inv(c, Run(c, es).value)
    decreases |es|
  {
    if es == [] {
      InitInv(c);
    } else {
      var before := es[..|es| - 1];
      EveryRun(c, before);
      StepKeepsOwned(c, Run(c, before).value, es[|es| - 1]);
      StepKeepsShaped(c, Run(c, before).value, es[|es| - 1]);
    }
  }

  /** Conservation: in every state of every run each slot is in exactly one place, and the tasks never hold the same one. */
  lemma OneOwner(c: Config, es: seq<Event>)
    requires Run(c, es).Some?
    ensures var s := Run(c, es).value;
            && (forall i: nat :: Places(s)[i] == if i < c.slots then 1 else 0)
            && (forall i: nat :: i in MqttHeld(s) ==> i !in ReqHeld(s) && i !in s.free && i !in s.ready)
            && (forall i: nat :: i in ReqHeld(s) ==> i !in s.free && i !in s.ready)
  {
    EveryRun(c, es);
    forall i: nat ensures Places(Run(c, es).value)[i] == if i < c.slots then 1 else 0 {
      AllSlotsCount(c.slots, i);
    }
    Apart(c, Run(c, es).value);
  }

  /** The four places have no slot in common. */
  lemma Apart(c: Config, s: State)
    requires Owned(c, s)
    ensures forall i: nat :: i in MqttHeld(s) ==> i !in ReqHeld(s) && i !in s.free && i !in s.ready
    ensures forall i: nat :: i in ReqHeld(s) ==> i !in s.free && i !in s.ready
    ensures forall i: nat :: i in s.free ==> i !in s.ready
  {
    hide Owned, MqttHeld, ReqHeld;
    forall i: nat
      ensures i in MqttHeld(s) ==> i !in ReqHeld(s) && i !in s.free && i !in s.ready
      ensures i in ReqHeld(s) ==> i !in s.free && i !in s.ready
      ensures i in s.free ==> i !in s.ready
    {
      ApartAt(c, s, i);
    }
  }

  lemma ApartAt(c: Config, s: State, i: nat)
    requires Owned(c, s)
    ensures i in MqttHeld(s) ==> i !in ReqHeld(s) && i !in s.free && i !in s.ready
    ensures i in ReqHeld(s) ==> i !in s.free && i !in s.ready
    ensures i in s.free ==> i !in s.ready
  {
    hide Owned, MqttHeld, ReqHeld;
    if i in Places(s) {
      IsSlot(c, s, i);
    }
    assert i in s.free <==> multiset(s.free)[i] > 0;
    assert i in s.ready <==> multiset(s.ready)[i] > 0;
    assert i in MqttHeld(s) <==> multiset(MqttHeld(s))[i] > 0;
    assert i in ReqHeld(s) <==> multiset(ReqHeld(s))[i] > 0;
  }

  /**
   No run gets stuck on an unsafe access, no queue send in it ever fails, and a request is refused only while
   every slot waits or is being handled.
   */
  lemma SendsSucceed(c: Config, es: seq<Event>, e: Event)
    requires Run(c, es).Some? && Enabled(c, Run(c, es).value, e)
    ensures var s := Run(c, es).value;
            && Safe(c, s)
            && (e.TakeSlot? && s.free == [] ==> |s.ready| + |ReqHeld(s)| == c.slots)
            && (e.Submit? ==> Next(c, s, e).ready == s.ready + [s.mqtt.rxSlot.value])
            && (e.GiveBack? ==> Next(c, s, e).free == s.free + [s.req.stage.idx])
            && (e.Disconnect? || e.Begin? ==> Next(c, s, e).free == s.free + MqttHeld(s))
  {
    hide Owned;
    EveryRun(c, es);
    InvIsSafe(c, Run(c, es).value);
    Room(c, Run(c, es).value);
  }

  /** A run goes on with any event that is enabled. */
  lemma RunStep(c: Config, es: seq<Event>, s: State, e: Event) returns (es': seq<Event>, t: State)
    requires Run(c, es) == Some(s) && Enabled(c, s, e)
    ensures Safe(c, s) && t == Next(c, s, e) && es' == es + [e] && Run(c, es') == Some(t)
  {
    hide Inv, Enabled, Safe;
    EveryRun(c, es);
    InvIsSafe(c, s);
    es', t := es + [e], Next(c, s, e);
    assert es'[..|es'| - 1] == es;
  }

  /** The last event of a run. */
  lemma RunLast(c: Config, es: seq<Event>, e: Event)
    requires Run(c, es + [e]).Some?
    ensures Run(c, es).Some? && Safe(c, Run(c, es).value) && Enabled(c, Run(c, es).value, e)
    ensures Run(c, es + [e]) == Some(Next(c, Run(c, es).value, e))
  {
    hide Safe, Enabled, Next;
    assert (es + [e])[..|es + [e]| - 1] == es;
  }

  lemma {:induction false} RunPrefix(c: Config, es: seq<Event>, more: seq<Event>)
    requires Run(c, es + more).Some?
    ensures Run(c, es).Some?
    decreases |more|
  {
    hide Run;
    if more == [] {
      assert es + more == es;
    } else {
      var before := more[..|more| - 1];
      assert es + more == es + before + [more[|more| - 1]];
      RunLast(c, es + before, more[|more| - 1]);
      RunPrefix(c, es, before);
    }
  }

  lemma RunStart(c: Config)
    ensures Run(c, []) == Some(Init(c))
  {
  }
}
