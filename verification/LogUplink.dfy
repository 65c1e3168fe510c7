/**
 sc_log_uplink: packets wait in a ring of whole items and are drained into one bounded batch buffer. A batch is
 described by the packets it holds; `Encode` gives its bytes.
 */
module LogUplink {
  import opened Bytes
  import opened Options

  /** A DROPPED packet or line with its count, an item of the ring, or a TIME_SYNC packet; each with its bytes. */
  datatype Packet = Dropped(count: nat, bytes: Text) | Item(bytes: Text) | TimeSync(bytes: Text)

  const TIME_SYNC_LEN := 22
  const WRAP := 0x1_0000_0000

  function Encode(ps: seq<Packet>): Text {
    if ps == [] then [] else Encode(ps[..|ps| - 1]) + ps[|ps| - 1].bytes
  }

  function Items(ps: seq<Packet>): seq<Text> {
    if ps == [] then []
    else Items(ps[..|ps| - 1]) + if ps[|ps| - 1].Item? then [ps[|ps| - 1].bytes] else []
  }

  /** The items of consecutive publishes. */
  function AllItems(sent: seq<seq<Packet>>): seq<Text> {
    if sent == [] then [] else AllItems(sent[..|sent| - 1]) + Items(sent[|sent| - 1])
  }

  function Payloads(sent: seq<seq<Packet>>): seq<Text> {
    seq(|sent|, k requires 0 <= k < |sent| => Encode(sent[k]))
  }

  /** A batch before its closing TIME_SYNC. */
  predicate IsBody(ps: seq<Packet>, room: nat) {
    && (forall i :: 0 <= i < |ps| ==> !ps[i].TimeSync? && ps[i].bytes != [])
    && |Encode(ps)| <= room
  }

  predicate Oversized(ps: seq<Packet>, room: nat) {
    |ps| == 1 && ps[0].Item? && |ps[0].bytes| > room
  }

  predicate Closed(ps: seq<Packet>, room: nat) {
    |ps| >= 2 && IsBody(ps[..|ps| - 1], room) && ps[|ps| - 1].TimeSync? && |ps[|ps| - 1].bytes| <= 22
  }

  function Body(ps: seq<Packet>): seq<Packet> {
    if ps != [] && ps[|ps| - 1].TimeSync? then ps[..|ps| - 1] else ps
  }

  /** `next` may follow what was sent: its first packet did not fit behind the last publish any more. */
  predicate Follows(sent: seq<seq<Packet>>, next: seq<Packet>, room: nat) {
    sent == [] || (next != [] && next[0].Item? && |Encode(Body(sent[|sent| - 1]))| + |next[0].bytes| > room)
  }

  /** Every publish is an oversized item on its own or a closed batch, and no batch was closed early. */
  predicate Packed(sent: seq<seq<Packet>>, room: nat) {
    sent == []
    || (var before, last := sent[..|sent| - 1], sent[|sent| - 1];
        Packed(before, room) && (Oversized(last, room) || Closed(last, room)) && Follows(before, last, room))
  }

  /** The first publish, and it alone, starts with the count of dropped packets if there were any. */
  predicate Head(first: bool, ps: seq<Packet>, dropped: nat) {
    && (first && dropped > 0 ==> ps != [] && ps[0].Dropped? && ps[0].count == dropped)
    && (forall i :: 0 <= i < |ps| && ps[i].Dropped? ==> first && i == 0 && dropped > 0)
  }

  predicate Heads(sent: seq<seq<Packet>>, dropped: nat) {
    sent == [] || (Heads(sent[..|sent| - 1], dropped) && Head(|sent| == 1, sent[|sent| - 1], dropped))
  }

  lemma EncodeSnoc(ps: seq<Packet>, p: Packet)
    ensures Encode(ps + [p]) == Encode(ps) + p.bytes
    ensures Items(ps + [p]) == Items(ps) + if p.Item? then [p.bytes] else []
  {
    assert (ps + [p])[..|ps|] == ps;
  }

  lemma SentSnoc(sent: seq<seq<Packet>>, ps: seq<Packet>, dropped: nat, room: nat)
    ensures AllItems(sent + [ps]) == AllItems(sent) + Items(ps)
    ensures Payloads(sent + [ps]) == Payloads(sent) + [Encode(ps)]
    ensures Packed(sent + [ps], room) <==> Packed(sent, room) && (Oversized(ps, room) || Closed(ps, room)) && Follows(sent, ps, room)
    ensures Heads(sent + [ps], dropped) <==> Heads(sent, dropped) && Head(sent == [], ps, dropped)
  {
    assert (sent + [ps])[..|sent|] == sent;
  }

  /**
   What one drain of the binary ring published: its items, whole and in order, none lost or repeated, in batches
   that are as full as they can be.
   */
  predicate BinUpload(sent: seq<seq<Packet>>, items: seq<Text>, dropped: nat, room: nat) {
    && AllItems(sent) == items
    && Packed(sent, room)
    && Heads(sent, dropped)
    && (dropped > 0 ==> sent != [])
  }

  /** Part of a drain: `sent` is published, `open` is in the batch buffer. */
  predicate Draining(sent: seq<seq<Packet>>, open: seq<Packet>, items: seq<Text>, dropped: nat, room: nat) {
    && AllItems(sent) + Items(open) == items
    && Packed(sent, room)
    && Heads(sent, dropped)
    && IsBody(open, room)
    && (open != [] ==> Follows(sent, open, room) && Head(sent == [], open, dropped))
    && (open == [] && sent != [] ==> Oversized(sent[|sent| - 1], room))
    && (dropped > 0 ==> sent != [] || open != [])
  }

  lemma BodyBytes(ps: seq<Packet>, room: nat)
    requires IsBody(ps, room)
    ensures Encode(ps) == [] <==> ps == []
  {
  }

  /** The batch at hand is closed with a TIME_SYNC packet. */
  lemma CloseBatch(sent: seq<seq<Packet>>, open: seq<Packet>, items: seq<Text>, dropped: nat, room: nat, ts: Text)
    requires Draining(sent, open, items, dropped, room) && open != [] && |ts| <= TIME_SYNC_LEN
    ensures BinUpload(sent + [open + [TimeSync(ts)]], items, dropped, room)
    ensures forall next: seq<Packet> ::
              next != [] && next[0].Item? && |Encode(open)| + |next[0].bytes| > room ==>
                Follows(sent + [open + [TimeSync(ts)]], next, room)
  {
    hide Packed, Heads, AllItems, Items, Encode;
    var ps := open + [TimeSync(ts)];
    EncodeSnoc(open, TimeSync(ts));
    SentSnoc(sent, ps, dropped, room);
    assert ps[..|ps| - 1] == open;
  }

  /** An item goes into the batch buffer. */
  lemma AddItem(sent: seq<seq<Packet>>, open: seq<Packet>, items: seq<Text>, dropped: nat, room: nat, item: Text)
    requires item != [] && |Encode(open)| + |item| <= room
    requires AllItems(sent) + Items(open) == items && Packed(sent, room) && Heads(sent, dropped) && IsBody(open, room)
    requires if open != [] then Follows(sent, open, room) && Head(sent == [], open, dropped)
             else Follows(sent, [Item(item)], room) && (dropped > 0 ==> sent != [])
    ensures Draining(sent, open + [Item(item)], items + [item], dropped, room)
  {
    EncodeSnoc(open, Item(item));
    assert AllItems(sent) + Items(open) + [item] == AllItems(sent) + (Items(open) + [item]);
  }

  /** An item larger than a batch goes out on its own. */
  lemma SendAlone(sent: seq<seq<Packet>>, items: seq<Text>, dropped: nat, room: nat, item: Text)
    requires BinUpload(sent, items, dropped, room) && Follows(sent, [Item(item)], room) && |item| > room
    ensures Draining(sent + [[Item(item)]], [], items + [item], dropped, room)
  {
    var one := [Item(item)];
    EncodeSnoc([], Item(item));
    assert [] + one == one;
    SentSnoc(sent, one, dropped, room);
  }

  // ---- Text lines ----

  /** Text batches have no closing packet and lines always fit. */
  predicate TextPacked(sent: seq<seq<Packet>>, room: nat) {
    sent == []
    || (var before, last := sent[..|sent| - 1], sent[|sent| - 1];
        TextPacked(before, room) && last != [] && IsBody(last, room) && Follows(before, last, room))
  }

  predicate TextUpload(sent: seq<seq<Packet>>, items: seq<Text>, dropped: nat, room: nat) {
    && AllItems(sent) == items
    && TextPacked(sent, room)
    && Heads(sent, dropped)
    && (dropped > 0 ==> sent != [])
  }

  predicate TextDraining(sent: seq<seq<Packet>>, open: seq<Packet>, items: seq<Text>, dropped: nat, room: nat) {
    && AllItems(sent) + Items(open) == items
    && TextPacked(sent, room)
    && Heads(sent, dropped)
    && IsBody(open, room)
    && (open != [] ==> Follows(sent, open, room) && Head(sent == [], open, dropped))
    && (sent != [] || dropped > 0 ==> open != [])
  }

  lemma TextSnoc(sent: seq<seq<Packet>>, ps: seq<Packet>, room: nat)
    ensures TextPacked(sent + [ps], room) <==> TextPacked(sent, room) && ps != [] && IsBody(ps, room) && Follows(sent, ps, room)
  {
    assert (sent + [ps])[..|sent|] == sent;
  }

  lemma SendLines(sent: seq<seq<Packet>>, open: seq<Packet>, items: seq<Text>, dropped: nat, room: nat)
    requires TextDraining(sent, open, items, dropped, room) && open != []
    ensures TextUpload(sent + [open], items, dropped, room)
    ensures forall next: seq<Packet> ::
              next != [] && next[0].Item? && |Encode(open)| + |next[0].bytes| > room ==>
                Follows(sent + [open], next, room)
  {
    SentSnoc(sent, open, dropped, room);
    TextSnoc(sent, open, room);
  }

  lemma AddLine(sent: seq<seq<Packet>>, open: seq<Packet>, items: seq<Text>, dropped: nat, room: nat, item: Text)
    requires item != [] && |Encode(open)| + |item| <= room
    requires AllItems(sent) + Items(open) == items && TextPacked(sent, room) && Heads(sent, dropped) && IsBody(open, room)
    requires if open != [] then Follows(sent, open, room) && Head(sent == [], open, dropped)
             else Follows(sent, [Item(item)], room) && (dropped > 0 ==> sent != [])
    ensures TextDraining(sent, open + [Item(item)], items + [item], dropped, room)
  {
    EncodeSnoc(open, Item(item));
    assert AllItems(sent) + Items(open) + [item] == AllItems(sent) + (Items(open) + [item]);
  }

  /** The item a formatted line becomes; a cut line still ends the line. */
  function LineItem(line: Text, lineMax: nat): Text
    requires lineMax >= 2
  {
    if |line| < lineMax then line else line[..lineMax - 2] + [LF]
  }

  // ---- Drop accounting ----

  /** Binary records started while enabled, packets reserved in the ring, drops reported and not yet reported. */
  datatype Drops = Drops(started: nat, reserved: nat, reported: nat, current: nat)

  /** A logger starts a record, with room for it or not; the upload task takes the count. */
  datatype DropEvent = Record(room: bool) | Exchange

  function AfterEvent(d: Drops, e: DropEvent): Drops {
    match e
    case Record(true) => d.(started := d.started + 1, reserved := d.reserved + 1)
    case Record(false) => d.(started := d.started + 1, current := (d.current + 1) % WRAP)
    case Exchange => d.(reported := d.reported + d.current, current := 0)
  }

  function AfterEvents(es: seq<DropEvent>): Drops {
    if es == [] then Drops(0, 0, 0, 0) else AfterEvent(AfterEvents(es[..|es| - 1]), es[|es| - 1])
  }

  /** The records among these events. */
  function Records(es: seq<DropEvent>): seq<DropEvent> {
    if es == [] then [] else Records(es[..|es| - 1]) + if es[|es| - 1].Record? then [es[|es| - 1]] else []
  }

  lemma {:induction false} StartedAreRecords(es: seq<DropEvent>)
    ensures AfterEvents(es).started == |Records(es)|
    decreases |es|
  {
    if es != [] {
      StartedAreRecords(es[..|es| - 1]);
    }
  }

  /** The counts in the DROPPED packets of a publish, and of consecutive publishes. */
  function DroppedIn(ps: seq<Packet>): nat {
    if ps == [] then 0 else DroppedIn(ps[1..]) + if ps[0].Dropped? then ps[0].count else 0
  }

  function AllDropped(sent: seq<seq<Packet>>): nat {
    if sent == [] then 0 else AllDropped(sent[..|sent| - 1]) + DroppedIn(sent[|sent| - 1])
  }

  lemma {:induction false} SentAppend(a: seq<seq<Packet>>, b: seq<seq<Packet>>)
    ensures AllItems(a + b) == AllItems(a) + AllItems(b) && AllDropped(a + b) == AllDropped(a) + AllDropped(b)
    decreases |b|
  {
    if b == [] {
      assert a + b == a;
    } else {
      var before, last := b[..|b| - 1], b[|b| - 1];
      SentAppend(a, before);
      assert (a + b)[..|a + b| - 1] == a + before;
      assert AllItems(a) + AllItems(before) + Items(last) == AllItems(a) + (AllItems(before) + Items(last));
    }
  }

  lemma {:induction false} NoneDroppedIn(ps: seq<Packet>)
    requires forall i :: 0 <= i < |ps| ==> !ps[i].Dropped?
    ensures DroppedIn(ps) == 0
  {
    if ps != [] {
      NoneDroppedIn(ps[1..]);
    }
  }

  /** The drop count at the head of an upload is the only one in it. */
  lemma {:induction false} HeadsCount(sent: seq<seq<Packet>>, dropped: nat)
    requires Heads(sent, dropped)
    ensures AllDropped(sent) == if sent == [] then 0 else dropped
    decreases |sent|
  {
    if sent != [] {
      var last := sent[|sent| - 1];
      HeadsCount(sent[..|sent| - 1], dropped);
      if |sent| == 1 && dropped > 0 {
        assert forall i :: 0 <= i < |last[1..]| ==> last[1..][i] == last[i + 1];
        NoneDroppedIn(last[1..]);
      } else {
        NoneDroppedIn(last);
      }
    }
  }

  /** What an upload adds to the totals of published items and reported drops. */
  lemma UploadCounts(history: seq<DropEvent>, before: seq<seq<Packet>>, sent: seq<seq<Packet>>, items: seq<Text>, dropped: nat, room: nat)
    requires BinUpload(sent, items, dropped, room)
    ensures AllItems(before + sent) == AllItems(before) + items && AllDropped(before + sent) == AllDropped(before) + dropped
    ensures AfterEvents(history + [Exchange]) == AfterEvent(AfterEvents(history), Exchange)
  {
    SentAppend(before, sent);
    HeadsCount(sent, dropped);
    AfterOneMore(history, Exchange);
  }

  lemma AfterOneMore(es: seq<DropEvent>, e: DropEvent)
    ensures AfterEvents(es + [e]) == AfterEvent(AfterEvents(es), e)
  {
    assert (es + [e])[..|es|] == es;
  }

  /**
   Over every interleaving of loggers and the upload task no record is unaccounted for: each is in the ring or in a
   count, up to multiples of 2^32, and exactly as long as fewer than 2^32 records were dropped.
   */
  lemma {:induction false} DropsAccounted(es: seq<DropEvent>)
    ensures var d := AfterEvents(es);
            && d.reserved <= d.started && d.current < 0x1_0000_0000
            && (d.started - d.reserved) % 0x1_0000_0000 == (d.reported + d.current) % 0x1_0000_0000
            && (d.started - d.reserved < 0x1_0000_0000 ==> d.started == d.reserved + d.reported + d.current)
    ensures Accounted(AfterEvents(es))
    decreases |es|
  {
    if es != [] {
      var before := es[..|es| - 1];
      DropsAccounted(before);
      hide AfterEvents;
      assert AfterEvents(es) == AfterEvent(AfterEvents(before), es[|es| - 1]) by {
        AfterOneMore(before, es[|es| - 1]);
        assert before + [es[|es| - 1]] == es;
      }
      EventAccounted(AfterEvents(before), es[|es| - 1]);
    }
  }

  ghost predicate Accounted(d: Drops) {
    && d.reserved <= d.started && d.current < WRAP
    && (d.started - d.reserved) % WRAP == (d.reported + d.current) % WRAP
    && d.reported + d.current <= d.started - d.reserved
  }

  lemma EventAccounted(d: Drops, e: DropEvent)
    requires Accounted(d)
    ensures Accounted(AfterEvent(d, e))
  {
    CountWraps(d.started - d.reserved, d.reported, d.current);
  }

  lemma GivenSoFar(given: Text, more: Text, pos: nat, n: nat)
    requires pos <= |given| && n <= |more| && (n == 0 || pos == |given|)
    ensures (given + more)[..pos + n] == given[..pos] + more[..n]
  {
  }

  lemma CountWraps(lost: nat, reported: nat, current: nat)
    requires lost % WRAP == (reported + current) % WRAP && current < WRAP
    ensures (lost + 1) % WRAP == (reported + (current + 1) % WRAP) % WRAP
  {
  }

  /** memcpy(a + at, t, |t|). */
  method Memcpy(a: array<Byte>, at: nat, t: Text)
    requires at + |t| <= a.Length
    modifies a
    ensures a[..at + |t|] == old(a[..at]) + t && a[at + |t|..] == old(a[at + |t|..])
  {
    forall i | 0 <= i < |t| {
      a[at + i] := t[i];
    }
  }

  class Uplink {
    const batch: array<Byte>
    const lineMax: nat
    /** The DROPPED packet and the line for a count of drops, and the payload_len field of a packet header. */
    const droppedPacket: nat -> Text
    const droppedLine: nat -> Text
    const payloadLen: Text -> nat
    const headerLen: nat
    var binRing: seq<Text>
    var textRing: seq<Text>
    var binEnabled: bool
    var binDropped: nat
    var textDropped: nat
    var published: seq<Text>
    var sinkItem: array?<Byte>
    var sinkPos: nat
    /** sink_lock is held from sink_start() to sink_end(). */
    var locked: bool
    /** The bytes given to the record at hand, what happened to the drop count so far, and all binary publishes. */
    ghost var given: Text
    ghost var history: seq<DropEvent>
    ghost var binSent: seq<seq<Packet>>

    constructor (batchSize: nat, lineMax: nat, headerLen: nat, droppedPacket: nat -> Text, droppedLine: nat -> Text, payloadLen: Text -> nat)
      requires 2 <= lineMax < batchSize && TIME_SYNC_LEN <= batchSize && headerLen > 0
      requires forall n: nat :: 0 < |droppedPacket(n)| <= batchSize - TIME_SYNC_LEN && 0 < |droppedLine(n)| <= batchSize
      ensures Valid() && binRing == [] && textRing == [] && published == [] && history == [] && binSent == [] && !locked && batch.Length == batchSize
    {
      batch := new Byte[batchSize];
      this.lineMax, this.headerLen := lineMax, headerLen;
      this.droppedPacket, this.droppedLine, this.payloadLen := droppedPacket, droppedLine, payloadLen;
      binRing, textRing, published, binEnabled, binDropped, textDropped := [], [], [], true, 0, 0;
      sinkItem, sinkPos, locked, given, history, binSent := null, 0, false, [], [], [];
    }

    /** Room in a binary batch before its TIME_SYNC. */
    function Room(): nat {
      if batch.Length >= TIME_SYNC_LEN then batch.Length - TIME_SYNC_LEN else 0
    }

    ghost predicate Configured() {
      && headerLen > 0 && 2 <= lineMax < batch.Length && batch.Length >= TIME_SYNC_LEN
      && (forall n: nat :: 0 < |droppedPacket(n)| <= Room() && 0 < |droppedLine(n)| <= batch.Length)
    }

    /** Ring items are never empty, and a text line is cut to fit a batch. */
    ghost predicate RingsOk()
      reads this`binRing, this`textRing
    {
      && (forall i :: 0 <= i < |binRing| ==> binRing[i] != [])
      && (forall i :: 0 <= i < |textRing| ==> 0 < |textRing[i]| < lineMax)
    }

    /** The reserved item holds what the record was given, clipped to the reserved length. */
    ghost predicate SinkOk()
      reads this`sinkItem, this`sinkPos, this`given, sinkItem
    {
      sinkItem != null ==>
        && 0 < sinkItem.Length
        && sinkPos == (if |given| < sinkItem.Length then |given| else sinkItem.Length)
        && sinkItem[..sinkPos] == given[..sinkPos]
    }

    /** Every packet reserved so far is published, in the ring or being written; every drop is reported or counted. */
    ghost predicate Counted()
      reads this`history, this`binSent, this`binRing, this`binDropped, this`sinkItem
    {
      var d := AfterEvents(history);
      && d.reserved == |AllItems(binSent)| + |binRing| + (if sinkItem == null then 0 else 1)
      && d.reported == AllDropped(binSent)
      && d.current == binDropped
    }

    ghost predicate Valid()
      reads this, sinkItem
    {
      Configured() && RingsOk() && sinkItem != batch && (sinkItem != null ==> locked) && SinkOk() && Counted()
    }

    /**
     Drop accounting for the objects themselves: records started while enabled are published, in the ring, being
     written, reported in a DROPPED packet or still counted; exactly as long as fewer than 2^32 were dropped.
     */
    lemma NothingUnaccounted()
      requires Valid()
      ensures var started, kept := |Records(history)|, |AllItems(binSent)| + |binRing| + if sinkItem == null then 0 else 1;
              && kept <= started
              && (started - kept) % 0x1_0000_0000 == (AllDropped(binSent) + binDropped) % 0x1_0000_0000
              && (started - kept < 0x1_0000_0000 ==> started == kept + AllDropped(binSent) + binDropped)
    {
      DropsAccounted(history);
      StartedAreRecords(history);
    }

    /** on9log_encode_time_sync(). */
    method EncodeTimeSync() returns (ts: Text)
      ensures |ts| <= TIME_SYNC_LEN
    {
      ts := *;
      if |ts| > TIME_SYNC_LEN {
        ts := ts[..TIME_SYNC_LEN];
      }
    }

    /** The first `len` bytes of the batch buffer are these packets. */
    ghost predicate Holds(len: nat, open: seq<Packet>)
      reads batch
    {
      len <= batch.Length && batch[..len] == Encode(open)
    }

    method PublishBatch(len: nat, ghost open: seq<Packet>, ghost sent: seq<seq<Packet>>, ghost before: seq<Text>)
      requires Holds(len, open) && published == before + Payloads(sent)
      modifies this`published
      ensures published == before + Payloads(sent + [open])
    {
      published := published + [batch[..len]];
      SentSnoc(sent, open, 0, 0);
      assert before + Payloads(sent) + [Encode(open)] == before + (Payloads(sent) + [Encode(open)]);
    }

    /** The closing TIME_SYNC, and the batch goes out. */
    method FlushBin(len: nat, ghost sent: seq<seq<Packet>>, ghost open: seq<Packet>, ghost items: seq<Text>, ghost dropped: nat,
                    ghost before: seq<Text>)
      returns (ghost sent': seq<seq<Packet>>)
      requires Configured() && Holds(len, open) && Draining(sent, open, items, dropped, Room()) && open != []
      requires published == before + Payloads(sent)
      modifies this`published, batch
      ensures published == before + Payloads(sent') && sent' != []
      ensures BinUpload(sent', items, dropped, Room())
      ensures forall item: Text :: len + |item| > Room() ==> Follows(sent', [Item(item)], Room())
    {
      var ts := EncodeTimeSync();
      assert |Encode(open)| == len;
      Memcpy(batch, len, ts);
      EncodeSnoc(open, TimeSync(ts));
      PublishBatch(len + |ts|, open + [TimeSync(ts)], sent, before);
      CloseBatch(sent, open, items, dropped, Room(), ts);
      sent' := sent + [open + [TimeSync(ts)]];
    }

    /** An item into the batch buffer behind what is there. */
    method Pack(len: nat, item: Text, ghost open: seq<Packet>) returns (len': nat)
      requires Holds(len, open) && len + |item| <= batch.Length
      modifies batch
      ensures len' == len + |item| && Holds(len', open + [Item(item)])
    {
      Memcpy(batch, len, item);
      EncodeSnoc(open, Item(item));
      len' := len + |item|;
    }

    method SendOversized(item: Text, ghost sent: seq<seq<Packet>>, ghost before: seq<Text>)
      requires published == before + Payloads(sent)
      modifies this`published
      ensures published == before + Payloads(sent + [[Item(item)]])
    {
      published := published + [item];
      SentSnoc(sent, [Item(item)], 0, 0);
      EncodeSnoc([], Item(item));
      assert [] + [Item(item)] == [Item(item)] && [] + item == item;
      assert before + Payloads(sent) + [item] == before + (Payloads(sent) + [item]);
    }

    /** In the middle of a drain: `sent` is published after `before`, `open` fills the batch buffer up to `len`. */
    ghost predicate Midway(len: nat, sent: seq<seq<Packet>>, open: seq<Packet>, items: seq<Text>, dropped: nat, before: seq<Text>)
      reads this`published, batch
    {
      Holds(len, open) && Draining(sent, open, items, dropped, Room()) && published == before + Payloads(sent)
    }

    /** The count of drops is taken, and reported as the first packet of the next batch. */
    method StartBin() returns (len: nat, dropped: nat, ghost open: seq<Packet>)
      requires Configured()
      modifies this`binDropped, batch
      ensures binDropped == 0 && dropped == old(binDropped)
      ensures Midway(len, [], open, [], dropped, published)
    {
      len, open, dropped := 0, [], binDropped;
      binDropped := 0;
      NothingSent(dropped, Room());
      if dropped > 0 {
        Memcpy(batch, 0, droppedPacket(dropped));
        len := |droppedPacket(dropped)|;
        DroppedFirst(dropped, droppedPacket(dropped), Room());
        open := [Dropped(dropped, droppedPacket(dropped))];
      }
      assert published + [] == published;
    }

    /** One turn of the drain loop. */
    method PlaceItem(len: nat, item: Text, ghost sent: seq<seq<Packet>>, ghost open: seq<Packet>, ghost items: seq<Text>,
                     ghost dropped: nat, ghost before: seq<Text>)
      returns (len': nat, ghost sent': seq<seq<Packet>>, ghost open': seq<Packet>)
      requires Configured() && Midway(len, sent, open, items, dropped, before) && item != []
      modifies this`published, batch
      ensures Midway(len', sent', open', items + [item], dropped, before)
    {
      hide Packed, Heads, Head, IsBody, Payloads, AllItems, Items, Encode, Oversized;
      len', sent', open' := len, sent, open;
      BodyBytes(open, Room());
      if open == [] {
        NothingOpen(sent, items, dropped, Room(), item);
      }
      if len + |item| > Room() && len > 0 {
        sent' := FlushBin(len, sent, open, items, dropped, before);
        len', open' := 0, [];
        NothingEncoded();
      }
      if |item| > Room() {
        SendAlone(sent', items, dropped, Room(), item);
        SendOversized(item, sent', before);
        sent' := sent' + [[Item(item)]];
      } else {
        AddItem(sent', open', items, dropped, Room(), item);
        len' := Pack(len', item, open');
        open' := open' + [Item(item)];
      }
    }

    method FinishBin(len: nat, ghost sent: seq<seq<Packet>>, ghost open: seq<Packet>, ghost items: seq<Text>, ghost dropped: nat,
                     ghost before: seq<Text>)
      returns (ghost sent': seq<seq<Packet>>)
      requires Configured() && Midway(len, sent, open, items, dropped, before)
      modifies this`published, batch
      ensures published == before + Payloads(sent') && BinUpload(sent', items, dropped, Room())
    {
      sent' := sent;
      BodyBytes(open, Room());
      if len > 0 {
        sent' := FlushBin(len, sent, open, items, dropped, before);
      } else {
        NothingOpen(sent, items, dropped, Room(), []);
      }
    }

    /** upload_bin(): the ring is the sequence of items this drain will receive, those added meanwhile included. */
    method UploadBin() returns (ghost sent: seq<seq<Packet>>)
      requires Valid()
      modifies this`binRing, this`binDropped, this`published, this`history, this`binSent, batch
      ensures Valid() && binRing == [] && binDropped == 0
      ensures published == old(published) + Payloads(sent) && binSent == old(binSent) + sent
      ensures BinUpload(sent, old(binRing), old(binDropped), Room())
      ensures history == old(history) + [Exchange]
    {
      hide Midway, SinkOk, BinUpload, Payloads, AfterEvents, AllItems, AllDropped;
      var len, dropped;
      ghost var open, items;
      len, dropped, open := StartBin();
      sent, items := [], [];
      while binRing != []
        invariant RingsOk() && SinkOk() && binDropped == 0 && history == old(history) && binSent == old(binSent)
        invariant items + binRing == old(binRing)
        invariant Midway(len, sent, open, items, dropped, old(published))
      {
        var item := binRing[0];
        binRing := binRing[1..];
        len, sent, open := PlaceItem(len, item, sent, open, items, dropped, old(published));
        items := items + [item];
      }
      assert items == old(binRing);
      sent := FinishBin(len, sent, open, items, dropped, old(published));
      UploadCounts(history, binSent, sent, items, dropped, Room());
      history, binSent := history + [Exchange], binSent + sent;
    }

    // ---- upload_text() ----

    ghost predicate TextMidway(len: nat, sent: seq<seq<Packet>>, open: seq<Packet>, items: seq<Text>, dropped: nat, before: seq<Text>)
      reads this`published, batch
    {
      Holds(len, open) && TextDraining(sent, open, items, dropped, batch.Length) && published == before + Payloads(sent)
    }

    method StartText() returns (len: nat, dropped: nat, ghost open: seq<Packet>)
      requires Configured()
      modifies this`textDropped, batch
      ensures textDropped == 0 && dropped == old(textDropped)
      ensures TextMidway(len, [], open, [], dropped, published)
    {
      len, open, dropped := 0, [], textDropped;
      textDropped := 0;
      NothingSent(dropped, batch.Length);
      if dropped > 0 {
        Memcpy(batch, 0, droppedLine(dropped));
        len := |droppedLine(dropped)|;
        DroppedFirst(dropped, droppedLine(dropped), batch.Length);
        open := [Dropped(dropped, droppedLine(dropped))];
      }
      assert published + [] == published;
    }

    method PlaceLine(len: nat, item: Text, ghost sent: seq<seq<Packet>>, ghost open: seq<Packet>, ghost items: seq<Text>,
                     ghost dropped: nat, ghost before: seq<Text>)
      returns (len': nat, ghost sent': seq<seq<Packet>>, ghost open': seq<Packet>)
      requires Configured() && TextMidway(len, sent, open, items, dropped, before) && 0 < |item| < lineMax
      modifies this`published, batch
      ensures TextMidway(len', sent', open', items + [item], dropped, before)
    {
      hide TextPacked, Heads, Head, Payloads, AllItems, Items, Encode;
      len', sent', open' := len, sent, open;
      BodyBytes(open, batch.Length);
      NothingEncoded();
      if len + |item| > batch.Length {
        SendLines(sent, open, items, dropped, batch.Length);
        PublishBatch(len, open, sent, before);
        len', sent', open' := 0, sent + [open], [];
        assert items + [] == items;
      }
      if sent' == [] {
        NothingSent(dropped, batch.Length);
      }
      AddLine(sent', open', items, dropped, batch.Length, item);
      len' := Pack(len', item, open');
      open' := open' + [Item(item)];
    }

    method FinishText(len: nat, ghost sent: seq<seq<Packet>>, ghost open: seq<Packet>, ghost items: seq<Text>, ghost dropped: nat,
                      ghost before: seq<Text>)
      returns (ghost sent': seq<seq<Packet>>)
      requires Configured() && TextMidway(len, sent, open, items, dropped, before)
      modifies this`published
      ensures published == before + Payloads(sent') && TextUpload(sent', items, dropped, batch.Length)
    {
      hide TextPacked, Heads, Head, Payloads, AllItems, Items, Encode;
      sent' := sent;
      BodyBytes(open, batch.Length);
      if len > 0 {
        SendLines(sent, open, items, dropped, batch.Length);
        PublishBatch(len, open, sent, before);
        sent' := sent + [open];
      } else {
        NoLines(sent, items, dropped, batch.Length);
      }
    }

    method UploadText() returns (ghost sent: seq<seq<Packet>>)
      requires Valid()
      modifies this`textRing, this`textDropped, this`published, batch
      ensures Valid() && textRing == [] && textDropped == 0
      ensures published == old(published) + Payloads(sent)
      ensures TextUpload(sent, old(textRing), old(textDropped), batch.Length)
    {
      hide TextMidway, SinkOk, TextUpload, Payloads, Counted;
      var len, dropped;
      ghost var open, items;
      len, dropped, open := StartText();
      sent, items := [], [];
      while textRing != []
        invariant RingsOk() && SinkOk() && Counted() && textDropped == 0
        invariant items + textRing == old(textRing)
        invariant TextMidway(len, sent, open, items, dropped, old(published))
      {
        var item := textRing[0];
        textRing := textRing[1..];
        len, sent, open := PlaceLine(len, item, sent, open, items, dropped, old(published));
        items := items + [item];
      }
      assert items == old(textRing);
      sent := FinishText(len, sent, open, items, dropped, old(published));
    }

    /** text_vprintf() for a line formatted without a limit; `room` tells whether the ring has room for it. */
    method LogLine(text: CStr, enabled: bool, room: bool)
      requires Valid()
      modifies this`textRing, this`textDropped
      ensures Valid()
      ensures textRing == old(textRing) + if enabled && |text| > 0 && room then [LineItem(text, lineMax)] else []
      ensures enabled && |text| > 0 && room ==>
                var item := textRing[|old(textRing)|];
                if |text| < lineMax then item == text
                else |item| == lineMax - 1 && item[..lineMax - 2] == text[..lineMax - 2] && item[lineMax - 2] == 10
      ensures textDropped == if enabled && |text| > 0 && !room then (old(textDropped) + 1) % WRAP else old(textDropped)
    {
      hide Counted;
      if enabled && |text| > 0 {
        var line := new Byte[lineMax];
        var itemLen := if |text| < lineMax then |text| else lineMax - 1;
        Memcpy(line, 0, text[..itemLen]); // vsnprintf
        if |text| >= lineMax {
          line[itemLen - 1] := LF; // Cut lines still end the line
        }
        assert line[..itemLen] == LineItem(text, lineMax);
        if room {
          textRing := textRing + [line[..itemLen]];
        } else {
          textDropped := (textDropped + 1) % WRAP;
        }
      }
    }

    // ---- The sink ----

    /** sink_start(): the whole packet is reserved up front, or counted as dropped. */
    method SinkStart(header: Option<Text>, room: bool)
      requires Valid() && !locked
      modifies this`sinkItem, this`sinkPos, this`locked, this`given, this`binDropped, this`history
      ensures Valid() && locked
      ensures var counted := header.Some? && |header.value| == headerLen && binEnabled;
              && history == old(history) + (if counted then [Record(room)] else [])
              && (sinkItem != null <==> counted && room)
              && (sinkItem != null ==> fresh(sinkItem) && sinkItem.Length == headerLen + payloadLen(header.value)
                                       && given == header.value && sinkPos == headerLen)
    {
      hide AfterEvents, RingsOk, AllItems, AllDropped;
      locked := true;
      sinkItem := null;
      if header.None? || |header.value| != headerLen || !binEnabled {
        return;
      }
      AfterOneMore(history, Record(room));
      history := history + [Record(room)];
      if !room {
        binDropped := (binDropped + 1) % WRAP;
        return;
      }
      var h := header.value;
      var item := new Byte[headerLen + payloadLen(h)];
      Memcpy(item, 0, h);
      sinkItem, sinkPos := item, headerLen;
      given := h;
      assert item[..headerLen] == h;
    }

    /** sink_payload(): never past the reserved length. */
    method SinkPayload(payload: Text)
      requires Valid() && locked
      modifies this`sinkPos, this`given, sinkItem
      ensures Valid() && given == old(given) + payload
    {
      hide Counted;
      given := given + payload;
      if sinkItem == null {
        return;
      }
      var room := sinkItem.Length - sinkPos;
      var copyLen := if |payload| < room then |payload| else room;
      Memcpy(sinkItem, sinkPos, payload[..copyLen]);
      GivenSoFar(old(given), payload, sinkPos, copyLen);
      sinkPos := sinkPos + copyLen;
    }

    /** sink_end(): the item joins the ring, with its header and payload clipped to the reserved length. */
    method SinkEnd()
      requires Valid() && locked
      modifies this`binRing, this`sinkItem, this`locked
      ensures Valid() && !locked && sinkItem == null
      ensures old(sinkItem) == null ==> binRing == old(binRing)
      ensures old(sinkItem) != null ==>
                && |binRing| == |old(binRing)| + 1 && binRing[..|old(binRing)|] == old(binRing)
                && var item := binRing[|old(binRing)|];
                   && |item| == old(sinkItem.Length)
                   && (if |given| < |item| then item[..|given|] == given else item == given[..|item|])
    {
      if sinkItem != null {
        binRing := binRing + [sinkItem[..]];
        sinkItem := null;
      }
      locked := false;
    }
  }

  lemma NoLines(sent: seq<seq<Packet>>, items: seq<Text>, dropped: nat, room: nat)
    requires TextDraining(sent, [], items, dropped, room)
    ensures TextUpload(sent, items, dropped, room)
  {
  }

  lemma NothingEncoded()
    ensures Encode([]) == [] && Items([]) == [] && IsBody([], 0)
  {
  }

  lemma NothingSent(dropped: nat, room: nat)
    ensures dropped == 0 ==> Draining([], [], [], dropped, room) && TextDraining([], [], [], dropped, room)
    ensures Heads([], dropped) && TextPacked([], room)
    ensures forall item: Text :: Follows([], [Item(item)], room)
    ensures Payloads([]) == [] && Encode([]) == []
  {
  }

  /** The count of drops opens the first batch. */
  lemma DroppedFirst(dropped: nat, bytes: Text, room: nat)
    requires dropped > 0 && 0 < |bytes| <= room
    ensures Draining([], [Dropped(dropped, bytes)], [], dropped, room)
    ensures TextDraining([], [Dropped(dropped, bytes)], [], dropped, room)
    ensures Encode([Dropped(dropped, bytes)]) == bytes
  {
    EncodeSnoc([], Dropped(dropped, bytes));
    assert [] + [Dropped(dropped, bytes)] == [Dropped(dropped, bytes)];
  }

  /** With an empty batch buffer the drain may end, or go on with any item. */
  lemma NothingOpen(sent: seq<seq<Packet>>, items: seq<Text>, dropped: nat, room: nat, item: Text)
    requires Draining(sent, [], items, dropped, room)
    ensures BinUpload(sent, items, dropped, room)
    ensures item != [] ==> Follows(sent, [Item(item)], room)
  {
  }
}
