/** One daemon's packet table and its four delivery paths, as functions on values.

`packets` is the table seen by sequence number; a missing key is an empty slot.  The circular
array that the daemon really uses is module PacketTable, which refines these functions. */
module Delivery {
  import opened SpreadTypes

  /** `alarm` records that the daemon reached one of its fatal branches. */
  datatype Daemon = Daemon(
    id: int,
    packets: map<int, Slot>,
    received: int,   // My_aru: end of the gap-free prefix
    stable: int,     // Aru: end of the prefix believed received by everybody
    highest: int,    // Highest_seq
    discarded: int,  // Last_discarded
    delivered: int,  // Last_delivered
    threshold: nat,
    evs: bool,
    log: seq<Event>,
    alarm: bool)

  function Init(id: int): Daemon {
    Daemon(id, map[], 0, 0, 0, 0, 0, BLOCK_REGULAR_DELIVERY, false, [], false)
  }

  /** The end of the run of occupied slots that starts after `from`, not looking past `limit`. */
  function Advance(packets: map<int, Slot>, from: int, limit: int): (r: int)
    ensures from <= r && (from <= limit ==> r <= limit)
    ensures forall s :: from < s <= r ==> s in packets
    ensures r < limit ==> r + 1 !in packets
    decreases limit - from
  {
    if from < limit && from + 1 in packets then Advance(packets, from + 1, limit) else from
  }

  function DeliverPacket(d: Daemon, s: int): Daemon
    requires s in d.packets && d.packets[s].Pending?
  {
    d.(packets := d.packets[s := Delivered(d.packets[s].p)], log := d.log + [Message(d.packets[s].p)])
  }

  /** Agreed delivery goes up to the end of the prefix or to the first SAFE packet. */
  function AgreedLoop(d: Daemon): Daemon
    decreases d.received - d.delivered
  {
    var s := d.delivered + 1;
    if d.delivered >= d.received then d
    else if s !in d.packets || d.packets[s].Hole? then d.(alarm := true)
    else if d.packets[s].Pending? then
      if d.packets[s].p.service == Safe then d else AgreedLoop(DeliverPacket(d, s).(delivered := s))
    else if ServiceBit(d.packets[s].p.service) >= ServiceBit(Agreed) then d.(alarm := true)
    else AgreedLoop(d.(delivered := s))
  }

  function DeliverAgreed(d: Daemon): Daemon {
    if d.received <= d.delivered || d.evs || d.threshold > ServiceBit(Agreed) then d else AgreedLoop(d)
  }

  function ReliableLoop(d: Daemon, s: int, end: int): Daemon
    decreases end - s
  {
    if s > end then d
    else if s in d.packets && d.packets[s].Pending? && IsFloating(d.packets[s].p) then
      ReliableLoop(DeliverPacket(d, s), s + 1, end)
    else ReliableLoop(d, s + 1, end)
  }

  function DeliverReliable(d: Daemon, start: int, num: int): Daemon {
    if d.evs || d.threshold > ServiceBit(Reliable) then d
    else ReliableLoop(d, Max(start, d.delivered + 1), start + num - 1)
  }

  /** Everything up to the stable mark is delivered, if it was not yet, and forgotten. */
  function DiscardLoop(d: Daemon, upTo: int): Daemon
    decreases upTo - d.discarded
  {
    var s := d.discarded + 1;
    if d.discarded >= upTo then d
    else if s !in d.packets then d.(alarm := true)
    else DiscardLoop(DiscardOne(d), upTo)
  }

  /** One turn of the discarding loop. */
  function DiscardOne(d: Daemon): Daemon
    requires d.discarded + 1 in d.packets
  {
    var s := d.discarded + 1;
    var e := if d.packets[s].Pending? then DeliverPacket(d, s) else d;
    e.(packets := e.packets - {s}, discarded := s, delivered := Max(e.delivered, s))
  }

  function Discard(d: Daemon): Daemon {
    if d.stable <= d.discarded then d else DiscardLoop(d, d.stable)
  }

  /** A regular packet of the daemon's own ring arrives. */
  function HandleBcast(d: Daemon, p: Packet): Daemon {
    if p.seqNo <= d.discarded || p.seqNo in d.packets then d
    else
      var e := d.(packets := d.packets[p.seqNo := Pending(p)], highest := Max(d.highest, p.seqNo));
      if p.seqNo == d.received + 1
      then DeliverAgreed(e.(received := Advance(e.packets, e.received, e.highest)))
      else DeliverReliable(e, p.seqNo, 1)
  }

  /** The daemon has the packet in its table, or had it and threw it away as stable. */
  predicate Held(d: Daemon, s: int) {
    s <= d.discarded || (s in d.packets && !d.packets[s].Hole?)
  }

  /** The part of a log whose order is promised: everything but the floating packets. */
  function Ordered(log: seq<Event>): seq<Event> {
    if log == [] then []
    else
      var last := log[|log| - 1];
      Ordered(log[..|log| - 1]) + if last.Message? && IsFloating(last.p) then [] else [last]
  }

  lemma OrderedAppend(log: seq<Event>, e: Event)
    ensures Ordered(log + [e]) == Ordered(log) + if e.Message? && IsFloating(e.p) then [] else [e]
  {
    assert (log + [e])[..|log|] == log;
  }

  /** The packet that the ring numbered s. */
  function At(sent: seq<Packet>, s: int): Packet
    requires 1 <= s <= |sent|
  {
    sent[s - 1]
  }

  /** The ring's packets numbered 1 to k, in order, without the floating ones. */
  function OrderedPrefix(sent: seq<Packet>, k: int): seq<Event>
    requires 0 <= k <= |sent|
  {
    if k == 0 then []
    else OrderedPrefix(sent, k - 1) + if IsFloating(At(sent, k)) then [] else [Message(At(sent, k))]
  }

  lemma {:induction false} OrderedPrefixGrows(sent: seq<Packet>, more: seq<Packet>, k: int)
    requires 0 <= k <= |sent|
    ensures OrderedPrefix(sent + more, k) == OrderedPrefix(sent, k)
  {
    if k > 0 {
      OrderedPrefixGrows(sent, more, k - 1);
    }
  }

  lemma {:induction false} OrderedPrefixPrefix(sent: seq<Packet>, j: int, k: int)
    requires 0 <= j <= k <= |sent|
    ensures OrderedPrefix(sent, j) <= OrderedPrefix(sent, k)
    decreases k - j
  {
    if j < k {
      OrderedPrefixPrefix(sent, j, k - 1);
    }
  }

  // ---- What holds of a daemon against the packets its ring has numbered ----

  ghost predicate Numbered(sent: seq<Packet>) {
    forall s :: 1 <= s <= |sent| ==> At(sent, s).seqNo == s
  }

  ghost predicate Marks(d: Daemon, sent: seq<Packet>) {
    0 <= d.discarded <= d.delivered <= d.received <= d.highest <= |sent|
  }

  /** The table holds exactly ring packets, is full up to `received`, and stops there. */
  ghost predicate Table(d: Daemon, sent: seq<Packet>) {
    && (forall s :: s in d.packets ==> d.discarded < s <= d.highest)
    && (forall s :: s in d.packets && 1 <= s <= |sent| ==> !d.packets[s].Hole? && d.packets[s].p == At(sent, s))
    && (forall s :: d.discarded < s <= d.received ==> s in d.packets)
    && d.received + 1 !in d.packets
  }

  /** Slots are marked delivered exactly up to `delivered`, except floating packets beyond it. */
  ghost predicate DeliveryMarks(d: Daemon) {
    && (forall s :: s in d.packets && s <= d.delivered ==> d.packets[s].Delivered?)
    && (forall s :: s in d.packets && d.delivered < s && d.packets[s].Delivered? ==> IsFloating(d.packets[s].p))
    && (forall s :: s in d.packets && s <= d.delivered && d.packets[s].Delivered? ==> d.packets[s].p.service != Safe)
  }

  /** The daemon has passed the packet up to its sessions. */
  predicate Passed(d: Daemon, s: int) {
    s <= d.discarded || (s in d.packets && d.packets[s].Delivered?)
  }

  ghost predicate Genuine(e: Event, sent: seq<Packet>) {
    e.Message? && 1 <= e.p.seqNo <= |sent| && e.p == At(sent, e.p.seqNo)
  }

  /** The log contains a packet if and only if it was passed up, and contains it once. */
  ghost predicate LogExact(d: Daemon, sent: seq<Packet>) {
    && (forall i :: 0 <= i < |d.log| ==> Genuine(d.log[i], sent) && Passed(d, d.log[i].p.seqNo))
    && (forall s :: 1 <= s <= |sent| && Passed(d, s) ==> Message(At(sent, s)) in d.log)
    && (forall i, j :: 0 <= i < j < |d.log| ==> d.log[i].p.seqNo != d.log[j].p.seqNo)
  }

  ghost predicate LogOrdered(d: Daemon, sent: seq<Packet>) {
    0 <= d.delivered <= |sent| && Ordered(d.log) == OrderedPrefix(sent, d.delivered)
  }

  ghost predicate Good(d: Daemon, sent: seq<Packet>) {
    && Marks(d, sent) && Table(d, sent) && DeliveryMarks(d)
    && LogExact(d, sent) && LogOrdered(d, sent) && !d.alarm
  }

  lemma InitGood(id: int, sent: seq<Packet>)
    ensures Good(Init(id), sent)
  {}

  /** Passing up one more packet keeps the log exact. */
  lemma LogExactAppend(d: Daemon, e: Daemon, sent: seq<Packet>, s: int)
    requires LogExact(d, sent) && Numbered(sent) && 1 <= s <= |sent|
    requires e.log == d.log + [Message(At(sent, s))]
    requires !Passed(d, s)
    requires forall t :: 1 <= t <= |sent| ==> (Passed(e, t) <==> Passed(d, t) || t == s)
    ensures LogExact(e, sent)
  {
    forall i | 0 <= i < |e.log| ensures Genuine(e.log[i], sent) && Passed(e, e.log[i].p.seqNo) {
      if i < |d.log| {
        assert e.log[i] == d.log[i];
      }
    }
    forall t | 1 <= t <= |sent| && Passed(e, t) ensures Message(At(sent, t)) in e.log {
      if t == s {
        assert e.log[|d.log|] == Message(At(sent, s));
      } else {
        assert Message(At(sent, t)) in d.log;
      }
    }
    forall i, j | 0 <= i < j < |e.log| ensures e.log[i].p.seqNo != e.log[j].p.seqNo {
      assert Passed(d, d.log[i].p.seqNo);
    }
  }

  lemma DeliverPacketLog(d: Daemon, sent: seq<Packet>, s: int, delivered: int)
    requires LogExact(d, sent) && LogOrdered(d, sent) && Numbered(sent)
    requires s in d.packets && d.packets[s].Pending? && d.discarded < s && 1 <= s <= |sent|
    requires d.packets[s].p == At(sent, s)
    requires if delivered == d.delivered then IsFloating(At(sent, s)) else s == delivered == d.delivered + 1
    ensures var e := DeliverPacket(d, s).(delivered := delivered);
            LogExact(e, sent) && LogOrdered(e, sent)
  {
    var e := DeliverPacket(d, s).(delivered := delivered);
    assert LogOrdered(e, sent) by {
      OrderedAppend(d.log, Message(At(sent, s)));
    }
    hide LogOrdered;
    forall t ensures Passed(e, t) <==> Passed(d, t) || t == s {}
    LogExactAppend(d, e, sent, s);
  }

  /** Delivering one pending packet: the mark and the log move together. */
  lemma DeliverPacketGood(d: Daemon, sent: seq<Packet>, s: int, delivered: int)
    requires Good(d, sent) && Numbered(sent)
    requires s in d.packets && d.packets[s].Pending?
    requires if delivered == d.delivered then IsFloating(d.packets[s].p)
             else s == delivered == d.delivered + 1 && s <= d.received && d.packets[s].p.service != Safe
    ensures Good(DeliverPacket(d, s).(delivered := delivered), sent)
  {
    hide LogExact, LogOrdered;
    DeliverPacketLog(d, sent, s, delivered);
  }

  /** A slot already marked behind the delivered mark can only be a floating packet: skip it. */
  lemma SkipGood(d: Daemon, sent: seq<Packet>)
    requires Good(d, sent) && d.delivered < d.received
    requires d.delivered + 1 in d.packets && d.packets[d.delivered + 1].Delivered?
    ensures IsFloating(d.packets[d.delivered + 1].p)
    ensures Good(d.(delivered := d.delivered + 1), sent)
  {
    hide LogExact;
    assert forall t :: Passed(d.(delivered := d.delivered + 1), t) <==> Passed(d, t);
    assert LogExact(d.(delivered := d.delivered + 1), sent) by {
      LogExactSame(d, d.(delivered := d.delivered + 1), sent);
    }
  }

  lemma LogExactSame(d: Daemon, e: Daemon, sent: seq<Packet>)
    requires LogExact(d, sent) && e.log == d.log
    requires forall t :: 1 <= t <= |sent| ==> (Passed(e, t) <==> Passed(d, t))
    ensures LogExact(e, sent)
  {}

  lemma {:induction false} AgreedLoopGood(d: Daemon, sent: seq<Packet>)
    requires Good(d, sent) && Numbered(sent)
    ensures Good(AgreedLoop(d), sent)
    ensures var e := AgreedLoop(d);
            e == d.(packets := e.packets, delivered := e.delivered, log := e.log)
            && e.packets.Keys == d.packets.Keys && d.delivered <= e.delivered
    decreases d.received - d.delivered
  {
    hide LogExact, LogOrdered;
    var s := d.delivered + 1;
    if d.delivered < d.received {
      assert s in d.packets;
      if d.packets[s].Pending? {
        if d.packets[s].p.service != Safe {
          DeliverPacketGood(d, sent, s, s);
          AgreedLoopGood(DeliverPacket(d, s).(delivered := s), sent);
        }
      } else {
        SkipGood(d, sent);
        AgreedLoopGood(d.(delivered := s), sent);
      }
    }
  }

  lemma {:induction false} ReliableLoopGood(d: Daemon, sent: seq<Packet>, s: int, end: int)
    requires Good(d, sent) && Numbered(sent) && d.delivered < s
    ensures Good(ReliableLoop(d, s, end), sent)
    ensures var e := ReliableLoop(d, s, end);
            e == d.(packets := e.packets, log := e.log) && e.packets.Keys == d.packets.Keys
    decreases end - s
  {
    hide LogExact, LogOrdered, DeliveryMarks;
    if s <= end {
      if s in d.packets && d.packets[s].Pending? && IsFloating(d.packets[s].p) {
        DeliverPacketGood(d, sent, s, d.delivered);
        var e := DeliverPacket(d, s);
        assert e == e.(delivered := d.delivered);
        ReliableLoopGood(e, sent, s + 1, end);
      } else {
        ReliableLoopGood(d, sent, s + 1, end);
      }
    }
  }

  lemma DiscardOneOrdered(d: Daemon, sent: seq<Packet>)
    requires LogOrdered(d, sent)
    requires d.discarded + 1 in d.packets && 1 <= d.discarded + 1 <= |sent| && d.discarded <= d.delivered
    requires var t := d.packets[d.discarded + 1];
             && !t.Hole? && t.p == At(sent, d.discarded + 1)
             && (d.discarded < d.delivered || t.Pending? || IsFloating(t.p))
             && (t.Pending? ==> d.delivered == d.discarded)
    ensures LogOrdered(DiscardOne(d), sent)
  {
    var s := d.discarded + 1;
    if d.packets[s].Pending? {
      OrderedAppend(d.log, Message(At(sent, s)));
    }
  }

  lemma DiscardOneExact(d: Daemon, sent: seq<Packet>)
    requires LogExact(d, sent) && Numbered(sent)
    requires d.discarded + 1 in d.packets && 1 <= d.discarded + 1 <= |sent|
    requires var t := d.packets[d.discarded + 1]; !t.Hole? && t.p == At(sent, d.discarded + 1)
    ensures LogExact(DiscardOne(d), sent)
  {
    hide LogExact, Numbered;
    var s := d.discarded + 1;
    var f := DiscardOne(d);
    if d.packets[s].Pending? {
      forall t ensures Passed(f, t) <==> Passed(d, t) || t == s {}
      LogExactAppend(d, f, sent, s);
    } else {
      forall t ensures Passed(f, t) <==> Passed(d, t) {}
      LogExactSame(d, f, sent);
    }
  }

  lemma DiscardOneGood(d: Daemon, sent: seq<Packet>)
    requires Good(d, sent) && Numbered(sent) && d.discarded < d.received
    ensures d.discarded + 1 in d.packets && Good(DiscardOne(d), sent)
  {
    hide LogExact, LogOrdered;
    assert d.discarded + 1 in d.packets;
    DiscardOneOrdered(d, sent);
    DiscardOneExact(d, sent);
  }

  lemma {:induction false} DiscardLoopGood(d: Daemon, sent: seq<Packet>, upTo: int)
    requires Good(d, sent) && Numbered(sent) && upTo <= d.received
    ensures Good(DiscardLoop(d, upTo), sent)
    ensures var e := DiscardLoop(d, upTo);
            && e.discarded == Max(d.discarded, upTo) && e.delivered == Max(d.delivered, e.discarded)
            && e == d.(packets := e.packets, discarded := e.discarded, delivered := e.delivered, log := e.log)
            && e.packets == map s | s in d.packets && e.discarded < s :: d.packets[s]
    decreases upTo - d.discarded
  {
    hide LogExact, LogOrdered, DeliveryMarks;
    if d.discarded < upTo {
      DiscardOneGood(d, sent);
      DiscardLoopGood(DiscardOne(d), sent, upTo);
    }
  }

  /** A packet that is new to the table lies above the prefix. */
  lemma NewAbovePrefix(d: Daemon, sent: seq<Packet>, s: int)
    requires Marks(d, sent) && Table(d, sent) && s > d.discarded && s !in d.packets
    ensures s > d.received >= d.delivered
  {}

  lemma InsertTable(d: Daemon, sent: seq<Packet>, p: Packet, highest: int, received: int)
    requires Marks(d, sent) && Table(d, sent) && 1 <= p.seqNo <= |sent| && p == At(sent, p.seqNo)
    requires p.seqNo > d.received && highest == Max(d.highest, p.seqNo)
    requires d.received <= received <= highest
    requires forall s :: d.received < s <= received ==> s in d.packets || s == p.seqNo
    requires received + 1 != p.seqNo && received + 1 !in d.packets
    ensures var f := d.(packets := d.packets[p.seqNo := Pending(p)], highest := highest, received := received);
            Marks(f, sent) && Table(f, sent)
  {}

  lemma InsertMarks(d: Daemon, p: Packet)
    requires DeliveryMarks(d) && p.seqNo > d.delivered && p.seqNo !in d.packets
    ensures DeliveryMarks(d.(packets := d.packets[p.seqNo := Pending(p)]))
  {}

  /** Where the prefix ends once the packet is there. */
  lemma InsertAdvance(d: Daemon, sent: seq<Packet>, p: Packet, highest: int)
    requires Marks(d, sent) && Table(d, sent) && p.seqNo > d.received && highest == Max(d.highest, p.seqNo)
    ensures var r := Advance(d.packets[p.seqNo := Pending(p)], d.received, highest);
            && d.received <= r <= highest && r + 1 != p.seqNo && r + 1 !in d.packets
            && (forall s :: d.received < s <= r ==> s in d.packets || s == p.seqNo)
            && (p.seqNo != d.received + 1 ==> r == d.received)
  {
    var q := d.packets[p.seqNo := Pending(p)];
    var r := Advance(q, d.received, highest);
    forall s | d.received < s <= r ensures s in d.packets || s == p.seqNo {
      assert s in q;
    }
  }

  lemma InsertGood(d: Daemon, sent: seq<Packet>, p: Packet)
    requires Good(d, sent) && Numbered(sent)
    requires 1 <= p.seqNo <= |sent| && p == At(sent, p.seqNo)
    requires p.seqNo > d.discarded && p.seqNo !in d.packets
    ensures var e := d.(packets := d.packets[p.seqNo := Pending(p)], highest := Max(d.highest, p.seqNo));
            Good(e.(received := Advance(e.packets, e.received, e.highest)), sent)
            && (p.seqNo != d.received + 1 ==> Advance(e.packets, e.received, e.highest) == e.received)
  {
    hide LogExact, LogOrdered, Table, Marks, DeliveryMarks, Advance;
    NewAbovePrefix(d, sent, p.seqNo);
    var e := d.(packets := d.packets[p.seqNo := Pending(p)], highest := Max(d.highest, p.seqNo));
    InsertAdvance(d, sent, p, e.highest);
    var f := e.(received := Advance(e.packets, e.received, e.highest));
    InsertTable(d, sent, p, e.highest, f.received);
    InsertMarks(d, p);
    DeliveryMarksOf(d.(packets := e.packets), f);
    assert forall t :: Passed(f, t) <==> Passed(d, t);
    LogExactSame(d, f, sent);
    LogOrderedSame(d, f, sent);
  }

  lemma DeliveryMarksOf(d: Daemon, e: Daemon)
    requires DeliveryMarks(d) && e.packets == d.packets && e.delivered == d.delivered
    ensures DeliveryMarks(e)
  {}

  /** A packet of the ring arrives, in any order and any number of times. */
  lemma HandleBcastGood(d: Daemon, sent: seq<Packet>, p: Packet)
    requires Good(d, sent) && Numbered(sent)
    requires 1 <= p.seqNo <= |sent| && p == At(sent, p.seqNo)
    ensures var e := HandleBcast(d, p);
            && Good(e, sent)
            && e.received >= d.received && Held(e, p.seqNo)
            && e == d.(packets := e.packets, received := e.received, highest := e.highest,
                       delivered := e.delivered, log := e.log)
            && d.highest <= e.highest
            && e.packets.Keys == d.packets.Keys + if p.seqNo <= d.discarded then {} else {p.seqNo}
  {
    hide LogExact, LogOrdered, DeliveryMarks;
    if p.seqNo > d.discarded && p.seqNo !in d.packets {
      InsertGood(d, sent, p);
      var e := d.(packets := d.packets[p.seqNo := Pending(p)], highest := Max(d.highest, p.seqNo));
      if p.seqNo == d.received + 1 {
        AgreedLoopGood(e.(received := Advance(e.packets, e.received, e.highest)), sent);
      } else {
        assert e == e.(received := Advance(e.packets, e.received, e.highest));
        ReliableLoopGood(e, sent, Max(p.seqNo, e.delivered + 1), p.seqNo);
      }
    }
  }

  /** More packets may be numbered by others without touching this daemon. */
  lemma GoodGrows(d: Daemon, sent: seq<Packet>, more: seq<Packet>)
    requires Good(d, sent) && Numbered(sent + more)
    ensures Good(d, sent + more)
  {
    OrderedPrefixGrows(sent, more, d.delivered);
    var all := sent + more;
    forall s | 1 <= s <= |sent| ensures At(all, s) == At(sent, s) {}
    forall i | 0 <= i < |d.log| ensures Genuine(d.log[i], all) {
      assert Genuine(d.log[i], sent);
    }
  }

  /** The ordered deliveries of any two daemons of one ring are prefixes of one another. */
  lemma PrefixComparable(d: Daemon, e: Daemon, sent: seq<Packet>)
    requires Good(d, sent) && Good(e, sent)
    ensures Ordered(d.log) <= Ordered(e.log) || Ordered(e.log) <= Ordered(d.log)
  {
    if d.delivered <= e.delivered {
      OrderedPrefixPrefix(sent, d.delivered, e.delivered);
    } else {
      OrderedPrefixPrefix(sent, e.delivered, d.delivered);
    }
  }

  lemma HighestKnown(d: Daemon, sent: seq<Packet>)
    requires Good(d, sent)
    ensures 0 <= d.discarded <= d.delivered <= d.received <= d.highest <= |sent|
  {}

  lemma NeverHole(d: Daemon, sent: seq<Packet>, s: int)
    requires Good(d, sent) && s in d.packets
    ensures Held(d, s)
  {}

  lemma DeliverAgreedGood(d: Daemon, sent: seq<Packet>)
    requires Good(d, sent) && Numbered(sent)
    ensures var e := DeliverAgreed(d);
            && Good(e, sent)
            && e == d.(packets := e.packets, delivered := e.delivered, log := e.log)
            && e.packets.Keys == d.packets.Keys
  {
    hide Good;
    AgreedLoopGood(d, sent);
  }

  lemma DeliverReliableGood(d: Daemon, sent: seq<Packet>, start: int, num: int)
    requires Good(d, sent) && Numbered(sent)
    ensures var e := DeliverReliable(d, start, num);
            && Good(e, sent)
            && e == d.(packets := e.packets, log := e.log)
            && e.packets.Keys == d.packets.Keys
  {
    hide Good;
    ReliableLoopGood(d, sent, Max(start, d.delivered + 1), start + num - 1);
  }

  lemma GoodStable(d: Daemon, sent: seq<Packet>, stable: int)
    requires Good(d, sent)
    ensures Good(d.(stable := stable), sent)
  {
    var e := d.(stable := stable);
    hide LogOrdered;
    assert forall x :: Passed(e, x) <==> Passed(d, x);
    assert LogOrdered(e, sent) by { LogOrderedSame(d, e, sent); }
  }

  lemma LogOrderedSame(d: Daemon, e: Daemon, sent: seq<Packet>)
    requires LogOrdered(d, sent) && e.log == d.log && e.delivered == d.delivered
    ensures LogOrdered(e, sent)
  {}

  lemma ThresholdGood(d: Daemon, sent: seq<Packet>, threshold: nat)
    requires Good(d, sent)
    ensures Good(d.(threshold := threshold), sent)
  {
    var e := d.(threshold := threshold);
    hide LogExact, LogOrdered;
    assert forall x :: Passed(e, x) <==> Passed(d, x);
    LogExactSame(d, e, sent);
    LogOrderedSame(d, e, sent);
  }

  // ---- Nothing is held back without need ----

  /** The slot behind the delivered mark is filled, and marked already only if its packet floats. */
  lemma NextSlot(d: Daemon, sent: seq<Packet>)
    requires Good(d, sent)
    ensures d.delivered <= d.received
    ensures d.delivered < d.received ==> d.delivered + 1 in d.packets && !d.packets[d.delivered + 1].Hole?
    ensures d.delivered < d.received && d.packets[d.delivered + 1].Delivered? ==> IsFloating(d.packets[d.delivered + 1].p)
  {
    hide LogExact, LogOrdered;
  }

  /** One turn of the agreed loop, when the next slot is as it should be. */
  lemma AgreedTurn(d: Daemon)
    requires d.delivered < d.received ==> d.delivered + 1 in d.packets && !d.packets[d.delivered + 1].Hole?
    requires d.delivered < d.received && d.packets[d.delivered + 1].Delivered? ==> IsFloating(d.packets[d.delivered + 1].p)
    ensures var s := d.delivered + 1;
            AgreedLoop(d) ==
              if d.delivered >= d.received then d
              else if d.packets[s].Delivered? then AgreedLoop(d.(delivered := s))
              else if d.packets[s].p.service == Safe then d
              else AgreedLoop(DeliverPacket(d, s).(delivered := s))
  {
    hide DeliverPacket;
  }

  /** The loop is at the end of the prefix or at a SAFE packet. */
  predicate AtEndOrSafe(d: Daemon) {
    d.delivered == d.received ||
    (d.delivered < d.received && d.delivered + 1 in d.packets && d.packets[d.delivered + 1].Pending?
     && d.packets[d.delivered + 1].p.service == Safe)
  }

  /** Agreed delivery stops only at the end of the prefix or at a SAFE packet. */
  lemma {:induction false} AgreedDeliversAll(d: Daemon, sent: seq<Packet>)
    requires Good(d, sent) && Numbered(sent)
    ensures AgreedLoop(d).received == d.received && AtEndOrSafe(AgreedLoop(d))
    decreases d.received - d.delivered
  {
    NextSlot(d, sent);
    AgreedTurn(d);
    hide Good, AgreedLoop, IsFloating;
    if d.delivered < d.received {
      var s := d.delivered + 1;
      if d.packets[s].Delivered? {
        SkipGood(d, sent);
        AgreedDeliversAll(d.(delivered := s), sent);
      } else if d.packets[s].p.service != Safe {
        DeliverPacketGood(d, sent, s, s);
        hide AtEndOrSafe;
        AgreedDeliversAll(DeliverPacket(d, s).(delivered := s), sent);
      }
    }
  }

  /** Early delivery passes up every floating packet in its range. */
  lemma {:induction false} ReliableDeliversAll(d: Daemon, start: int, end: int)
    ensures var e := ReliableLoop(d, start, end);
            && e.packets.Keys == d.packets.Keys
            && (forall s :: s in d.packets && d.packets[s].Delivered? ==> e.packets[s] == d.packets[s])
            && (forall s :: start <= s <= end && s in d.packets && d.packets[s].Pending? && IsFloating(d.packets[s].p) ==>
                  e.packets[s].Delivered?)
    decreases end - start
  {
    if start <= end {
      var deliver := start in d.packets && d.packets[start].Pending? && IsFloating(d.packets[start].p);
      ReliableDeliversAll(if deliver then DeliverPacket(d, start) else d, start + 1, end);
    }
  }

  // ---- What the operations deliver ----

  /** Agreed delivery is not held back by the daemon's own state. */
  predicate Open(d: Daemon) { !d.evs && d.threshold <= ServiceBit(Agreed) }

  /** Whenever agreed delivery is open, nothing is left that it could deliver. */
  predicate CaughtUp(d: Daemon) { Open(d) ==> AtEndOrSafe(d) }

  lemma AgreedCatchesUp(d: Daemon, sent: seq<Packet>)
    requires Good(d, sent) && Numbered(sent)
    ensures CaughtUp(DeliverAgreed(d))
  {
    hide Numbered, LogExact, LogOrdered, Table, DeliveryMarks, AgreedLoop;
    AgreedDeliversAll(d, sent);
  }

  /** Early delivery leaves everything but pending floating packets behind the delivered mark alone. */
  lemma {:induction false} ReliableTouches(d: Daemon, start: int, end: int)
    ensures var e := ReliableLoop(d, start, end);
            e == d.(packets := e.packets, log := e.log) && e.packets.Keys == d.packets.Keys
            && forall s :: s in d.packets && !(d.packets[s].Pending? && IsFloating(d.packets[s].p)) ==> e.packets[s] == d.packets[s]
    decreases end - start
  {
    if start <= end {
      var deliver := start in d.packets && d.packets[start].Pending? && IsFloating(d.packets[start].p);
      ReliableTouches(if deliver then DeliverPacket(d, start) else d, start + 1, end);
    }
  }

  lemma ReliableKeepsUp(d: Daemon, start: int, num: int)
    requires CaughtUp(d)
    ensures CaughtUp(DeliverReliable(d, start, num))
  {
    hide ReliableLoop;
    ReliableTouches(d, Max(start, d.delivered + 1), start + num - 1);
  }

  /** Early delivery passes up every floating packet in its range that was not delivered in order. */
  lemma ReliableDelivers(d: Daemon, sent: seq<Packet>, start: int, num: int, s: int)
    requires Good(d, sent) && Numbered(sent) && !d.evs && d.threshold <= ServiceBit(Reliable)
    requires start <= s < start + num && s in d.packets && IsFloating(d.packets[s].p)
    ensures var e := DeliverReliable(d, start, num); 1 <= s <= |sent| && Passed(e, s) && Message(At(sent, s)) in e.log
  {
    DeliverReliableGood(d, sent, start, num);
    var e := DeliverReliable(d, start, num);
    ReliablePasses(d, sent, start, num, s);
    hide Good, ReliableLoop, DeliverReliable, Numbered;
    InTable(d, sent, s);
    AtNumber(sent, s);
    InLog(e, sent, At(sent, s));
  }

  lemma ReliablePasses(d: Daemon, sent: seq<Packet>, start: int, num: int, s: int)
    requires Good(d, sent) && !d.evs && d.threshold <= ServiceBit(Reliable)
    requires start <= s < start + num && s in d.packets && IsFloating(d.packets[s].p)
    ensures Passed(DeliverReliable(d, start, num), s)
  {
    hide LogExact, LogOrdered, ReliableLoop;
    ReliableDeliversAll(d, Max(start, d.delivered + 1), start + num - 1);
  }

  lemma InTable(d: Daemon, sent: seq<Packet>, s: int)
    requires Good(d, sent) && s in d.packets
    ensures 1 <= s <= |sent|
  {
    hide LogExact, LogOrdered, DeliveryMarks;
  }

  lemma AtNumber(sent: seq<Packet>, s: int)
    requires Numbered(sent) && 1 <= s <= |sent|
    ensures At(sent, s).seqNo == s
  {}

  /** Nothing behind where agreed delivery stops is touched. */
  lemma {:induction false} AgreedTouches(d: Daemon)
    ensures var e := AgreedLoop(d);
            && d.delivered <= e.delivered
            && forall s :: s in d.packets && s > e.delivered ==> s in e.packets && e.packets[s] == d.packets[s]
    decreases d.received - d.delivered
  {
    var s := d.delivered + 1;
    if d.delivered < d.received && s in d.packets {
      if d.packets[s].Pending? {
        AgreedTouches(DeliverPacket(d, s).(delivered := s));
      } else {
        AgreedTouches(d.(delivered := s));
      }
    }
  }

  /** A packet that arrives behind a gap changes nothing that is in order; one that closes the gap lets agreed delivery
      go on as far as it can. */
  lemma ArrivalCatchesUp(d: Daemon, sent: seq<Packet>, p: Packet)
    requires Good(d, sent) && Numbered(sent) && 1 <= p.seqNo <= |sent| && p == At(sent, p.seqNo)
    requires CaughtUp(d) || p.seqNo == d.received + 1
    ensures CaughtUp(HandleBcast(d, p))
  {
    hide LogExact, LogOrdered, DeliveryMarks, AgreedLoop, ReliableLoop, Advance;
    if p.seqNo > d.discarded && p.seqNo !in d.packets {
      InsertGood(d, sent, p);
      var e := d.(packets := d.packets[p.seqNo := Pending(p)], highest := Max(d.highest, p.seqNo));
      if p.seqNo == d.received + 1 {
        AgreedCatchesUp(e.(received := Advance(e.packets, e.received, e.highest)), sent);
      } else {
        ReliableKeepsUp(e, p.seqNo, 1);
      }
    }
  }

  /** A SAFE packet in the prefix waits for its number to become stable. */
  predicate SafeWaits(d: Daemon) {
    exists s :: d.delivered < s <= d.received && s in d.packets && !d.packets[s].Hole? && d.packets[s].p.service == Safe
  }

  /** A floating packet is passed up when it arrives if it comes behind a gap, or in order while no SAFE packet waits, and
      only then. In order behind a waiting SAFE packet only agreed delivery runs, which stops at that packet. */
  lemma FloatingOnArrival(d: Daemon, sent: seq<Packet>, p: Packet)
    requires Good(d, sent) && Numbered(sent) && 1 <= p.seqNo <= |sent| && p == At(sent, p.seqNo)
    requires IsFloating(p) && !d.evs && d.threshold <= ServiceBit(Reliable) && d.discarded < p.seqNo && p.seqNo !in d.packets
    ensures Message(p) in HandleBcast(d, p).log <==> p.seqNo != d.received + 1 || !SafeWaits(d)
  {
    var e := d.(packets := d.packets[p.seqNo := Pending(p)], highest := Max(d.highest, p.seqNo));
    InsertGood(d, sent, p);
    HandleBcastGood(d, sent, p);
    hide LogOrdered, AgreedLoop, ReliableLoop, Advance;
    InLog(HandleBcast(d, p), sent, p);
    if p.seqNo == d.received + 1 {
      var f := e.(received := Advance(e.packets, e.received, e.highest));
      InsertAdvance(d, sent, p, e.highest);
      FloatingInOrder(d, f, sent, p);
    } else {
      ReliableDelivers(e, sent, p.seqNo, 1, p.seqNo);
    }
  }

  /** What is in the log is what was passed up. */
  lemma InLog(d: Daemon, sent: seq<Packet>, p: Packet)
    requires Good(d, sent) && Numbered(sent) && 1 <= p.seqNo <= |sent| && p == At(sent, p.seqNo)
    ensures Message(p) in d.log <==> Passed(d, p.seqNo)
  {
    hide LogOrdered, Table, DeliveryMarks;
    if Message(p) in d.log {
      var i :| 0 <= i < |d.log| && d.log[i] == Message(p);
      assert Passed(d, d.log[i].p.seqNo);
    }
  }

  lemma FloatingInOrder(d: Daemon, f: Daemon, sent: seq<Packet>, p: Packet)
    requires Good(d, sent) && Good(f, sent) && Numbered(sent) && IsFloating(p) && p.seqNo == d.received + 1
    requires f == d.(packets := d.packets[p.seqNo := Pending(p)], highest := f.highest, received := f.received)
    requires p.seqNo <= f.received && Open(f)
    ensures Passed(DeliverAgreed(f), p.seqNo) <==> !SafeWaits(d)
  {
    if SafeWaits(d) {
      NotBehindSafe(d, f, sent, p);
    } else {
      ToTheEnd(d, f, sent, p);
    }
  }

  lemma NotBehindSafe(d: Daemon, f: Daemon, sent: seq<Packet>, p: Packet)
    requires Good(d, sent) && Good(f, sent) && Numbered(sent) && p.seqNo == d.received + 1 && SafeWaits(d)
    requires f == d.(packets := d.packets[p.seqNo := Pending(p)], highest := f.highest, received := f.received)
    requires p.seqNo <= f.received && Open(f)
    ensures !Passed(DeliverAgreed(f), p.seqNo)
  {
    hide LogExact, LogOrdered, DeliveryMarks, AgreedLoop, IsFloating;
    var s :| d.delivered < s <= d.received && s in d.packets && !d.packets[s].Hole? && d.packets[s].p.service == Safe;
    SafeStops(f, sent, s);
    AgreedTouches(f);
    AgreedLoopGood(f, sent);
    hide Good;
    assert AgreedLoop(f).packets[p.seqNo] == Pending(p);
    HighestKnown(d, sent);
  }

  lemma ToTheEnd(d: Daemon, f: Daemon, sent: seq<Packet>, p: Packet)
    requires Good(d, sent) && Good(f, sent) && Numbered(sent) && p.service != Safe && p.seqNo == d.received + 1 && !SafeWaits(d)
    requires f == d.(packets := d.packets[p.seqNo := Pending(p)], highest := f.highest, received := f.received)
    requires p.seqNo <= f.received && Open(f)
    ensures Passed(DeliverAgreed(f), p.seqNo)
  {
    AgreedTouches(f);
    AgreedLoopGood(f, sent);
    AgreedDeliversAll(f, sent);
    hide Good, AgreedLoop, Numbered, SafeWaits, AtEndOrSafe;
    if AgreedLoop(f).delivered < p.seqNo {
      StoppedBySafe(d, f, AgreedLoop(f), p);
      assert false;
    } else {
      PassedInOrder(AgreedLoop(f), sent, p.seqNo);
    }
  }

  lemma StoppedBySafe(d: Daemon, f: Daemon, e: Daemon, p: Packet)
    requires f == d.(packets := d.packets[p.seqNo := Pending(p)], highest := f.highest, received := f.received)
    requires d.delivered <= e.delivered < p.seqNo == d.received + 1 <= e.received && p.service != Safe
    requires AtEndOrSafe(e) && e.packets.Keys == f.packets.Keys
    requires forall s :: s in f.packets && s > e.delivered ==> s in e.packets && e.packets[s] == f.packets[s]
    ensures SafeWaits(d)
  {
    hide IsFloating;
    var s := e.delivered + 1;
    assert s in f.packets && e.packets[s] == f.packets[s];
  }

  lemma PassedInOrder(d: Daemon, sent: seq<Packet>, s: int)
    requires Good(d, sent) && s <= d.delivered
    ensures Passed(d, s)
  {
    hide LogExact, LogOrdered;
  }

  lemma SafeStops(f: Daemon, sent: seq<Packet>, s: int)
    requires Good(f, sent) && Numbered(sent) && f.delivered < s <= f.received
    requires s in f.packets && !f.packets[s].Hole? && f.packets[s].p.service == Safe
    ensures AgreedLoop(f).delivered < s
  {
    AgreedLoopGood(f, sent);
    var e := AgreedLoop(f);
    hide LogExact, LogOrdered, AgreedLoop;
    assert 1 <= s <= |sent| && f.packets[s].p == At(sent, s) && s in e.packets;
  }

  /** What waits in a daemon that is caught up: a packet that was received in order and is not passed up has a SAFE packet
      at or before it that is not yet known to be stable. */
  lemma WhatWaits(d: Daemon, sent: seq<Packet>, s: int) returns (t: int)
    requires Good(d, sent) && Numbered(sent) && Open(d) && CaughtUp(d) && d.stable <= d.discarded
    requires 1 <= s <= d.received <= |sent| && Message(At(sent, s)) !in d.log
    ensures d.stable < t <= s && 1 <= t <= |sent| && At(sent, t).service == Safe
  {
    t := d.delivered + 1;
    InLog(d, sent, At(sent, s));
    hide LogExact, LogOrdered;
  }

  /** Two packets, the second floating. Behind the SAFE one in order it waits; overtaking it, it is passed up at once. */
  lemma FloatingHeldBack()
    ensures var d := Init(1).(threshold := 0);
            var safe, floating := Packet(1, 2, Safe, Fragment(-1, []), []), Packet(2, 2, Reliable, Fragment(-1, [7]), []);
            && IsFloating(floating)
            && HandleBcast(HandleBcast(d, safe), floating).log == []
            && HandleBcast(HandleBcast(d, floating), safe).log == [Message(floating)]
  {
    var d := Init(1).(threshold := 0);
    var safe, floating := Packet(1, 2, Safe, Fragment(-1, []), []), Packet(2, 2, Reliable, Fragment(-1, [7]), []);
    var one := map[1 := Pending(safe)];
    assert Advance(one, 0, 1) == 1;
    assert HandleBcast(d, safe) == d.(packets := one, received := 1, highest := 1);
    var two := one[2 := Pending(floating)];
    assert Advance(two, 1, 2) == 2;
    assert HandleBcast(HandleBcast(d, safe), floating) == d.(packets := two, received := 2, highest := 2);
    var ahead := d.(packets := map[2 := Pending(floating)], highest := 2);
    assert ReliableLoop(DeliverPacket(ahead, 2), 3, 2) == DeliverPacket(ahead, 2);
    var e := HandleBcast(d, floating);
    assert e == d.(packets := map[2 := Delivered(floating)], highest := 2, log := [Message(floating)]);
    var both := e.packets[1 := Pending(safe)];
    assert Advance(both, 1, 2) == 2 && Advance(both, 0, 2) == 2;
    assert HandleBcast(e, safe) == e.(packets := both, received := 2);
  }
}
