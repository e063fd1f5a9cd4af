/** Extended virtual synchrony: daemons that come through a membership change together deliver the
same ordered packets of the old ring, in the same order, with the transitional signal at the same
point. */
module VirtualSynchrony {
  import opened SpreadTypes
  import opened Delivery
  import opened FormToken
  import opened Recovery
  import RingSystem

  // ---- The deliveries an old ring's entry prescribes, without looking at any daemon ----

  /** The first number from s on that is a hole or a SAFE packet, or one past the last. */
  function Stop(sent: seq<Packet>, rg: RingInfo, s: int): (stop: int)
    requires 1 <= s && rg.highest <= |sent|
    ensures s <= stop && (s <= rg.highest + 1 ==> stop <= rg.highest + 1)
    ensures forall t :: s <= t < stop && t <= rg.highest ==> t !in rg.holes && At(sent, t).service != Safe
    ensures stop <= rg.highest ==> stop in rg.holes || At(sent, stop).service == Safe
    decreases rg.highest - s
  {
    if s > rg.highest || s in rg.holes || At(sent, s).service == Safe then s else Stop(sent, rg, s + 1)
  }

  /** The ordered packets from s on: after a hole only those of senders in the commit set. */
  function Tail(sent: seq<Packet>, rg: RingInfo, s: int, foundHole: bool): seq<Event>
    requires 1 <= s && rg.highest <= |sent|
    decreases rg.highest - s
  {
    if s > rg.highest then []
    else if s in rg.holes then Tail(sent, rg, s + 1, true)
    else
      (if IsFloating(At(sent, s)) || (foundHole && At(sent, s).sender !in rg.procs) then [] else [Message(At(sent, s))])
      + Tail(sent, rg, s + 1, foundHole)
  }

  /** All ordered events of the old ring, from its first packet to the new ring's view. */
  function Prescribed(sent: seq<Packet>, rg: RingInfo): seq<Event>
    requires 0 <= rg.aru <= rg.highest <= |sent|
  {
    var stop := Stop(sent, rg, rg.aru + 1);
    WithViews(OrderedPrefix(sent, stop - 1), Tail(sent, rg, stop, false))
  }

  function WithViews(before: seq<Event>, behind: seq<Event>): seq<Event> {
    before + [TransitionalSignal] + behind + [RegularView]
  }

  // ---- Delivery after the barrier follows the prescription ----

  predicate Complete(e: Daemon) {
    forall s :: e.discarded < s <= e.highest ==> s in e.packets
  }

  /** The state of the loop before the signal. */
  ghost predicate Unsignalled(e: Daemon, rg: RingInfo, sent: seq<Packet>) {
    && 0 <= rg.aru <= e.discarded <= e.delivered <= e.highest == rg.highest <= |sent|
    && (forall s :: s in e.packets <==> e.discarded < s <= e.highest)
    && (forall s :: s in e.packets ==> (e.packets[s].Hole? <==> s in rg.holes))
    && (forall s :: s in e.packets && 1 <= s <= |sent| && !e.packets[s].Hole? ==> e.packets[s].p == At(sent, s))
    && DeliveryMarks(e) && LogOrdered(e, sent) && !e.alarm
  }

  lemma DiscardOneUnsignalled(e: Daemon, rg: RingInfo, sent: seq<Packet>)
    requires Unsignalled(e, rg, sent)
    requires e.discarded < e.highest && !e.packets[e.discarded + 1].Hole?
    ensures Unsignalled(DiscardOne(e), rg, sent)
    ensures var f := DiscardOne(e); f.discarded == e.discarded + 1 && f.id == e.id && f.highest == e.highest
  {
    hide LogOrdered;
    DiscardOneOrdered(e, sent);
  }

  lemma UnsignalledSlot(e: Daemon, rg: RingInfo, sent: seq<Packet>)
    requires Unsignalled(e, rg, sent)
    ensures 0 <= e.discarded <= e.highest == rg.highest <= |sent|
    ensures var s := e.discarded + 1;
            s <= e.highest ==>
              s in e.packets && (e.packets[s].Hole? <==> s in rg.holes) && (!e.packets[s].Hole? ==> e.packets[s].p == At(sent, s))
  {
    hide LogOrdered, DeliveryMarks;
  }

  lemma StopTurn(sent: seq<Packet>, rg: RingInfo, s: int)
    requires 1 <= s && rg.highest <= |sent|
    ensures Stop(sent, rg, s) == if s > rg.highest || s in rg.holes || At(sent, s).service == Safe then s else Stop(sent, rg, s + 1)
  {}

  lemma {:induction false} BeforeSignalResult(e: Daemon, rg: RingInfo, sent: seq<Packet>)
    requires Unsignalled(e, rg, sent)
    ensures var b := BeforeSignal(e);
            && Unsignalled(b, rg, sent)
            && b.discarded + 1 == Stop(sent, rg, e.discarded + 1) == Stop(sent, rg, b.discarded + 1)
            && b.id == e.id
    decreases e.highest - e.discarded
  {
    hide Unsignalled, BeforeSignal, Stop, DiscardOne;
    UnsignalledSlot(e, rg, sent);
    SignalTurn(e);
    StopTurn(sent, rg, e.discarded + 1);
    var s := e.discarded + 1;
    if s <= e.highest && !e.packets[s].Hole? && e.packets[s].p.service != Safe {
      DiscardOneUnsignalled(e, rg, sent);
      BeforeSignalResult(DiscardOne(e), rg, sent);
    }
  }

  /** Nothing beyond the stopping point was delivered before it. */
  lemma StopsWhereDelivered(b: Daemon, rg: RingInfo, sent: seq<Packet>)
    requires Unsignalled(b, rg, sent) && b.discarded + 1 == Stop(sent, rg, b.discarded + 1)
    ensures b.delivered == b.discarded
  {
    var s := b.discarded + 1;
    assert s <= b.highest ==> s in b.packets;
  }

  /** The state of the loop after the signal: from s on only floating packets are already delivered. */
  ghost predicate Signalled(d: Daemon, rg: RingInfo, sent: seq<Packet>, s: int) {
    && 1 <= s && d.highest == rg.highest <= |sent|
    && (forall t :: t in d.packets <==> s <= t <= d.highest)
    && (forall t :: t in d.packets ==> (d.packets[t].Hole? <==> t in rg.holes))
    && (forall t :: t in d.packets && 1 <= t <= |sent| && !d.packets[t].Hole? ==> d.packets[t].p == At(sent, t))
    && (forall t :: t in d.packets && d.packets[t].Delivered? ==> IsFloating(d.packets[t].p))
    && !d.alarm
  }

  lemma AfterOneSignalled(d: Daemon, rg: RingInfo, sent: seq<Packet>, s: int, foundHole: bool)
    requires Signalled(d, rg, sent, s) && s <= d.highest && !d.packets[s].Hole?
    ensures var e := AfterOne(d, rg.procs, s, foundHole);
            && Signalled(e, rg, sent, s + 1)
            && Ordered(e.log) == Ordered(d.log)
                 + if IsFloating(At(sent, s)) || (foundHole && At(sent, s).sender !in rg.procs) then []
                   else [Message(At(sent, s))]
  {
    assert d.packets[s].p == At(sent, s);
    OrderedAppend(d.log, Message(At(sent, s)));
  }

  lemma {:induction false} AfterSignalResult(d: Daemon, rg: RingInfo, sent: seq<Packet>, s: int, foundHole: bool)
    requires Signalled(d, rg, sent, s)
    ensures var a := AfterSignal(d, rg.procs, s, foundHole);
            && a.packets == map[] && !a.alarm
            && Ordered(a.log) == Ordered(d.log) + Tail(sent, rg, s, foundHole)
    decreases d.highest - s
  {
    hide Ordered, AfterOne, Signalled, At;
    SignalledSlot(d, rg, sent, s);
    if s <= d.highest {
      if d.packets[s].Hole? {
        AfterSignalResult(d.(packets := d.packets - {s}), rg, sent, s + 1, true);
      } else {
        AfterOneSignalled(d, rg, sent, s, foundHole);
        AfterSignalResult(AfterOne(d, rg.procs, s, foundHole), rg, sent, s + 1, foundHole);
      }
    }
  }

  lemma SignalledSlot(d: Daemon, rg: RingInfo, sent: seq<Packet>, s: int)
    requires Signalled(d, rg, sent, s)
    ensures 1 <= s && d.highest == rg.highest <= |sent| && !d.alarm
    ensures s > d.highest ==> d.packets == map[]
    ensures s <= d.highest ==> s in d.packets && (d.packets[s].Hole? <==> s in rg.holes)
    ensures s <= d.highest && d.packets[s].Hole? ==> Signalled(d.(packets := d.packets - {s}), rg, sent, s + 1)
  {
    if s > d.highest {
      assert forall t :: t !in d.packets;
    }
  }

  /** A daemon that has everything it can get delivers exactly what the entry prescribes, empties its
      table and takes no fatal branch. */
  lemma EvsDeliverPrescribed(e: Daemon, rg: RingInfo, sent: seq<Packet>)
    requires EvsGood(e, rg, sent) && Complete(e)
    ensures 0 <= rg.aru <= rg.highest <= |sent|
    ensures Ordered(EvsDeliver(e, rg.procs).log) == Prescribed(sent, rg)
    ensures !EvsDeliver(e, rg.procs).alarm
  {
    hide EvsGood, Unsignalled, Signalled, Tail, Stop, BeforeSignal, AfterSignal, Complete, OrderedPrefix, Ordered,
      EvsDeliver, Signal;
    EvsMarks(e, rg, sent);
    BeforeSignalResult(e, rg, sent);
    var b := BeforeSignal(e);
    AfterBefore(b, rg, sent);
    EvsDeliverParts(e, rg.procs);
  }

  lemma EvsDeliverParts(e: Daemon, commit: seq<int>)
    ensures var b := BeforeSignal(e);
            var a := AfterSignal(Signal(b), commit, b.discarded + 1, false);
            && Ordered(EvsDeliver(e, commit).log) == Ordered(a.log) + [RegularView]
            && (EvsDeliver(e, commit).alarm <==> a.alarm || a.packets != map[])
  {
    hide BeforeSignal, AfterSignal, Ordered;
    var b := BeforeSignal(e);
    OrderedAppend(AfterSignal(Signal(b), commit, b.discarded + 1, false).log, RegularView);
  }

  function Signal(b: Daemon): Daemon {
    b.(log := b.log + [TransitionalSignal])
  }

  lemma AfterBefore(b: Daemon, rg: RingInfo, sent: seq<Packet>)
    requires Unsignalled(b, rg, sent) && b.discarded + 1 == Stop(sent, rg, b.discarded + 1)
    ensures 0 <= b.discarded <= rg.highest <= |sent|
    ensures var a := AfterSignal(Signal(b), rg.procs, b.discarded + 1, false);
            && a.packets == map[] && !a.alarm
            && Ordered(a.log) == OrderedPrefix(sent, b.discarded) + [TransitionalSignal]
                 + Tail(sent, rg, b.discarded + 1, false)
  {
    StopsWhereDelivered(b, rg, sent);
    LogUpTo(b, rg, sent);
    hide Stop, Ordered, Tail, AfterSignal, OrderedPrefix;
    OrderedAppend(b.log, TransitionalSignal);
    SignalledAfterStop(b, rg, sent);
    hide Signalled, Unsignalled;
    AfterSignalResult(Signal(b), rg, sent, b.discarded + 1, false);
  }

  lemma EvsMarks(e: Daemon, rg: RingInfo, sent: seq<Packet>)
    requires EvsGood(e, rg, sent) && Complete(e)
    ensures 0 <= rg.aru == e.discarded <= rg.highest <= |sent| && Unsignalled(e, rg, sent)
  {
    hide LogExact, LogOrdered, DeliveryMarks;
  }

  lemma LogUpTo(b: Daemon, rg: RingInfo, sent: seq<Packet>)
    requires Unsignalled(b, rg, sent)
    ensures 0 <= b.delivered <= |sent| && Ordered(b.log) == OrderedPrefix(sent, b.delivered)
  {}

  lemma SignalledAfterStop(b: Daemon, rg: RingInfo, sent: seq<Packet>)
    requires Unsignalled(b, rg, sent) && b.delivered == b.discarded
    ensures Signalled(Signal(b), rg, sent, b.discarded + 1)
  {
    hide LogOrdered;
  }

  // ---- An entry fits everyone who contributed to it ----

  /** What a contributor's own view implies for the agreed entry. */
  lemma GatheredBounds(cs: seq<Contributor>, sent: seq<Packet>, created: bool, k: nat)
    requires 1 <= |cs| <= MAX_PROCS_RING && Comparable(cs, sent) && k < |cs|
    ensures Gather(cs, created).Some?
    ensures var rg := Gather(cs, created).value;
            && 0 <= cs[k].d.discarded <= rg.aru <= cs[k].d.received && cs[k].d.highest <= rg.highest
            && rg.aru <= rg.highest <= |sent| && Ascending(rg.holes)
            && (forall h :: h in rg.holes ==> cs[k].d.received < h <= rg.highest && !Held(cs[k].d, h))
            && k < |rg.procs| && rg.procs[k] == cs[k].d.id
  {
    hide Good, Gather, Held, Ascending;
    GatherExact(cs, sent, created);
    var rg := Gather(cs, created).value;
    HighestKnown(cs[k].d, sent);
    var l :| 0 <= l < |cs| && cs[l].d.stable == rg.aru;
    HighestKnown(cs[l].d, sent);
    var m :| 0 <= m < |cs| && cs[m].d.highest == rg.highest;
    HighestKnown(cs[m].d, sent);
    forall h | h in rg.holes ensures cs[k].d.received < h && !Held(cs[k].d, h) {
      HoleAbove(cs[k].d, sent, h);
    }
  }

  lemma HoleAbove(d: Daemon, sent: seq<Packet>, h: int)
    requires Good(d, sent) && !Held(d, h)
    ensures d.received < h && h !in d.packets
  {
    hide LogExact, LogOrdered, DeliveryMarks;
  }

  lemma GatheredFits(cs: seq<Contributor>, sent: seq<Packet>, created: bool, k: nat, now: Daemon)
    requires 1 <= |cs| <= MAX_PROCS_RING && Comparable(cs, sent) && k < |cs| && Numbered(sent)
    requires RingSystem.OnlyCollects(cs[k].d, now) && Good(now, sent) && !now.evs
    ensures Gather(cs, created).Some? && Fits(now, Gather(cs, created).value, sent)
  {
    hide Good, Gather, Held, Ascending;
    GatheredBounds(cs, sent, created, k);
    var rg := Gather(cs, created).value;
    var snap := cs[k].d;
    HighestKnown(snap, sent);
    forall h | h in rg.holes ensures h !in snap.packets {
      HoleAbove(snap, sent, h);
    }
    forall s | s in snap.packets ensures s <= snap.highest {
      TableBounds(snap, sent, s);
    }
  }

  lemma TableBounds(d: Daemon, sent: seq<Packet>, s: int)
    requires Good(d, sent) && s in d.packets
    ensures d.discarded < s <= d.highest
  {}

  // ---- What the prescription contains ----

  lemma {:induction false} TailContains(sent: seq<Packet>, rg: RingInfo, from: int, foundHole: bool, s: int)
    requires 1 <= from <= s <= rg.highest <= |sent| && s !in rg.holes
    requires At(sent, s).sender in rg.procs && !IsFloating(At(sent, s))
    ensures Message(At(sent, s)) in Tail(sent, rg, from, foundHole)
    decreases s - from
  {
    if from < s {
      TailContains(sent, rg, from + 1, foundHole || from in rg.holes, s);
    }
  }

  lemma {:induction false} PrefixContains(sent: seq<Packet>, k: int, s: int)
    requires 1 <= s <= k <= |sent| && !IsFloating(At(sent, s))
    ensures Message(At(sent, s)) in OrderedPrefix(sent, k)
    decreases k
  {
    if s < k {
      PrefixContains(sent, k - 1, s);
    }
  }

  lemma PrescribedContains(sent: seq<Packet>, rg: RingInfo, s: int)
    requires 0 <= rg.aru <= rg.highest <= |sent| && 1 <= s <= rg.highest && s !in rg.holes
    requires At(sent, s).sender in rg.procs && !IsFloating(At(sent, s))
    ensures Message(At(sent, s)) in Prescribed(sent, rg)
  {
    var stop := Stop(sent, rg, rg.aru + 1);
    if s < stop {
      PrefixContains(sent, stop - 1, s);
    } else {
      TailContains(sent, rg, stop, false, s);
    }
  }

  lemma HeldUpToHighest(d: Daemon, sent: seq<Packet>, s: int)
    requires Good(d, sent) && Held(d, s)
    ensures s <= d.highest
  {
    hide LogExact, LogOrdered, DeliveryMarks;
  }

  // ---- Packets above the agreed number ----

  /** The last number's contribution to the events after the signal. */
  function LastPiece(sent: seq<Packet>, rg: RingInfo, s: int, foundHole: bool): seq<Event>
    requires 1 <= s <= |sent|
  {
    if IsFloating(At(sent, s)) || (foundHole && At(sent, s).sender !in rg.procs) then [] else [Message(At(sent, s))]
  }

  predicate HoleFrom(rg: RingInfo, from: int) {
    exists h :: h in rg.holes && from <= h <= rg.highest
  }

  lemma {:induction false} TailExtends(sent: seq<Packet>, rg: RingInfo, from: int, foundHole: bool)
    requires 1 <= from <= rg.highest + 1 <= |sent| && rg.highest + 1 !in rg.holes
    ensures Tail(sent, rg.(highest := rg.highest + 1), from, foundHole)
         == Tail(sent, rg, from, foundHole) + LastPiece(sent, rg, rg.highest + 1, foundHole || HoleFrom(rg, from))
    decreases rg.highest - from
  {
    var more := rg.(highest := rg.highest + 1);
    if from > rg.highest {
      assert Tail(sent, more, from + 1, foundHole) == [];
    } else {
      assert HoleFrom(rg, from) <==> from in rg.holes || HoleFrom(rg, from + 1);
      TailExtends(sent, rg, from + 1, foundHole || from in rg.holes);
    }
  }

  lemma {:induction false} StopExtends(sent: seq<Packet>, rg: RingInfo, from: int)
    requires 1 <= from <= rg.highest + 1 <= |sent| && rg.highest + 1 !in rg.holes
    ensures var more := rg.(highest := rg.highest + 1);
            Stop(sent, more, from) ==
              if Stop(sent, rg, from) <= rg.highest || At(sent, rg.highest + 1).service == Safe
              then Stop(sent, rg, from) else rg.highest + 2
    decreases rg.highest - from
  {
    if from <= rg.highest && !(from in rg.holes || At(sent, from).service == Safe) {
      StopExtends(sent, rg, from + 1);
    } else if from > rg.highest {
      assert Stop(sent, rg.(highest := rg.highest + 1), from + 1) == from + 1;
    }
  }

  /** Raising the agreed number by one adds exactly the events of that one packet. */
  lemma PrescribedExtends(sent: seq<Packet>, rg: RingInfo)
    requires 0 <= rg.aru <= rg.highest < |sent| && forall h :: h in rg.holes ==> rg.aru < h <= rg.highest
    ensures var p := At(sent, rg.highest + 1);
            if IsFloating(p) || (rg.holes != [] && p.sender !in rg.procs)
            then Prescribed(sent, rg.(highest := rg.highest + 1)) == Prescribed(sent, rg)
            else |Prescribed(sent, rg.(highest := rg.highest + 1))| == |Prescribed(sent, rg)| + 1
  {
    hide Tail, Stop, OrderedPrefix, Prescribed;
    var more := rg.(highest := rg.highest + 1);
    var stop := Stop(sent, rg, rg.aru + 1);
    StopExtends(sent, rg, rg.aru + 1);
    HoleBehindStop(sent, rg);
    if Stop(sent, more, rg.aru + 1) == stop {
      PrescribedInside(sent, rg);
    } else {
      PrescribedPastEnd(sent, rg);
    }
  }

  lemma HoleBehindStop(sent: seq<Packet>, rg: RingInfo)
    requires 0 <= rg.aru <= rg.highest <= |sent| && forall h :: h in rg.holes ==> rg.aru < h <= rg.highest
    ensures HoleFrom(rg, Stop(sent, rg, rg.aru + 1)) <==> rg.holes != []
    ensures Stop(sent, rg, rg.aru + 1) == rg.highest + 1 ==> rg.holes == []
  {
    if rg.holes != [] {
      var h := rg.holes[0];
      assert h in rg.holes && Stop(sent, rg, rg.aru + 1) <= h;
    }
  }

  lemma PrescribedInside(sent: seq<Packet>, rg: RingInfo)
    requires 0 <= rg.aru <= rg.highest < |sent| && rg.highest + 1 !in rg.holes
    requires Stop(sent, rg.(highest := rg.highest + 1), rg.aru + 1) == Stop(sent, rg, rg.aru + 1)
    ensures var piece := LastPiece(sent, rg, rg.highest + 1, HoleFrom(rg, Stop(sent, rg, rg.aru + 1)));
            if piece == [] then Prescribed(sent, rg.(highest := rg.highest + 1)) == Prescribed(sent, rg)
            else |Prescribed(sent, rg.(highest := rg.highest + 1))| == |Prescribed(sent, rg)| + 1
  {
    hide Tail, Stop, OrderedPrefix, LastPiece;
    TailExtends(sent, rg, Stop(sent, rg, rg.aru + 1), false);
    LastPieceShort(sent, rg, rg.highest + 1, HoleFrom(rg, Stop(sent, rg, rg.aru + 1)));
  }

  lemma LastPieceShort(sent: seq<Packet>, rg: RingInfo, s: int, foundHole: bool)
    requires 1 <= s <= |sent|
    ensures |LastPiece(sent, rg, s, foundHole)| <= 1
  {}

  lemma PrescribedPastEnd(sent: seq<Packet>, rg: RingInfo)
    requires 0 <= rg.aru <= rg.highest < |sent|
    requires Stop(sent, rg, rg.aru + 1) == rg.highest + 1
    requires Stop(sent, rg.(highest := rg.highest + 1), rg.aru + 1) == rg.highest + 2
    ensures var p := At(sent, rg.highest + 1);
            if IsFloating(p) then Prescribed(sent, rg.(highest := rg.highest + 1)) == Prescribed(sent, rg)
            else |Prescribed(sent, rg.(highest := rg.highest + 1))| == |Prescribed(sent, rg)| + 1
  {
    var more := rg.(highest := rg.highest + 1);
    assert Tail(sent, rg, rg.highest + 1, false) == [] && Tail(sent, more, rg.highest + 2, false) == [];
    assert OrderedPrefix(sent, rg.highest + 1) ==
      OrderedPrefix(sent, rg.highest) + if IsFloating(At(sent, rg.highest + 1)) then [] else [Message(At(sent, rg.highest + 1))];
  }

  /** Raising the agreed number over packet s changes nothing that the daemons deliver in order. */
  predicate Unheard(sent: seq<Packet>, rg: RingInfo, s: int) {
    1 <= s <= |sent| && (IsFloating(At(sent, s)) || (rg.holes != [] && At(sent, s).sender !in rg.procs))
  }

  /** Raising it further keeps the prescription exactly if every packet in between goes unheard. */
  lemma {:induction false} PrescribedAbove(sent: seq<Packet>, rg: RingInfo, highest: int)
    requires 0 <= rg.aru <= rg.highest <= highest <= |sent| && forall h :: h in rg.holes ==> rg.aru < h <= rg.highest
    ensures var more := rg.(highest := highest);
            && |Prescribed(sent, more)| >= |Prescribed(sent, rg)|
            && ((forall s :: rg.highest < s <= highest ==> Unheard(sent, rg, s)) ==> Prescribed(sent, more) == Prescribed(sent, rg))
            && (!(forall s :: rg.highest < s <= highest ==> Unheard(sent, rg, s)) ==> |Prescribed(sent, more)| > |Prescribed(sent, rg)|)
    decreases highest - rg.highest
  {
    hide Prescribed;
    if rg.highest < highest {
      PrescribedAbove(sent, rg, highest - 1);
      PrescribedExtends(sent, rg.(highest := highest - 1));
      assert rg.(highest := highest - 1).(highest := highest) == rg.(highest := highest);
      assert (forall s :: rg.highest < s <= highest ==> Unheard(sent, rg, s)) <==>
        (forall s :: rg.highest < s <= highest - 1 ==> Unheard(sent, rg, s)) && Unheard(sent, rg, highest);
    }
  }

  lemma InsertAbove(e: Daemon, rg: RingInfo, sent: seq<Packet>, s: int, received: int)
    requires EvsGood(e, rg, sent) && rg.highest < s <= |sent|
    ensures EvsGood(e.(packets := e.packets[s := Pending(At(sent, s))], highest := s, received := received),
                    rg.(highest := s), sent)
  {
    var f := e.(packets := e.packets[s := Pending(At(sent, s))], highest := s, received := received);
    InsertAboveTable(e, rg, sent, s, received);
    hide LogExact, LogOrdered, EvsTable, DeliveryMarks;
    assert s !in e.packets && s > e.discarded by { EvsHighest(e, rg, sent); }
    assert forall t :: Passed(f, t) <==> Passed(e, t);
    LogExactSame(e, f, sent);
    LogOrderedSame(e, f, sent);
  }

  lemma InsertAboveTable(e: Daemon, rg: RingInfo, sent: seq<Packet>, s: int, received: int)
    requires EvsTable(e, rg, sent) && DeliveryMarks(e) && rg.highest < s <= |sent|
    ensures var f := e.(packets := e.packets[s := Pending(At(sent, s))], highest := s, received := received);
            EvsTable(f, rg.(highest := s), sent) && DeliveryMarks(f)
  {}

  /** Any packet of the old ring arrives during recovery, above the agreed number or not. */
  lemma ReceiveAny(e: Daemon, rg: RingInfo, sent: seq<Packet>, s: int)
    requires EvsGood(e, rg, sent) && Numbered(sent) && 1 <= s <= |sent|
    ensures var f := HandleBcast(e, At(sent, s));
            && EvsGood(f, rg.(highest := Max(rg.highest, s)), sent)
            && f.packets.Keys == e.packets.Keys + (if s <= rg.aru then {} else {s})
  {
    hide LogExact, LogOrdered, DeliveryMarks;
    var p := At(sent, s);
    var f := HandleBcast(e, p);
    if s > e.discarded && s !in e.packets {
      assert f == e.(packets := e.packets[s := Pending(p)], highest := Max(e.highest, s), received := f.received);
      hide EvsTable, HandleBcast;
      if s <= rg.highest {
        assert rg.(highest := Max(rg.highest, s)) == rg;
        EvsInsert(e, rg, sent, s, f.received);
        assert e.highest == rg.highest by { EvsHighest(e, rg, sent); }
      } else {
        assert e.highest == rg.highest by { EvsHighest(e, rg, sent); }
        InsertAbove(e, rg, sent, s, f.received);
      }
    } else {
      assert f == e && rg.(highest := Max(rg.highest, s)) == rg;
    }
  }

  lemma EvsHighest(e: Daemon, rg: RingInfo, sent: seq<Packet>)
    requires EvsTable(e, rg, sent)
    ensures e.highest == rg.highest && e.discarded == rg.aru <= rg.highest
    ensures forall s :: s in e.packets ==> s <= rg.highest
  {}

  /** The largest of the agreed number and the numbers that arrived. */
  function Top(highest: int, numbers: seq<int>): (top: int)
    ensures highest <= top && (forall n :: n in numbers ==> n <= top) && (top == highest || top in numbers)
    decreases |numbers|
  {
    if numbers == [] then highest
    else
      assert forall n :: n in numbers <==> n == numbers[0] || n in numbers[1..];
      Top(Max(highest, numbers[0]), numbers[1..])
  }

  lemma {:induction false} CollectAny(e: Daemon, rg: RingInfo, sent: seq<Packet>, numbers: seq<int>)
    requires EvsGood(e, rg, sent) && Numbered(sent)
    requires forall k :: 0 <= k < |numbers| ==> 1 <= numbers[k] <= |sent|
    ensures var f := Collect(e, sent, numbers);
            && EvsGood(f, rg.(highest := Top(rg.highest, numbers)), sent)
            && (forall s :: s in f.packets <==> s in e.packets || (rg.aru < s && s in numbers))
    decreases |numbers|
  {
    hide EvsGood, HandleBcast;
    if numbers == [] {
      assert rg.(highest := Top(rg.highest, numbers)) == rg;
    } else {
      ReceiveAny(e, rg, sent, numbers[0]);
      var f := HandleBcast(e, At(sent, numbers[0]));
      CollectAny(f, rg.(highest := Max(rg.highest, numbers[0])), sent, numbers[1..]);
      assert forall s :: s in f.packets.Keys <==> s in e.packets.Keys || (rg.aru < s && s == numbers[0]);
      assert forall s :: s in numbers <==> s == numbers[0] || s in numbers[1..];
    }
  }

  /** During recovery a daemon does not ignore old-ring packets above the agreed number. Whatever set of packets
      arrives, its table is complete if and only if nothing is missing up to the largest of them. When it is, the daemon
      delivers what the entry prescribes if and only if every packet above the agreed number is floating, or there is
      a hole and the packet's sender did not come along. When it is not, delivering would be fatal; whether the daemon
      waits instead depends on when the packets arrive, see `EvsBarrier.AboveAgreedOutcome`. This is why recovery is
      assumed to see no packet above that number. */
  lemma PacketsAboveAgreed(e: Daemon, rg: RingInfo, sent: seq<Packet>, numbers: seq<int>)
    requires EvsGood(e, rg, sent) && Numbered(sent)
    requires forall k :: 0 <= k < |numbers| ==> 1 <= numbers[k] <= |sent|
    ensures 0 <= rg.aru <= rg.highest <= |sent|
    ensures var f := Collect(e, sent, numbers);
            && f.highest == Top(rg.highest, numbers)
            && (Complete(f) <==> forall s :: rg.aru < s <= f.highest ==> s in e.packets || s in numbers)
            && (EvsDeliver(f, rg.procs).alarm <==> !Complete(f))
            && (Complete(f) ==>
                  ((Ordered(EvsDeliver(f, rg.procs).log) == Prescribed(sent, rg)) <==>
                   forall s :: rg.highest < s <= f.highest ==> Unheard(sent, rg, s)))
  {
    CollectAny(e, rg, sent, numbers);
    var f := Collect(e, sent, numbers);
    var more := rg.(highest := Top(rg.highest, numbers));
    EvsBounds(e, rg, sent);
    EvsBounds(f, more, sent);
    hide EvsGood, HandleBcast, EvsDeliver, Prescribed, Collect, Ordered;
    if Complete(f) {
      EvsDeliverPrescribed(f, more, sent);
      PrescribedAbove(sent, rg, more.highest);
    } else {
      NotComplete(f, rg.procs);
    }
  }

  lemma NotComplete(f: Daemon, commit: seq<int>)
    requires !Complete(f)
    ensures EvsDeliver(f, commit).alarm
  {
    hide EvsDeliver;
    var s :| f.discarded < s <= f.highest && s !in f.packets;
    MissingIsFatal(f, commit, s);
  }

  lemma EvsBounds(e: Daemon, rg: RingInfo, sent: seq<Packet>)
    requires EvsGood(e, rg, sent)
    ensures 0 <= e.discarded == rg.aru <= rg.highest == e.highest <= |sent|
    ensures forall h :: h in rg.holes ==> rg.aru < h <= rg.highest
  {
    hide LogExact, LogOrdered, DeliveryMarks;
  }
}
