/** Reassembly across a membership change: behind a hole packets are left out, and still no message is torn. */
module EvsReassembly {
  import opened SpreadTypes
  import opened Delivery
  import opened FormToken
  import opened Recovery
  import opened VirtualSynchrony
  import opened Reassembly
  import Formations
  import Packing
  import RingSystem

  /** A log without the signal and the view. */
  function Messages(log: seq<Event>): (r: seq<Event>)
    ensures forall i :: 0 <= i < |r| ==> r[i].Message?
  {
    if log == [] then []
    else
      var last := log[|log| - 1];
      Messages(log[..|log| - 1]) + if last.Message? then [last] else []
  }

  ghost predicate MessagesGenuine(log: seq<Event>, sent: seq<Packet>) {
    forall i :: 0 <= i < |log| ==> log[i].Message? ==> Genuine(log[i], sent)
  }

  lemma {:induction false} MessagesKeep(log: seq<Event>, sent: seq<Packet>)
    requires MessagesGenuine(log, sent)
    ensures Genuines(Messages(log), sent)
    ensures forall id :: OrderedOf(Messages(log), id) == OrderedOf(log, id)
  {
    if log != [] {
      var init, e := log[..|log| - 1], log[|log| - 1];
      assert log == init + [e];
      MessagesKeep(init, sent);
      forall id ensures OrderedOf(Messages(log), id) == OrderedOf(log, id) {
        OrderedOfSnoc(init, e, id);
        OrderedOfSnoc(Messages(init), e, id);
        assert Messages(init) + [] == Messages(init);
      }
    }
  }

  lemma {:induction false} OrderedOfConcat(a: seq<Event>, b: seq<Event>, id: int)
    ensures OrderedOf(a + b, id) == OrderedOf(a, id) + OrderedOf(b, id)
  {
    if b == [] {
      assert a + b == a;
    } else {
      var init, e := b[..|b| - 1], b[|b| - 1];
      assert b == init + [e] && a + b == (a + init) + [e];
      OrderedOfConcat(a, init, id);
      OrderedOfSnoc(a + init, e, id);
      OrderedOfSnoc(init, e, id);
    }
  }

  // ---- What the prescription contains of one sender ----

  ghost predicate NoHoleOf(sent: seq<Packet>, rg: RingInfo) {
    forall s :: 1 <= s <= |sent| && At(sent, s).sender in rg.procs ==> s !in rg.holes
  }

  /** How far a sender's packets are delivered: all of them, or up to the first hole if it did not come along. */
  function Cut(sent: seq<Packet>, rg: RingInfo, id: int, s: int, foundHole: bool): (k: int)
    requires 1 <= s <= rg.highest + 1 && rg.highest <= |sent|
    ensures s - 1 <= k <= rg.highest && (id in rg.procs ==> k == rg.highest)
    decreases rg.highest - s
  {
    if id in rg.procs || s > rg.highest then rg.highest
    else if foundHole || s in rg.holes then s - 1
    else Cut(sent, rg, id, s + 1, false)
  }

  lemma {:induction false} NothingBehindHole(sent: seq<Packet>, rg: RingInfo, id: int, s: int)
    requires 1 <= s && rg.highest <= |sent| && id !in rg.procs
    ensures OrderedOf(Tail(sent, rg, s, true), id) == []
    decreases rg.highest - s
  {
    if s <= rg.highest {
      NothingBehindHole(sent, rg, id, s + 1);
      if s !in rg.holes {
        OrderedOfConcat(if IsFloating(At(sent, s)) || At(sent, s).sender !in rg.procs then [] else [Message(At(sent, s))],
                        Tail(sent, rg, s + 1, true), id);
      }
    }
  }

  /** One packet's contribution to what is delivered of a sender. */
  lemma PieceOf(sent: seq<Packet>, rg: RingInfo, id: int, s: int, foundHole: bool)
    requires 1 <= s <= rg.highest <= |sent| && s !in rg.holes && (foundHole ==> id in rg.procs)
    ensures OrderedOf(Tail(sent, rg, s, foundHole), id) ==
            (if !IsFloating(At(sent, s)) && At(sent, s).sender == id then [At(sent, s)] else [])
            + OrderedOf(Tail(sent, rg, s + 1, foundHole), id)
  {
    var piece: seq<Event> := if IsFloating(At(sent, s)) || (foundHole && At(sent, s).sender !in rg.procs) then [] else [Message(At(sent, s))];
    OrderedOfConcat(piece, Tail(sent, rg, s + 1, foundHole), id);
    OrderedOfSnoc([], Message(At(sent, s)), id);
    assert [] + [Message(At(sent, s))] == [Message(At(sent, s))];
  }

  lemma {:induction false} TailOf(sent: seq<Packet>, rg: RingInfo, id: int, s: int, foundHole: bool)
    requires 1 <= s <= rg.highest + 1 && rg.highest <= |sent| && NoHoleOf(sent, rg)
    ensures OrderedOf(OrderedPrefix(sent, s - 1), id) + OrderedOf(Tail(sent, rg, s, foundHole), id)
         == OrderedOf(OrderedPrefix(sent, Cut(sent, rg, id, s, foundHole)), id)
    decreases rg.highest - s
  {
    hide OrderedOf, OrderedPrefix;
    if s > rg.highest {
      NothingOf(id);
    } else if id !in rg.procs && foundHole {
      NothingBehindHole(sent, rg, id, s);
    } else if id !in rg.procs && s in rg.holes {
      NothingBehindHole(sent, rg, id, s + 1);
    } else {
      PrefixOf(sent, id, s);
      TailOf(sent, rg, id, s + 1, foundHole || s in rg.holes);
      if s in rg.holes {
        assert At(sent, s).sender != id;
      } else {
        PieceOf(sent, rg, id, s, foundHole);
      }
    }
  }

  lemma NothingOf(id: int)
    ensures OrderedOf([], id) == []
  {}

  /** Of every sender the prescription contains the packets up to some number, and of a sender in the commit set all. */
  lemma PrescribedOf(sent: seq<Packet>, rg: RingInfo, id: int) returns (k: nat)
    requires 0 <= rg.aru <= rg.highest <= |sent| && NoHoleOf(sent, rg)
    ensures k <= rg.highest && (id in rg.procs ==> k == rg.highest)
    ensures OrderedOf(Prescribed(sent, rg), id) == OrderedOf(OrderedPrefix(sent, k), id)
  {
    hide *;
    var stop := Stop(sent, rg, rg.aru + 1);
    PrescribedIs(sent, rg);
    k := Cut(sent, rg, id, stop, false);
    TailOf(sent, rg, id, stop, false);
    ViewsAside(OrderedPrefix(sent, stop - 1), Tail(sent, rg, stop, false), id);
  }

  lemma PrescribedIs(sent: seq<Packet>, rg: RingInfo)
    requires 0 <= rg.aru <= rg.highest <= |sent|
    ensures var stop := Stop(sent, rg, rg.aru + 1);
            Prescribed(sent, rg) == WithViews(OrderedPrefix(sent, stop - 1), Tail(sent, rg, stop, false))
  {
    hide OrderedPrefix, Tail, Stop, WithViews;
  }

  lemma ViewsAside(a: seq<Event>, b: seq<Event>, id: int)
    ensures OrderedOf(WithViews(a, b), id) == OrderedOf(a, id) + OrderedOf(b, id)
  {
    hide OrderedOf;
    OrderedOfSnoc(a, TransitionalSignal, id);
    OrderedOfConcat(a + [TransitionalSignal], b, id);
    OrderedOfSnoc(a + [TransitionalSignal] + b, RegularView, id);
  }

  // ---- Everything that is passed up is genuine ----

  lemma GenuineSnoc(log: seq<Event>, e: Event, sent: seq<Packet>)
    requires MessagesGenuine(log, sent) && (e.Message? ==> Genuine(e, sent))
    ensures MessagesGenuine(log + [e], sent)
  {}

  lemma {:induction false} BeforeGenuine(e: Daemon, rg: RingInfo, sent: seq<Packet>)
    requires Unsignalled(e, rg, sent) && Numbered(sent) && MessagesGenuine(e.log, sent)
    ensures MessagesGenuine(BeforeSignal(e).log, sent)
    decreases e.highest - e.discarded
  {
    hide LogOrdered, DeliveryMarks, MessagesGenuine;
    var s := e.discarded + 1;
    if s <= e.highest && !e.packets[s].Hole? && e.packets[s].p.service != Safe {
      DiscardOneUnsignalled(e, rg, sent);
      assert e.packets[s].p == At(sent, s);
      GenuineSnoc(e.log, Message(At(sent, s)), sent);
      BeforeGenuine(DiscardOne(e), rg, sent);
    }
  }

  lemma {:induction false} AfterGenuine(d: Daemon, rg: RingInfo, sent: seq<Packet>, s: int, foundHole: bool)
    requires Signalled(d, rg, sent, s) && Numbered(sent) && MessagesGenuine(d.log, sent)
    ensures MessagesGenuine(AfterSignal(d, rg.procs, s, foundHole).log, sent)
    decreases d.highest - s
  {
    hide Ordered, Signalled, At, MessagesGenuine, AfterOne, Numbered;
    SignalledSlot(d, rg, sent, s);
    if s <= d.highest {
      if d.packets[s].Hole? {
        AfterGenuine(d.(packets := d.packets - {s}), rg, sent, s + 1, true);
      } else {
        AfterOneSignalled(d, rg, sent, s, foundHole);
        AfterOneGenuine(d, rg, sent, s, foundHole);
        AfterGenuine(AfterOne(d, rg.procs, s, foundHole), rg, sent, s + 1, foundHole);
      }
    }
  }

  lemma AfterOneGenuine(d: Daemon, rg: RingInfo, sent: seq<Packet>, s: int, foundHole: bool)
    requires Signalled(d, rg, sent, s) && Numbered(sent) && MessagesGenuine(d.log, sent)
    requires s <= d.highest && !d.packets[s].Hole?
    ensures MessagesGenuine(AfterOne(d, rg.procs, s, foundHole).log, sent)
    ensures AfterOne(d, rg.procs, s, foundHole).highest == d.highest
  {
    hide MessagesGenuine;
    assert d.packets[s].p == At(sent, s);
    GenuineSnoc(d.log, Message(At(sent, s)), sent);
  }

  lemma LogGenuine(e: Daemon, rg: RingInfo, sent: seq<Packet>)
    requires EvsGood(e, rg, sent)
    ensures MessagesGenuine(e.log, sent)
  {
    hide EvsTable, DeliveryMarks, LogOrdered;
  }

  lemma EvsGenuine(e: Daemon, rg: RingInfo, sent: seq<Packet>)
    requires EvsGood(e, rg, sent) && VirtualSynchrony.Complete(e) && Numbered(sent)
    ensures MessagesGenuine(EvsDeliver(e, rg.procs).log, sent)
  {
    hide *;
    LogGenuine(e, rg, sent);
    EvsMarks(e, rg, sent);
    BeforeSignalResult(e, rg, sent);
    BeforeGenuine(e, rg, sent);
    RestGenuine(BeforeSignal(e), rg, sent);
    EvsDeliverIs(e, rg.procs);
  }

  lemma EvsDeliverIs(e: Daemon, commit: seq<int>)
    ensures var b := BeforeSignal(e);
            EvsDeliver(e, commit).log == AfterSignal(Signal(b), commit, b.discarded + 1, false).log + [RegularView]
  {
    hide BeforeSignal, AfterSignal;
  }

  lemma RestGenuine(b: Daemon, rg: RingInfo, sent: seq<Packet>)
    requires Unsignalled(b, rg, sent) && b.discarded + 1 == Stop(sent, rg, b.discarded + 1)
    requires Numbered(sent) && MessagesGenuine(b.log, sent)
    ensures MessagesGenuine(AfterSignal(Signal(b), rg.procs, b.discarded + 1, false).log + [RegularView], sent)
  {
    StopsWhereDelivered(b, rg, sent);
    SignalledAfterStop(b, rg, sent);
    GenuineSnoc(b.log, TransitionalSignal, sent);
    hide Unsignalled, Signalled, MessagesGenuine, AfterSignal;
    AfterGenuine(Signal(b), rg, sent, b.discarded + 1, false);
    GenuineSnoc(AfterSignal(Signal(b), rg.procs, b.discarded + 1, false).log, RegularView, sent);
  }

  // ---- The theorem ----

  /** What a member that comes through a change has delivered of the old ring, from the ring's first packet to the new
      view, holes and left out packets notwithstanding: every sender's packets come in order and without a gap, so the
      fatal sequence check does not fire and every packet yields exactly the messages that its sender completed with
      it; and of a daemon in the commit set nothing is missing. */
  lemma NoMessageTorn(w: Formations.World, base: RingSystem.System, maxAllowed: nat, i: nat)
    requires Formations.Reachable(w, base, maxAllowed) && i < |w.members| && w.members[i].phase.Recovering?
    requires VirtualSynchrony.Complete(w.members[i].d) && FromQueues(w.sent)
    ensures w.members[i].phase.entry < |w.entries| && Formations.Info(w.entries[w.members[i].phase.entry]).Some?
    ensures var commit := Formations.Info(w.entries[w.members[i].phase.entry]).value.procs;
            var log := Messages(EvsDeliver(w.members[i].d, commit).log);
            && Genuines(log, w.sent) && SenderOrder(log, w.sent)
            && !DeliverAll(log).failed && Reassembly.Complete(DeliverAll(log), log, w.sent)
            && forall id :: id in commit ==> Follows(log, w.sent, id, |w.sent|)
  {
    hide Formations.Reachable, FromQueues, Formations.Info, EvsGood, EvsDeliver, Ordered, Prescribed, VirtualSynchrony.Complete,
      DeliverAll, Reassembly.Complete, InStep, Numbered;
    Formations.RecoveringState(w, base, maxAllowed, i);
    Formations.RecoveryPrescribed(w, base, maxAllowed, i);
    var k := w.members[i].phase.entry;
    Formations.EveryEntryExact(w, base, maxAllowed, k);
    var rg := Formations.Info(w.entries[k]).value;
    EvsGenuine(w.members[i].d, rg, w.sent);
    var full := EvsDeliver(w.members[i].d, rg.procs).log;
    MessagesKeep(full, w.sent);
    InSenderOrder(full, w.sent, rg);
    hide Genuines, SenderOrder, MessagesGenuine;
    DeliveredAsSent(Messages(full), w.sent);
    Unfailed(DeliverAll(Messages(full)), Messages(full), w.sent);
  }

  lemma InSenderOrder(full: seq<Event>, sent: seq<Packet>, rg: RingInfo)
    requires 0 <= rg.aru <= rg.highest <= |sent| && Ordered(full) == Prescribed(sent, rg)
    requires forall s :: 1 <= s <= |sent| && At(sent, s).sender in rg.procs ==> s <= rg.highest && s !in rg.holes
    requires forall id :: OrderedOf(Messages(full), id) == OrderedOf(full, id)
    ensures SenderOrder(Messages(full), sent)
    ensures forall id :: id in rg.procs ==> Follows(Messages(full), sent, id, |sent|)
  {
    hide OrderedOf, OrderedPrefix, Ordered, Prescribed;
    forall id ensures FollowsSome(Messages(full), sent, id)
              ensures id in rg.procs ==> Follows(Messages(full), sent, id, |sent|)
    {
      OrderedKeepsSender(full, id);
      var k := PrescribedOf(sent, rg, id);
      assert Follows(Messages(full), sent, id, k);
      if id in rg.procs {
        NothingAbove(sent, id, rg.highest, |sent|);
      }
    }
  }

  lemma {:induction false} NothingAbove(sent: seq<Packet>, id: int, j: nat, k: nat)
    requires j <= k <= |sent| && forall s :: j < s <= k ==> At(sent, s).sender != id
    ensures OrderedOf(OrderedPrefix(sent, j), id) == OrderedOf(OrderedPrefix(sent, k), id)
    decreases k
  {
    if j < k {
      NothingAbove(sent, id, j, k - 1);
      PrefixOf(sent, id, k);
    }
  }
}
