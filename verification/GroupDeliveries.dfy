/** From the deliveries of an old ring to the histories of the groups: what the group layer is assumed to get from the
layer below is what recovery has been shown to deliver.

Everything here looks at the ordered deliveries of one ring, from its first packet to the next view, split at the
transitional signal. */
module GroupDeliveries {
  import opened SpreadTypes
  import opened Delivery
  import opened FormToken
  import opened Recovery
  import opened VirtualSynchrony
  import opened GroupBuffers
  import EvsBarrier
  import Formations
  import GroupHistory
  import GroupIds

  // ---- The two stretches of a delivery ----

  predicate OnlyMessages(events: seq<Event>) {
    forall k :: 0 <= k < |events| ==> events[k].Message?
  }

  /** Everything ahead of the transitional signal. */
  function Ahead(events: seq<Event>): (r: seq<Event>)
    ensures |r| <= |events|
  {
    if events == [] || events[0].TransitionalSignal? then [] else [events[0]] + Ahead(events[1..])
  }

  /** Everything between the transitional signal and the view that ends the delivery. */
  function Behind(events: seq<Event>): seq<Event> {
    var rest := events[|Ahead(events)|..];
    if |rest| < 2 then [] else rest[1..|rest| - 1]
  }

  lemma {:induction false} AheadOf(a: seq<Event>, rest: seq<Event>)
    requires OnlyMessages(a)
    ensures Ahead(a + [TransitionalSignal] + rest) == a
  {
    var all := a + [TransitionalSignal] + rest;
    if a != [] {
      assert all[1..] == a[1..] + [TransitionalSignal] + rest;
      AheadOf(a[1..], rest);
    }
  }

  lemma Stretches(a: seq<Event>, b: seq<Event>)
    requires OnlyMessages(a) && OnlyMessages(b)
    ensures Ahead(WithViews(a, b)) == a && Behind(WithViews(a, b)) == b
  {
    var all := WithViews(a, b);
    assert all == a + [TransitionalSignal] + (b + [RegularView]);
    AheadOf(a, b + [RegularView]);
    assert all[|a|..] == [TransitionalSignal] + b + [RegularView];
  }

  lemma {:induction false} OrderedConcat(a: seq<Event>, b: seq<Event>)
    ensures Ordered(a + b) == Ordered(a) + Ordered(b)
  {
    if b == [] {
      assert a + b == a;
    } else {
      var init, e := b[..|b| - 1], b[|b| - 1];
      assert b == init + [e] && a + b == (a + init) + [e];
      OrderedConcat(a, init);
      OrderedAppend(a + init, e);
      OrderedAppend(init, e);
    }
  }

  lemma {:induction false} OrderedMessages(a: seq<Event>)
    requires OnlyMessages(a)
    ensures OnlyMessages(Ordered(a))
  {
    if a != [] {
      OrderedMessages(a[..|a| - 1]);
    }
  }

  lemma OrderedViews(a: seq<Event>, b: seq<Event>)
    ensures Ordered(WithViews(a, b)) == WithViews(Ordered(a), Ordered(b))
  {
    OrderedAppend(a, TransitionalSignal);
    OrderedConcat(a + [TransitionalSignal], b);
    OrderedAppend(a + [TransitionalSignal] + b, RegularView);
  }

  /** What the prescription has ahead of the signal and behind it. */
  function PrescribedAhead(sent: seq<Packet>, rg: RingInfo): seq<Event>
    requires 0 <= rg.aru <= rg.highest <= |sent|
  {
    OrderedPrefix(sent, Stop(sent, rg, rg.aru + 1) - 1)
  }

  function PrescribedBehind(sent: seq<Packet>, rg: RingInfo): seq<Event>
    requires 0 <= rg.aru <= rg.highest <= |sent|
  {
    Tail(sent, rg, Stop(sent, rg, rg.aru + 1), false)
  }

  lemma {:induction false} PrefixMessages(sent: seq<Packet>, k: int)
    requires 0 <= k <= |sent|
    ensures OnlyMessages(OrderedPrefix(sent, k))
    decreases k
  {
    if k > 0 {
      PrefixMessages(sent, k - 1);
    }
  }

  lemma {:induction false} TailMessages(sent: seq<Packet>, rg: RingInfo, s: int, foundHole: bool)
    requires 1 <= s && rg.highest <= |sent|
    ensures OnlyMessages(Tail(sent, rg, s, foundHole))
    decreases rg.highest - s
  {
    if s <= rg.highest {
      TailMessages(sent, rg, s + 1, foundHole || s in rg.holes);
    }
  }

  /** A delivery that comes in two stretches of messages and contains the prescribed events contains them stretch by
      stretch. */
  lemma SameStretches(a: seq<Event>, b: seq<Event>, sent: seq<Packet>, rg: RingInfo)
    requires OnlyMessages(a) && OnlyMessages(b) && 0 <= rg.aru <= rg.highest <= |sent|
    requires Ordered(WithViews(a, b)) == Prescribed(sent, rg)
    ensures Ordered(a) == PrescribedAhead(sent, rg) && Ordered(b) == PrescribedBehind(sent, rg)
  {
    hide Ordered, Ahead, Behind, WithViews, OnlyMessages, Stop, Tail, OrderedPrefix;
    OrderedViews(a, b);
    OrderedMessages(a);
    OrderedMessages(b);
    Stretches(Ordered(a), Ordered(b));
    PrefixMessages(sent, Stop(sent, rg, rg.aru + 1) - 1);
    TailMessages(sent, rg, Stop(sent, rg, rg.aru + 1), false);
    Stretches(PrescribedAhead(sent, rg), PrescribedBehind(sent, rg));
  }

  /** A complete daemon's delivery, stretch by stretch. */
  lemma DeliveredStretches(e: Daemon, rg: RingInfo, sent: seq<Packet>)
    requires EvsGood(e, rg, sent) && Complete(e)
    ensures 0 <= rg.aru <= rg.highest <= |sent|
    ensures var log := EvsDeliver(e, rg.procs).log;
            Ordered(Ahead(log)) == PrescribedAhead(sent, rg) && Ordered(Behind(log)) == PrescribedBehind(sent, rg)
  {
    hide EvsGood, Complete, Stop, LogExact, LogOrdered, DeliveryMarks, EvsTable, AfterOne, DiscardOne, Tail,
      OrderedPrefix;
    EvsDeliverPrescribed(e, rg, sent);
    Formations.OnlyMessages(e, rg, sent);
    hide Ordered, Prescribed, PrescribedAhead, PrescribedBehind, Ahead, Behind, BeforeSignal, AfterSignal;
    var ahead := Formations.BeforeSignalAdds(e);
    var t := BeforeSignal(e).(log := BeforeSignal(e).log + [TransitionalSignal]);
    var behind := Formations.AfterSignalAdds(t, rg.procs, t.discarded + 1, false);
    var a := e.log + ahead;
    assert EvsDeliver(e, rg.procs).log == WithViews(a, behind);
    SameStretches(a, behind, sent, rg);
    Stretches(a, behind);
  }

  // ---- GROUPS messages ----

  /** Reading messages out of ordered packets, with whatever the reader keeps of unfinished ones. */
  function Reads<S>(state: S, events: seq<Event>, step: (S, Packet) -> (S, seq<GroupHistory.Message>)):
    (S, seq<GroupHistory.Message>)
  {
    if events == [] then (state, [])
    else
      var (before, read) := Reads(state, events[..|events| - 1], step);
      var e := events[|events| - 1];
      if !e.Message? || IsFloating(e.p) then (before, read)
      else
        var (after, more) := step(before, e.p);
        (after, read + more)
  }

  lemma {:induction false} ReadsOrdered<S>(state: S, events: seq<Event>, step: (S, Packet) -> (S, seq<GroupHistory.Message>))
    ensures Reads(state, Ordered(events), step) == Reads(state, events, step)
  {
    if events != [] {
      var init, e := events[..|events| - 1], events[|events| - 1];
      ReadsOrdered(state, init, step);
      if e.Message? && IsFloating(e.p) {
        assert Ordered(events) == Ordered(init) + [] == Ordered(init);
      } else {
        assert Ordered(events) == Ordered(init) + [e];
        assert (Ordered(init) + [e])[..|Ordered(init)|] == Ordered(init);
      }
    }
  }

  /** The part of the next membership that an old ring's survivors are: determined by the entry alone. */
  function PartFrom<S>(earlier: GroupHistory.Ring, survivors: set<int>, sent: seq<Packet>, rg: RingInfo, state: S,
                       step: (S, Packet) -> (S, seq<GroupHistory.Message>)): GroupHistory.Part
    requires 0 <= rg.aru <= rg.highest <= |sent|
  {
    var (between, before) := Reads(state, PrescribedAhead(sent, rg), step);
    GroupHistory.From(earlier, survivors, before, Reads(between, PrescribedBehind(sent, rg), step).1)
  }

  /** What histories take from virtual synchrony: all daemons of an old ring that come into the new one together read the
      same GROUPS messages, at the same side of the transitional membership. */
  lemma SurvivorsArePart<S>(olds: seq<Formations.Old>, places: seq<Formations.Place>, start: EvsBarrier.System,
                            steps: seq<EvsBarrier.Step>, first: nat, r: nat, i: nat, p: nat,
                            earlier: GroupHistory.Ring, survivors: set<int>, state: S,
                            step: (S, Packet) -> (S, seq<GroupHistory.Message>))
    requires Formations.Assembled(olds, places, start) && EvsBarrier.ValidRun(start, steps)
    requires var sys := EvsBarrier.Run(start, steps);
             first < |sys.ring| && sys.ring[first].installed && Formations.Became(olds, r, i, sys, p)
    requires olds[r].w.members[i].phase.Recovering?
    ensures var w := olds[r].w;
            w.members[i].phase.entry < |w.entries| && Formations.Info(w.entries[w.members[i].phase.entry]).Some?
    ensures var w := olds[r].w;
            var rg := Formations.Info(w.entries[w.members[i].phase.entry]).value;
            var log := EvsDeliver(EvsBarrier.Run(start, steps).ring[p].d, rg.procs).log;
            var read := Reads(state, Ahead(log), step);
            && 0 <= rg.aru <= rg.highest <= |w.sent|
            && PartFrom(earlier, survivors, w.sent, rg, state, step)
               == GroupHistory.From(earlier, survivors, read.1, Reads(read.0, Behind(log), step).1)
  {
    hide Formations.Assembled, Formations.Info, EvsBarrier.Run, EvsBarrier.Start, EvsDeliver, EvsGood, Ordered, Ahead, Behind,
      PrescribedAhead, PrescribedBehind, Reads, Complete;
    Formations.Installed(olds, places, start, steps, first, r, i, p);
    Formations.MemberOf(olds, places, start, steps, first, r, i, p);
    var m := EvsBarrier.Run(start, steps).ring[p];
    DeliveredStretches(m.d, m.rg, m.sent);
    var log := EvsDeliver(m.d, m.rg.procs).log;
    ReadsOrdered(state, Ahead(log), step);
    var between := Reads(state, Ahead(log), step).0;
    ReadsOrdered(between, Behind(log), step);
  }

  // ---- Joins and leaves ----

  /** All joins and leaves of one group in the first k packets; they do not cross packets here. */
  function Ops(sent: seq<Packet>, k: int, read: Packet -> seq<GroupIds.Op>): seq<GroupIds.Op>
    requires 0 <= k <= |sent|
  {
    if k == 0 then [] else Ops(sent, k - 1, read) + read(At(sent, k))
  }

  /** A daemon's clients join and leave through ordered packets of the daemon. */
  ghost predicate OwnOps(sent: seq<Packet>, read: Packet -> seq<GroupIds.Op>) {
    forall s, op :: 1 <= s <= |sent| && op in read(At(sent, s)) ==>
      op.who.proc == At(sent, s).sender && !IsFloating(At(sent, s))
  }

  function ApplyAll(st: GroupIds.Status, ops: seq<GroupIds.Op>, v: GroupIds.View): GroupIds.Status {
    if ops == [] then st else GroupIds.Apply(ApplyAll(st, ops[..|ops| - 1], v), ops[|ops| - 1], v)
  }

  /** The group after a stretch of events, of which only the ordered packets matter. */
  function Follow(st: GroupIds.Status, events: seq<Event>, read: Packet -> seq<GroupIds.Op>, v: GroupIds.View): GroupIds.Status {
    if events == [] then st
    else
      var before := Follow(st, events[..|events| - 1], read, v);
      var e := events[|events| - 1];
      if e.Message? && !IsFloating(e.p) then ApplyAll(before, read(e.p), v) else before
  }

  lemma {:induction false} OpsGrow(sent: seq<Packet>, j: int, k: int, read: Packet -> seq<GroupIds.Op>)
    requires 0 <= j <= k <= |sent|
    ensures Ops(sent, j, read) <= Ops(sent, k, read)
    decreases k
  {
    if j < k {
      OpsGrow(sent, j, k - 1, read);
    }
  }

  /** Delivering the operations of a whole packet one by one. */
  lemma {:induction false} DeliverSome(st: GroupIds.Status, ops: seq<GroupIds.Op>, from: nat, some: seq<GroupIds.Op>,
                                       heard: set<int>, v: GroupIds.View)
    requires from + |some| <= |ops| && ops[from..from + |some|] == some
    requires forall p :: from <= p < from + |some| ==> p in heard
    ensures GroupIds.Deliver(st, ops, from, from + |some|, heard, v) == ApplyAll(st, some, v)
    decreases |some|
  {
    if some != [] {
      var init := some[..|some| - 1];
      assert ops[from..from + |init|] == init;
      DeliverSome(st, ops, from, init, heard, v);
      assert ops[from + |init|] == some[|init|];
    }
  }

  lemma {:induction false} DeliverNone(st: GroupIds.Status, ops: seq<GroupIds.Op>, from: nat, upTo: nat, heard: set<int>, v: GroupIds.View)
    requires upTo <= |ops| && forall p :: from <= p < upTo ==> p !in heard
    ensures GroupIds.Deliver(st, ops, from, upTo, heard, v) == st
    decreases upTo
  {
    if from < upTo {
      DeliverNone(st, ops, from, upTo - 1, heard, v);
    }
  }

  /** One more packet; a floating one has no operations and is not among the ordered ones. */
  lemma FollowOne(st: GroupIds.Status, events: seq<Event>, p: Packet, read: Packet -> seq<GroupIds.Op>, v: GroupIds.View)
    requires IsFloating(p) ==> read(p) == []
    ensures Follow(st, events + if IsFloating(p) then [] else [Message(p)], read, v)
         == ApplyAll(Follow(st, events, read, v), read(p), v)
  {
    hide ApplyAll;
    if IsFloating(p) {
      assert events + [] == events;
      ApplyNothing(Follow(st, events, read, v), v);
    } else {
      assert (events + [Message(p)])[..|events|] == events;
    }
  }

  lemma ApplyNothing(st: GroupIds.Status, v: GroupIds.View)
    ensures ApplyAll(st, [], v) == st
  {}

  lemma {:induction false} FollowConcat(st: GroupIds.Status, a: seq<Event>, b: seq<Event>, read: Packet -> seq<GroupIds.Op>,
                                        v: GroupIds.View)
    ensures Follow(st, a + b, read, v) == Follow(Follow(st, a, read, v), b, read, v)
  {
    hide ApplyAll;
    if b == [] {
      assert a + b == a;
    } else {
      var init := b[..|b| - 1];
      assert (a + b)[..|a + b| - 1] == a + init;
      FollowConcat(st, a, init, read, v);
    }
  }

  lemma NoOps(sent: seq<Packet>, s: int, read: Packet -> seq<GroupIds.Op>)
    requires OwnOps(sent, read) && 1 <= s <= |sent|
    ensures IsFloating(At(sent, s)) ==> read(At(sent, s)) == []
  {
    if read(At(sent, s)) != [] {
      var op := read(At(sent, s))[0];
      assert op in read(At(sent, s)) && op.who.proc == At(sent, s).sender;
    }
  }

  /** Where the operations of one packet are among all. */
  lemma PlaceOfOps(sent: seq<Packet>, s: int, read: Packet -> seq<GroupIds.Op>)
    requires 1 <= s <= |sent|
    ensures var ops, lo, hi := Ops(sent, |sent|, read), |Ops(sent, s - 1, read)|, |Ops(sent, s, read)|;
            lo <= hi <= |ops| && hi == lo + |read(At(sent, s))| && ops[lo..hi] == read(At(sent, s))
  {
    var ops, upTo := Ops(sent, |sent|, read), Ops(sent, s, read);
    OpsGrow(sent, s, |sent|, read);
    assert upTo == Ops(sent, s - 1, read) + read(At(sent, s));
    var lo, hi := |Ops(sent, s - 1, read)|, |upTo|;
    assert ops[..hi] == upTo;
    assert ops[lo..hi] == ops[..hi][lo..];
  }

  /** Delivering one more packet is delivering its operations. */
  lemma DeliverPacket(st: GroupIds.Status, sent: seq<Packet>, s: int, read: Packet -> seq<GroupIds.Op>, heard: set<int>,
                      v: GroupIds.View)
    requires 1 <= s <= |sent|
    requires forall p :: |Ops(sent, s - 1, read)| <= p < |Ops(sent, s, read)| ==> p in heard
    ensures |Ops(sent, s, read)| <= |Ops(sent, |sent|, read)|
    ensures GroupIds.Deliver(st, Ops(sent, |sent|, read), |Ops(sent, s - 1, read)|, |Ops(sent, s, read)|, heard, v)
         == ApplyAll(st, read(At(sent, s)), v)
  {
    hide Ops, ApplyAll, GroupIds.Deliver;
    PlaceOfOps(sent, s, read);
    DeliverSome(st, Ops(sent, |sent|, read), |Ops(sent, s - 1, read)|, read(At(sent, s)), heard, v);
  }

  /** Ahead of the signal every operation is delivered, up to a number that is the same for all. */
  lemma {:induction false} FollowsAhead(st: GroupIds.Status, sent: seq<Packet>, k: int, read: Packet -> seq<GroupIds.Op>,
                                        v: GroupIds.View)
    requires 0 <= k <= |sent| && OwnOps(sent, read)
    ensures |Ops(sent, k, read)| <= |Ops(sent, |sent|, read)|
    ensures var ops := Ops(sent, |sent|, read);
            Follow(st, OrderedPrefix(sent, k), read, v)
            == GroupIds.Deliver(st, ops, 0, |Ops(sent, k, read)|, GroupIds.First(|ops|), v)
    decreases k
  {
    hide OwnOps, ApplyAll;
    var ops := Ops(sent, |sent|, read);
    OpsGrow(sent, k, |sent|, read);
    if k > 0 {
      FollowsAhead(st, sent, k - 1, read, v);
      FollowsOneMore(st, sent, k, read, v);
    }
  }

  lemma FollowsOneMore(st: GroupIds.Status, sent: seq<Packet>, k: int, read: Packet -> seq<GroupIds.Op>, v: GroupIds.View)
    requires 0 < k <= |sent| && OwnOps(sent, read)
    requires |Ops(sent, k - 1, read)| <= |Ops(sent, k, read)| <= |Ops(sent, |sent|, read)|
    requires var ops := Ops(sent, |sent|, read);
             Follow(st, OrderedPrefix(sent, k - 1), read, v)
             == GroupIds.Deliver(st, ops, 0, |Ops(sent, k - 1, read)|, GroupIds.First(|ops|), v)
    ensures var ops := Ops(sent, |sent|, read);
            Follow(st, OrderedPrefix(sent, k), read, v)
            == GroupIds.Deliver(st, ops, 0, |Ops(sent, k, read)|, GroupIds.First(|ops|), v)
  {
    hide OwnOps, ApplyAll, Ops, Follow, GroupIds.Deliver, GroupIds.First, At;
    var ops := Ops(sent, |sent|, read);
    var all := GroupIds.First(|ops|);
    var events := OrderedPrefix(sent, k - 1);
    NoOps(sent, k, read);
    FollowOne(st, events, At(sent, k), read, v);
    DeliverPacket(Follow(st, events, read, v), sent, k, read, all, v);
    GroupIds.DeliverSplit(st, ops, 0, |Ops(sent, k - 1, read)|, |Ops(sent, k, read)|, all, v);
  }

  /** The numbers of the operations that are delivered from packet s on. */
  function Heard(sent: seq<Packet>, rg: RingInfo, s: int, foundHole: bool, read: Packet -> seq<GroupIds.Op>): set<int>
    requires 1 <= s && rg.highest <= |sent|
    decreases rg.highest - s
  {
    if s > rg.highest then {}
    else
      (if Left(sent, rg, s, foundHole) then {}
       else GroupIds.First(|Ops(sent, s, read)|) - GroupIds.First(|Ops(sent, s - 1, read)|))
      + Heard(sent, rg, s + 1, foundHole || s in rg.holes, read)
  }

  /** A packet that is not delivered behind the signal. */
  predicate Left(sent: seq<Packet>, rg: RingInfo, s: int, foundHole: bool)
    requires 1 <= s <= rg.highest <= |sent|
  {
    s in rg.holes || (foundHole && At(sent, s).sender !in rg.procs)
  }

  lemma {:induction false} HeardBounds(sent: seq<Packet>, rg: RingInfo, s: int, foundHole: bool, read: Packet -> seq<GroupIds.Op>, p: int)
    requires 1 <= s <= rg.highest + 1 && rg.highest <= |sent| && p in Heard(sent, rg, s, foundHole, read)
    ensures |Ops(sent, s - 1, read)| <= p < |Ops(sent, rg.highest, read)|
    decreases rg.highest - s
  {
    hide Left;
    if s <= rg.highest {
      OpsGrow(sent, s - 1, s, read);
      OpsGrow(sent, s, rg.highest, read);
      if p in Heard(sent, rg, s + 1, foundHole || s in rg.holes, read) {
        HeardBounds(sent, rg, s + 1, foundHole || s in rg.holes, read, p);
      }
    }
  }

  /** Nothing that a daemon of the commit set sent is missed. */
  lemma {:induction false} OwnHeard(sent: seq<Packet>, rg: RingInfo, s: int, foundHole: bool, read: Packet -> seq<GroupIds.Op>, p: int)
    requires 1 <= s <= |sent| + 1 && rg.highest <= |sent| && OwnOps(sent, read)
    requires forall t :: s <= t <= |sent| && At(sent, t).sender in rg.procs ==> t <= rg.highest && t !in rg.holes
    requires |Ops(sent, s - 1, read)| <= p < |Ops(sent, |sent|, read)|
    requires Ops(sent, |sent|, read)[p].who.proc in rg.procs
    ensures p in Heard(sent, rg, s, foundHole, read)
    decreases |sent| + 1 - s
  {
    var ops := Ops(sent, |sent|, read);
    if s <= |sent| {
      PlaceOfOps(sent, s, read);
      if p < |Ops(sent, s, read)| {
        assert ops[p] == read(At(sent, s))[p - |Ops(sent, s - 1, read)|];
        assert ops[p] in read(At(sent, s));
      } else {
        OwnHeard(sent, rg, s + 1, foundHole || s in rg.holes, read, p);
      }
    }
  }

  /** Behind the signal exactly the operations in `Heard` are delivered. */
  lemma {:induction false} FollowsBehind(st: GroupIds.Status, sent: seq<Packet>, rg: RingInfo, s: int, foundHole: bool,
                                         read: Packet -> seq<GroupIds.Op>, v: GroupIds.View, heard: set<int>)
    requires 1 <= s <= rg.highest + 1 && rg.highest <= |sent| && OwnOps(sent, read)
    requires forall p :: |Ops(sent, s - 1, read)| <= p ==> (p in heard <==> p in Heard(sent, rg, s, foundHole, read))
    ensures |Ops(sent, s - 1, read)| <= |Ops(sent, |sent|, read)|
    ensures var ops := Ops(sent, |sent|, read);
            Follow(st, Tail(sent, rg, s, foundHole), read, v)
            == GroupIds.Deliver(st, ops, |Ops(sent, s - 1, read)|, |ops|, heard, v)
    decreases rg.highest - s
  {
    hide OwnOps, ApplyAll, Ops, GroupIds.Deliver, At, Left;
    var ops := Ops(sent, |sent|, read);
    OpsGrow(sent, s - 1, |sent|, read);
    if s > rg.highest {
      DeliverNone(st, ops, |Ops(sent, s - 1, read)|, |ops|, heard, v);
    } else {
      var more := foundHole || s in rg.holes;
      HeardBelow(sent, rg, s, foundHole, read, heard);
      var next := FollowsPacket(st, sent, rg, s, foundHole, read, v, heard);
      FollowsBehind(next, sent, rg, s + 1, more, read, v, heard);
      GroupIds.DeliverSplit(st, ops, |Ops(sent, s - 1, read)|, |Ops(sent, s, read)|, |ops|, heard, v);
    }
  }

  /** What `Heard` says of packet s and of those behind it. */
  lemma HeardBelow(sent: seq<Packet>, rg: RingInfo, s: int, foundHole: bool, read: Packet -> seq<GroupIds.Op>, heard: set<int>)
    requires 1 <= s <= rg.highest <= |sent|
    requires forall p :: |Ops(sent, s - 1, read)| <= p ==> (p in heard <==> p in Heard(sent, rg, s, foundHole, read))
    ensures |Ops(sent, s - 1, read)| <= |Ops(sent, s, read)| <= |Ops(sent, |sent|, read)|
    ensures forall p :: |Ops(sent, s - 1, read)| <= p < |Ops(sent, s, read)| ==> (p in heard <==> !Left(sent, rg, s, foundHole))
    ensures forall p :: |Ops(sent, s, read)| <= p ==> (p in heard <==> p in Heard(sent, rg, s + 1, foundHole || s in rg.holes, read))
  {
    hide Ops, At, Left;
    OpsGrow(sent, s - 1, s, read);
    OpsGrow(sent, s, |sent|, read);
    var behind := Heard(sent, rg, s + 1, foundHole || s in rg.holes, read);
    forall p | p in behind
      ensures |Ops(sent, s, read)| <= p
    {
      HeardBounds(sent, rg, s + 1, foundHole || s in rg.holes, read, p);
    }
  }

  lemma FollowsPacket(st: GroupIds.Status, sent: seq<Packet>, rg: RingInfo, s: int, foundHole: bool,
                      read: Packet -> seq<GroupIds.Op>, v: GroupIds.View, heard: set<int>) returns (next: GroupIds.Status)
    requires 1 <= s <= rg.highest <= |sent| && OwnOps(sent, read)
    requires |Ops(sent, s - 1, read)| <= |Ops(sent, s, read)| <= |Ops(sent, |sent|, read)|
    requires forall p :: |Ops(sent, s - 1, read)| <= p < |Ops(sent, s, read)| ==> (p in heard <==> !Left(sent, rg, s, foundHole))
    ensures next == GroupIds.Deliver(st, Ops(sent, |sent|, read), |Ops(sent, s - 1, read)|, |Ops(sent, s, read)|, heard, v)
    ensures Follow(st, Tail(sent, rg, s, foundHole), read, v)
         == Follow(next, Tail(sent, rg, s + 1, foundHole || s in rg.holes), read, v)
  {
    hide OwnOps, ApplyAll, Ops, GroupIds.Deliver, At, Follow;
    var ops, rest := Ops(sent, |sent|, read), Tail(sent, rg, s + 1, foundHole || s in rg.holes);
    if Left(sent, rg, s, foundHole) {
      next := st;
      DeliverNone(st, ops, |Ops(sent, s - 1, read)|, |Ops(sent, s, read)|, heard, v);
      assert Tail(sent, rg, s, foundHole) == rest;
    } else {
      NoOps(sent, s, read);
      DeliverPacket(st, sent, s, read, heard, v);
      var one := if IsFloating(At(sent, s)) then [] else [Message(At(sent, s))];
      FollowNothing(st, read, v);
      FollowOne(st, [], At(sent, s), read, v);
      assert [] + one == one;
      next := Follow(st, one, read, v);
      FollowConcat(st, one, rest, read, v);
      assert Tail(sent, rg, s, foundHole) == one + rest;
    }
  }

  lemma FollowNothing(st: GroupIds.Status, read: Packet -> seq<GroupIds.Op>, v: GroupIds.View)
    ensures Follow(st, [], read, v) == st
  {}

  lemma {:induction false} FollowOrdered(st: GroupIds.Status, events: seq<Event>, read: Packet -> seq<GroupIds.Op>, v: GroupIds.View)
    ensures Follow(st, Ordered(events), read, v) == Follow(st, events, read, v)
  {
    hide ApplyAll;
    if events != [] {
      var init, e := events[..|events| - 1], events[|events| - 1];
      FollowOrdered(st, init, read, v);
      if e.Message? && IsFloating(e.p) {
        assert Ordered(events) == Ordered(init) + [] == Ordered(init);
      } else {
        assert Ordered(events) == Ordered(init) + [e];
        assert (Ordered(init) + [e])[..|Ordered(init)|] == Ordered(init);
      }
    }
  }

  /** A group from the start of an old ring to the next regular membership, as a daemon processes its deliveries: `trans`
      is the id of the transitional membership. */
  function GroupAfter(st: GroupIds.Status, log: seq<Event>, read: Packet -> seq<GroupIds.Op>, reg: MembId, trans: MembId,
                      survivors: set<int>): GroupIds.Status
  {
    var signal := GroupIds.AtSignal(Follow(st, Ahead(log), read, GroupIds.Regular(reg)), trans, survivors);
    GroupIds.AtRegular(Follow(signal, Behind(log), read, GroupIds.Transitional(trans, survivors)), survivors)
  }

  /** The same as a step of the group's history: determined by the entry alone. */
  function ChildFrom(sent: seq<Packet>, rg: RingInfo, read: Packet -> seq<GroupIds.Op>, trans: MembId, survivors: set<int>,
                     covers: seq<nat>): GroupIds.Child
    requires 0 <= rg.aru <= rg.highest <= |sent|
  {
    var stop := Stop(sent, rg, rg.aru + 1);
    GroupIds.Child(survivors, trans, covers, true, |Ops(sent, stop - 1, read)|, Heard(sent, rg, stop, false, read))
  }

  /** A complete daemon processes the operations as the step says. */
  lemma ProcessedAsStep(e: Daemon, rg: RingInfo, sent: seq<Packet>, read: Packet -> seq<GroupIds.Op>, trans: MembId,
                        survivors: set<int>, parts: seq<GroupIds.Part>, round: GroupIds.Round, covers: seq<nat>)
    requires EvsGood(e, rg, sent) && Complete(e) && OwnOps(sent, read)
    requires round.ops == Ops(sent, |sent|, read) && forall k :: 0 <= k < |covers| ==> covers[k] < |parts|
    ensures 0 <= rg.aru <= rg.highest <= |sent|
    ensures var c := ChildFrom(sent, rg, read, trans, survivors, covers);
            var st := GroupIds.Finished(GroupIds.ReadAll(GroupIds.Lists(parts, covers)), round.reg);
            && c.before <= |round.ops|
            && GroupAfter(st, EvsDeliver(e, rg.procs).log, read, round.reg, trans, survivors) == GroupIds.Outcome(parts, round, c)
  {
    hide EvsGood, Complete, EvsDeliver, OwnOps, Ordered, Ahead, Behind, Stop, Heard, Ops, Follow, GroupIds.Deliver, GroupIds.AtSignal,
      GroupIds.AtRegular, GroupIds.ReadAll, GroupIds.Lists, GroupIds.Finished, Tail, OrderedPrefix;
    DeliveredStretches(e, rg, sent);
    var log, stop := EvsDeliver(e, rg.procs).log, Stop(sent, rg, rg.aru + 1);
    var st := GroupIds.Finished(GroupIds.ReadAll(GroupIds.Lists(parts, covers)), round.reg);
    var v, w := GroupIds.Regular(round.reg), GroupIds.Transitional(trans, survivors);
    FollowOrdered(st, Ahead(log), read, v);
    FollowsAhead(st, sent, stop - 1, read, v);
    var signal := GroupIds.AtSignal(Follow(st, Ahead(log), read, v), trans, survivors);
    FollowOrdered(signal, Behind(log), read, w);
    FollowsBehind(signal, sent, rg, stop, false, read, w, Heard(sent, rg, stop, false, read));
  }

  /** Daemons of the old ring that follow the same attempt as member i. */
  ghost predicate Together(w: Formations.World, i: nat, survivors: set<int>)
    requires i < |w.members|
  {
    forall x :: x in survivors ==> exists j: nat :: j < |w.members| && w.members[j].phase == w.members[i].phase && w.members[j].d.id == x
  }

  /** Whoever comes through together is in the commit set that the entry names. */
  lemma SurvivorsCommitted(old_: Formations.Old, i: nat, survivors: set<int>)
    requires Formations.Reachable(old_.w, old_.base, old_.maxAllowed)
    requires i < |old_.w.members| && old_.w.members[i].phase.Recovering? && Together(old_.w, i, survivors)
    ensures old_.w.members[i].phase.entry < |old_.w.entries|
    ensures Formations.Info(old_.w.entries[old_.w.members[i].phase.entry]).Some?
    ensures forall x :: x in survivors ==> x in Formations.Info(old_.w.entries[old_.w.members[i].phase.entry]).value.procs
  {
    hide Formations.Reachable, Formations.Info, EvsBarrier.MemberOk;
    Formations.PlaceIds(old_, i);
    forall x | x in survivors
      ensures x in Formations.Info(old_.w.entries[old_.w.members[i].phase.entry]).value.procs
    {
      var j: nat :| j < |old_.w.members| && old_.w.members[j].phase == old_.w.members[i].phase && old_.w.members[j].d.id == x;
      Formations.PlaceIds(old_, j);
    }
  }

  /** What the history of a group takes from virtual synchrony: all daemons of an old ring that come into the new one
      together process the same operations, the same of them ahead of the transitional membership, and behind it every
      operation of their own clients. */
  lemma SurvivorsAreChild(olds: seq<Formations.Old>, places: seq<Formations.Place>, start: EvsBarrier.System,
                          steps: seq<EvsBarrier.Step>, first: nat, r: nat, i: nat, p: nat,
                          read: Packet -> seq<GroupIds.Op>, trans: MembId, survivors: set<int>,
                          parts: seq<GroupIds.Part>, round: GroupIds.Round, covers: seq<nat>)
    requires Formations.Assembled(olds, places, start) && EvsBarrier.ValidRun(start, steps)
    requires var sys := EvsBarrier.Run(start, steps);
             first < |sys.ring| && sys.ring[first].installed && Formations.Became(olds, r, i, sys, p)
    requires olds[r].w.members[i].phase.Recovering? && Together(olds[r].w, i, survivors) && OwnOps(olds[r].w.sent, read)
    requires round.ops == Ops(olds[r].w.sent, |olds[r].w.sent|, read)
    requires forall k :: 0 <= k < |covers| ==> covers[k] < |parts|
    ensures var w := olds[r].w;
            w.members[i].phase.entry < |w.entries| && Formations.Info(w.entries[w.members[i].phase.entry]).Some?
    ensures var w := olds[r].w;
            var rg := Formations.Info(w.entries[w.members[i].phase.entry]).value;
            var log := EvsDeliver(EvsBarrier.Run(start, steps).ring[p].d, rg.procs).log;
            var st := GroupIds.Finished(GroupIds.ReadAll(GroupIds.Lists(parts, covers)), round.reg);
            && 0 <= rg.aru <= rg.highest <= |w.sent|
            && var c := ChildFrom(w.sent, rg, read, trans, survivors, covers);
            && c.before <= |round.ops|
            && GroupAfter(st, log, read, round.reg, trans, survivors) == GroupIds.Outcome(parts, round, c)
            && forall o :: c.before <= o < |round.ops| && round.ops[o].who.proc in survivors ==> o in c.heard
  {
    hide Formations.Reachable, Formations.Separate, Formations.ReadyAt, Formations.Info, EvsBarrier.Run, EvsDeliver, EvsGood, Complete,
      OwnOps, Ops, Heard, Stop, GroupAfter, GroupIds.Outcome, GroupIds.Finished, GroupIds.ReadAll, GroupIds.Lists, Together,
      Exact;
    var old_ := olds[r];
    Formations.MemberOf(olds, places, start, steps, first, r, i, p);
    var m, w := EvsBarrier.Run(start, steps).ring[p], old_.w;
    ProcessedAsStep(m.d, m.rg, m.sent, read, trans, survivors, parts, round, covers);
    SurvivorsCommitted(old_, i, survivors);
    Formations.EveryEntryExact(w, old_.base, old_.maxAllowed, w.members[i].phase.entry);
    var c, stop := ChildFrom(w.sent, m.rg, read, trans, survivors, covers), Stop(w.sent, m.rg, m.rg.aru + 1);
    forall o | c.before <= o < |round.ops| && round.ops[o].who.proc in survivors
      ensures o in c.heard
    {
      OwnHeard(w.sent, m.rg, stop, false, read, o);
    }
  }
}
