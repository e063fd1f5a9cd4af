/** What the operational ring guarantees in every run: stability, slot safety, total order and
flow-control conservation. */
module RingTheorems {
  import opened SpreadTypes
  import opened Delivery
  import opened FlowControl
  import opened RingSystem
  import TokenAru

  ghost predicate Reachable(sys: System, maxAllowed: nat) {
    exists start, steps ::
      Start(start) && ValidRun(start, steps, maxAllowed) && sys == Run(start, steps, maxAllowed)
  }

  lemma ReachableInv(sys: System, maxAllowed: nat)
    requires Reachable(sys, maxAllowed)
    ensures Inv(sys, maxAllowed)
  {
    hide Inv, Run, Start;
    var start, steps :| Start(start) && ValidRun(start, steps, maxAllowed) && sys == Run(start, steps, maxAllowed);
    StartInv(start, maxAllowed);
    RunInv(start, steps, maxAllowed);
  }

  lemma MarksOf(sys: System, maxAllowed: nat, i: nat, j: nat)
    requires Inv(sys, maxAllowed) && i < |sys.ring| && j < |sys.ring|
    ensures sys.ring[i].d.discarded == sys.ring[i].d.stable <= sys.ring[j].lastAru <= sys.ring[j].d.received
    ensures Good(sys.ring[i].d, sys.sent) && MemberGood(sys.ring[i], sys.sent)
  {
    assert AruView(sys).members[i].aru <= AruView(sys).members[j].last;
    assert MemberGood(sys.ring[j], sys.sent);
  }

  /** What one daemon takes for stable every daemon has received, and no fatal branch of packet or
      token processing (a stable mark going down, a missing packet, a request below the mark, a
      taken slot) is ever reached. */
  lemma Stability(sys: System, maxAllowed: nat, i: nat, j: nat, s: int)
    requires Reachable(sys, maxAllowed) && i < |sys.ring| && j < |sys.ring|
    requires s <= sys.ring[i].d.stable
    ensures s <= sys.ring[j].d.received && Held(sys.ring[j].d, s)
    ensures !sys.ring[i].d.alarm
  {
    ReachableInv(sys, maxAllowed);
    MarksOf(sys, maxAllowed, i, j);
    MarksOf(sys, maxAllowed, j, j);
  }

  /** A SAFE packet reaches the sessions of one daemon only when every daemon of the ring holds it. */
  lemma SafeMeansEverywhere(sys: System, maxAllowed: nat, i: nat, j: nat, p: Packet)
    requires Reachable(sys, maxAllowed) && i < |sys.ring| && j < |sys.ring|
    requires p.service == Safe && Message(p) in sys.ring[i].d.log
    ensures p.seqNo <= sys.ring[j].d.received && Held(sys.ring[j].d, p.seqNo)
  {
    ReachableInv(sys, maxAllowed);
    MarksOf(sys, maxAllowed, i, j);
    SafeIsDiscarded(sys.ring[i].d, sys.sent, p);
    Stability(sys, maxAllowed, i, j, p.seqNo);
  }

  lemma SafeIsDiscarded(d: Daemon, sent: seq<Packet>, p: Packet)
    requires Good(d, sent) && p.service == Safe && Message(p) in d.log
    ensures p.seqNo <= d.discarded
  {
    hide LogOrdered;
    var k :| 0 <= k < |d.log| && d.log[k] == Message(p);
    assert Genuine(d.log[k], sent) && Passed(d, d.log[k].p.seqNo);
  }

  /** Where member i stands after a step: only the token's visit moves members. */
  function PositionAfter(sys: System, step: Step, i: nat): int {
    if !step.PassToken? then i else if i == 0 then |sys.ring| - 1 else i - 1
  }

  /** No step lowers any daemon's stable mark or prefix, or takes back anything from its log. */
  lemma StepMonotone(sys: System, step: Step, maxAllowed: nat, i: nat)
    requires Inv(sys, maxAllowed) && Enabled(sys, step, maxAllowed) && i < |sys.ring|
    ensures var k := PositionAfter(sys, step, i);
            0 <= k < |Next(sys, step, maxAllowed).ring|
    ensures var d := sys.ring[i].d;
            var e := Next(sys, step, maxAllowed).ring[PositionAfter(sys, step, i)].d;
            e.id == d.id && d.stable <= e.stable && d.received <= e.received && d.log <= e.log
  {
    hide Good, MemberGood, HandleBcast, DeliverAgreed, DeliverReliable, HandleToken, TokenAru.Inv;
    var d := sys.ring[i].d;
    match step
    case Receive(j, s) =>
      if j == i {
        ReceiveGood(sys.ring[i], sys.sent, s);
        BcastLog(d, At(sys.sent, s));
      }
    case PassToken(queue, w) =>
      if i == 0 {
        HolderMarks(sys, queue, w, maxAllowed);
        HandleTokenGood(sys.ring[0], sys.sent, sys.token, queue, w);
        TokenLog(sys.ring[0], sys.token, queue, w);
        assert Next(sys, step, maxAllowed).ring[|sys.ring| - 1] == HandleToken(sys.ring[0], sys.token, queue, w).m;
      }
    case DropRequests =>
    case SetThreshold(j, th) =>
    case AgreedEvent(j) =>
      if j == i {
        DeliverEventGood(sys.ring[i], sys.sent, DeliverAgreed(d));
        AgreedLog(d);
      }
    case ReliableEvent(j) =>
      if j == i {
        DeliverEventGood(sys.ring[i], sys.sent, DeliverReliable(d, 1, d.highest));
        ReliableLog(d, 1, d.highest);
      }
    case Freeze(j) =>
  }

  lemma {:induction false} AgreedLoopLog(d: Daemon)
    ensures d.log <= AgreedLoop(d).log
    decreases d.received - d.delivered
  {
    var s := d.delivered + 1;
    if d.delivered < d.received && s in d.packets && !d.packets[s].Hole? {
      if d.packets[s].Pending? {
        AgreedLoopLog(DeliverPacket(d, s).(delivered := s));
      } else {
        AgreedLoopLog(d.(delivered := s));
      }
    }
  }

  lemma AgreedLog(d: Daemon)
    ensures d.log <= DeliverAgreed(d).log
  {
    AgreedLoopLog(d);
  }

  lemma {:induction false} ReliableLoopLog(d: Daemon, s: int, end: int)
    ensures d.log <= ReliableLoop(d, s, end).log
    decreases end - s
  {
    if s <= end {
      if s in d.packets && d.packets[s].Pending? && IsFloating(d.packets[s].p) {
        ReliableLoopLog(DeliverPacket(d, s), s + 1, end);
      } else {
        ReliableLoopLog(d, s + 1, end);
      }
    }
  }

  lemma ReliableLog(d: Daemon, start: int, num: int)
    ensures d.log <= DeliverReliable(d, start, num).log
  {
    ReliableLoopLog(d, Max(start, d.delivered + 1), start + num - 1);
  }

  lemma {:induction false} DiscardLog(d: Daemon, upTo: int)
    ensures d.log <= DiscardLoop(d, upTo).log
    decreases upTo - d.discarded
  {
    if d.discarded < upTo && d.discarded + 1 in d.packets {
      DiscardLog(DiscardOne(d), upTo);
    }
  }

  lemma BcastLog(d: Daemon, p: Packet)
    ensures d.log <= HandleBcast(d, p).log
  {
    var e := d.(packets := d.packets[p.seqNo := Pending(p)], highest := Max(d.highest, p.seqNo));
    AgreedLog(e.(received := Advance(e.packets, e.received, e.highest)));
    ReliableLog(e, p.seqNo, 1);
  }

  lemma TokenLog(m: Member, t: Token, queue: seq<Payload>, w: Windows)
    ensures m.d.log <= HandleToken(m, t, queue, w).m.d.log
  {
    hide DiscardLoop, AgreedLoop, ReliableLoop, Extend, DeliverAgreed, DeliverReliable, TokenAlarm, Number, SendCount, Missing, Answered;
    var v := HandleToken(m, t, queue, w);
    var e := Extend(m.d, t, v.sent);
    var stable := TokenAru.StableMark(v.t.aru, m.lastAru);
    var f := e.(stable := stable, alarm := e.alarm || TokenAlarm(m.d, t, v.sent, stable));
    ExtendLog(m.d, t, v.sent);
    DiscardLog(f, stable);
    AgreedLog(Discard(f));
    ReliableLog(DeliverAgreed(Discard(f)), f.highest - |v.sent| + 1, |v.sent|);
  }

  lemma ExtendLog(d: Daemon, t: Token, ps: seq<Packet>)
    ensures Extend(d, t, ps).log == d.log
  {}

  /** As long as the gap limit and the largest allowance fit the table together, all packets that a
      daemon has in its table or can still be sent lie in one table length above its discarded mark,
      so no two of them share a slot. */
  lemma SlotSafety(sys: System, maxAllowed: nat, i: nat, s: int, t: int)
    requires Reachable(sys, maxAllowed) && i < |sys.ring|
    requires MAX_SEQ_GAP + maxAllowed <= MAX_PACKETS_IN_STRUCT
    requires sys.ring[i].d.discarded < s <= |sys.sent| && sys.ring[i].d.discarded < t <= |sys.sent|
    ensures s <= sys.ring[i].d.discarded + MAX_PACKETS_IN_STRUCT
    ensures s % MAX_PACKETS_IN_STRUCT == t % MAX_PACKETS_IN_STRUCT ==> s == t
  {
    ReachableInv(sys, maxAllowed);
    MarksOf(sys, maxAllowed, i, i);
    hide Inv, Good, Reachable;
    if s % MAX_PACKETS_IN_STRUCT == t % MAX_PACKETS_IN_STRUCT {
      OneSlotEach(sys.ring[i].d.discarded, s, t);
    }
  }

  lemma OneSlotEach(base: int, s: int, t: int)
    requires base < s <= base + MAX_PACKETS_IN_STRUCT && base < t <= base + MAX_PACKETS_IN_STRUCT
    requires s % MAX_PACKETS_IN_STRUCT == t % MAX_PACKETS_IN_STRUCT
    ensures s == t
  {}

  function Payloads(n: nat): (q: seq<Payload>)
    ensures |q| == n
  {
    seq(n, _ => Payload(Agreed, Fragment(-1, []), []))
  }

  function Pair(): System {
    System([Member(Delivery.Init(1), 0, 0, 0, 0, None), Member(Delivery.Init(2), 0, 0, 0, 0, None)],
           Token(0, 0, 0, 0, []), [])
  }

  lemma TwoSteps(start: System, first: Step, second: Step, maxAllowed: nat)
    requires Start(start) && Enabled(start, first, maxAllowed) && Enabled(Next(start, first, maxAllowed), second, maxAllowed)
    ensures Reachable(Next(Next(start, first, maxAllowed), second, maxAllowed), maxAllowed)
  {
    hide Next, Enabled, Start;
    var steps := [first, second];
    var s1 := Next(start, first, maxAllowed);
    var s2 := Next(s1, second, maxAllowed);
    assert steps[1..] == [second] && [second][1..] == [];
    assert ValidRun(s2, [], maxAllowed) && Run(s2, [], maxAllowed) == s2;
    assert ValidRun(s1, [second], maxAllowed) && Run(s1, [second], maxAllowed) == s2;
    assert ValidRun(start, steps, maxAllowed) && Run(start, steps, maxAllowed) == s2;
  }

  /** What one visit numbers when the daemon may use its whole window. */
  lemma Numbers(m: Member, t: Token, queued: nat, maxAllowed: nat)
    requires !m.d.evs && m.d.highest <= t.seqNo <= m.d.stable + MAX_SEQ_GAP && m.retrans == m.numSent == 0
    requires t.flow <= maxAllowed && queued <= maxAllowed
    ensures var v := HandleToken(m, t, Payloads(queued), Windows(maxAllowed, maxAllowed, false));
            && v.sent == Number(m.d.id, t.seqNo, Payloads(queued)) && v.t.seqNo == t.seqNo + queued
            && v.t.flow == t.flow + Answered(m.d.packets, t.requests) + queued
  {
    hide Discard, DeliverAgreed, DeliverReliable, Missing, Answered, AddPending, TokenAlarm;
    assert Payloads(queued)[..queued] == Payloads(queued);
  }

  /** The bound of `SlotSafety` is exact: with a larger allowance there is a run of two daemons after which the second
      one has numbered a packet into the slot of the first packet, which it has not received and still needs. */
  lemma SlotBoundIsTight(maxAllowed: nat) returns (sys: System)
    requires MAX_SEQ_GAP + maxAllowed > MAX_PACKETS_IN_STRUCT
    ensures Reachable(sys, maxAllowed) && |sys.ring| == 2
    ensures var d := sys.ring[1].d;
            && d.discarded == d.received == 0 && 1 !in d.packets
            && 1 <= |sys.sent| && 1 + MAX_PACKETS_IN_STRUCT in d.packets
  {
    var w := Windows(maxAllowed, maxAllowed, false);
    var first, second := PassToken(Payloads(MAX_SEQ_GAP), w), PassToken(Payloads(maxAllowed), w);
    var s1 := Next(Pair(), first, maxAllowed);
    FirstVisit(maxAllowed);
    hide Inv, Next;
    sys := Next(s1, second, maxAllowed);
    TwoSteps(Pair(), first, second, maxAllowed);
    SecondVisit(s1, maxAllowed);
  }

  lemma FirstVisit(maxAllowed: nat)
    requires maxAllowed >= MAX_SEQ_GAP
    ensures Start(Pair())
    ensures var s1 := Next(Pair(), PassToken(Payloads(MAX_SEQ_GAP), Windows(maxAllowed, maxAllowed, false)), maxAllowed);
            && Inv(s1, maxAllowed) && |s1.ring| == 2 && s1.ring[0] == Pair().ring[1]
            && s1.token.seqNo == MAX_SEQ_GAP == s1.token.flow
  {
    hide HandleToken, Inv;
    var first := PassToken(Payloads(MAX_SEQ_GAP), Windows(maxAllowed, maxAllowed, false));
    Numbers(Pair().ring[0], Pair().token, MAX_SEQ_GAP, maxAllowed);
    StartInv(Pair(), maxAllowed);
    NextInv(Pair(), first, maxAllowed);
  }

  lemma SecondVisit(s1: System, maxAllowed: nat)
    requires Inv(s1, maxAllowed) && |s1.ring| == 2 && s1.ring[0] == Pair().ring[1]
    requires s1.token.seqNo == MAX_SEQ_GAP == s1.token.flow && MAX_SEQ_GAP + maxAllowed > MAX_PACKETS_IN_STRUCT
    ensures var sys := Next(s1, PassToken(Payloads(maxAllowed), Windows(maxAllowed, maxAllowed, false)), maxAllowed);
            var d := sys.ring[1].d;
            && d.discarded == d.received == 0 && 1 !in d.packets
            && 1 <= |sys.sent| && 1 + MAX_PACKETS_IN_STRUCT in d.packets && |sys.ring| == 2
  {
    var w := Windows(maxAllowed, maxAllowed, false);
    var step := PassToken(Payloads(maxAllowed), w);
    var m := s1.ring[0];
    var v := HandleToken(m, s1.token, Payloads(maxAllowed), w);
    var sys := Next(s1, step, maxAllowed);
    Numbers(m, s1.token, maxAllowed, maxAllowed);
    NextInv(s1, step, maxAllowed);
    HolderMarks(s1, Payloads(maxAllowed), w, maxAllowed);
    HandleTokenGood(m, s1.sent, s1.token, Payloads(maxAllowed), w);
    NothingReceived(m.d, s1.token, v.sent);
    hide HandleToken, Inv, Good;
    assert sys.ring[1] == v.m && sys.sent == s1.sent + v.sent;
    MarksOf(sys, maxAllowed, 1, 1);
    var s := 1 + MAX_PACKETS_IN_STRUCT;
    assert At(sys.sent, s) == v.sent[s - 1 - MAX_SEQ_GAP];
    assert Held(v.m.d, s);
    StillMissing(v.m.d, sys.sent);
  }

  lemma NothingReceived(d: Daemon, t: Token, ps: seq<Packet>)
    requires d.packets == map[] && d.received == 0 && d.highest == 0 && t.seqNo >= 1
    ensures Extend(d, t, ps).received == 0
  {}

  lemma StillMissing(d: Daemon, sent: seq<Packet>)
    requires Good(d, sent) && d.received == 0
    ensures d.discarded == 0 && 1 !in d.packets
    ensures forall s :: s > 0 && Held(d, s) ==> s in d.packets
  {
    hide LogExact, LogOrdered, DeliveryMarks;
  }

  /** Every daemon passes the ordered packets up in the ring's order without a gap, each packet once;
      any two daemons' ordered deliveries are prefixes of one another. */
  lemma TotalOrder(sys: System, maxAllowed: nat, i: nat, j: nat)
    requires Reachable(sys, maxAllowed) && i < |sys.ring| && j < |sys.ring|
    ensures 0 <= sys.ring[i].d.delivered <= |sys.sent|
    ensures Ordered(sys.ring[i].d.log) == OrderedPrefix(sys.sent, sys.ring[i].d.delivered)
    ensures Ordered(sys.ring[i].d.log) <= Ordered(sys.ring[j].d.log)
         || Ordered(sys.ring[j].d.log) <= Ordered(sys.ring[i].d.log)
    ensures forall a, b :: 0 <= a < b < |sys.ring[i].d.log| ==> sys.ring[i].d.log[a] != sys.ring[i].d.log[b]
  {
    ReachableInv(sys, maxAllowed);
    MarksOf(sys, maxAllowed, i, j);
    MarksOf(sys, maxAllowed, j, i);
    PrefixComparable(sys.ring[i].d, sys.ring[j].d, sys.sent);
    LogOnce(sys.ring[i].d, sys.sent);
  }

  lemma LogOnce(d: Daemon, sent: seq<Packet>)
    requires Good(d, sent)
    ensures forall a, b :: 0 <= a < b < |d.log| ==> d.log[a] != d.log[b]
  {
    forall a, b | 0 <= a < b < |d.log| ensures d.log[a] != d.log[b] {
      assert Genuine(d.log[a], sent) && Genuine(d.log[b], sent);
      assert d.log[a].p.seqNo != d.log[b].p.seqNo;
    }
  }

  /** Everyone in a run uses the same windows and no request is ever answered. */
  predicate Calm(sys: System, steps: seq<Step>, maxAllowed: nat, w: Windows)
    requires ValidRun(sys, steps, maxAllowed)
    decreases |steps|
  {
    steps == [] ||
      (&& (steps[0].PassToken? ==> steps[0].w == w && Answered(sys.ring[0].d.packets, sys.token.requests) == 0)
       && Calm(Next(sys, steps[0], maxAllowed), steps[1..], maxAllowed, w))
  }

  /** In every run the token counts exactly the packets sent and retransmitted in the members' last
      visits; without retransmissions the count never exceeds the two windows together. */
  lemma FlowConservation(start: System, steps: seq<Step>, maxAllowed: nat, w: Windows)
    requires Start(start) && ValidRun(start, steps, maxAllowed)
    ensures var sys := Run(start, steps, maxAllowed);
            && sys.token.flow == FlowSum(sys.ring) >= 0
            && (Calm(start, steps, maxAllowed, w) && w.window >= 0 && w.personal >= 0 ==>
                  sys.token.flow <= w.window + w.personal)
  {
    StartInv(start, maxAllowed);
    RunInv(start, steps, maxAllowed);
    FlowSumNonNegative(Run(start, steps, maxAllowed).ring);
    if Calm(start, steps, maxAllowed, w) && w.window >= 0 && w.personal >= 0 {
      CalmFlow(start, steps, maxAllowed, w);
    }
  }

  lemma {:induction false} FlowSumNonNegative(ring: seq<Member>)
    ensures FlowSum(ring) >= 0
  {
    if ring != [] {
      FlowSumNonNegative(ring[1..]);
    }
  }

  lemma {:induction false} CalmFlow(sys: System, steps: seq<Step>, maxAllowed: nat, w: Windows)
    requires ValidRun(sys, steps, maxAllowed) && Calm(sys, steps, maxAllowed, w)
    requires sys.token.flow <= w.window + w.personal
    ensures Run(sys, steps, maxAllowed).token.flow <= w.window + w.personal
    decreases |steps|
  {
    if steps != [] {
      CalmFlow(Next(sys, steps[0], maxAllowed), steps[1..], maxAllowed, w);
    }
  }

  // ---- Nothing is held back without need ----

  /** What makes the daemon deliver all it can in order: its own visit, a packet that lengthens its prefix, and the event
      queued when the threshold is lowered. */
  predicate Delivers(sys: System, step: Step, i: nat)
    requires i < |sys.ring|
  {
    match step
    case Receive(j, s) => j == i && s == sys.ring[i].d.received + 1
    case PassToken(_, _) => i == 0
    case AgreedEvent(j) => j == i
    case _ => false
  }

  /** These steps leave nothing behind that agreed delivery could pass up, and no other step does, except setting the
      daemon's own threshold, whose event is to come. */
  lemma CatchesUp(sys: System, step: Step, maxAllowed: nat, i: nat)
    requires Inv(sys, maxAllowed) && Enabled(sys, step, maxAllowed) && i < |sys.ring|
    requires Delivers(sys, step, i) || (CaughtUp(sys.ring[i].d) && !(step.SetThreshold? && step.i == i))
    ensures var k := PositionAfter(sys, step, i);
            0 <= k < |Next(sys, step, maxAllowed).ring| && CaughtUp(Next(sys, step, maxAllowed).ring[k].d)
  {
    hide Good, HandleBcast, DeliverAgreed, DeliverReliable, HandleToken, TokenAru.Inv, CaughtUp;
    var d := sys.ring[i].d;
    StepMonotone(sys, step, maxAllowed, i);
    match step
    case Receive(j, s) =>
      if j == i {
        assert MemberGood(sys.ring[i], sys.sent);
        ArrivalCatchesUp(d, sys.sent, At(sys.sent, s));
      }
    case PassToken(queue, w) =>
      if i == 0 {
        HolderMarks(sys, queue, w, maxAllowed);
        VisitDelivers(sys.ring[0], sys.sent, sys.token, queue, w);
        assert Next(sys, step, maxAllowed).ring[|sys.ring| - 1] == HandleToken(sys.ring[0], sys.token, queue, w).m;
      } else {
        assert Next(sys, step, maxAllowed).ring[i - 1] == sys.ring[i];
      }
    case DropRequests =>
    case SetThreshold(j, th) =>
    case AgreedEvent(j) =>
      if j == i {
        assert MemberGood(sys.ring[i], sys.sent);
        AgreedCatchesUp(d, sys.sent);
      }
    case ReliableEvent(j) => ReliableKeepsUp(d, 1, d.highest);
    case Freeze(j) => Blocked(d);
  }

  lemma Blocked(d: Daemon)
    ensures CaughtUp(d.(threshold := BLOCK_REGULAR_DELIVERY))
  {}

  ghost predicate AllCaughtUp(sys: System) {
    forall i :: 0 <= i < |sys.ring| ==> CaughtUp(sys.ring[i].d)
  }

  /** Through every run in which nobody's threshold is set. */
  lemma {:induction false} StayCaughtUp(sys: System, steps: seq<Step>, maxAllowed: nat)
    requires Inv(sys, maxAllowed) && ValidRun(sys, steps, maxAllowed) && AllCaughtUp(sys)
    requires forall k :: 0 <= k < |steps| ==> !steps[k].SetThreshold?
    ensures AllCaughtUp(Run(sys, steps, maxAllowed))
    decreases |steps|
  {
    hide Inv, Next, Enabled, CaughtUp;
    if steps != [] {
      NextInv(sys, steps[0], maxAllowed);
      AllCatchUp(sys, steps[0], maxAllowed);
      StayCaughtUp(Next(sys, steps[0], maxAllowed), steps[1..], maxAllowed);
    }
  }

  lemma AllCatchUp(sys: System, step: Step, maxAllowed: nat)
    requires Inv(sys, maxAllowed) && Enabled(sys, step, maxAllowed) && AllCaughtUp(sys) && !step.SetThreshold?
    ensures AllCaughtUp(Next(sys, step, maxAllowed))
  {
    var next := Next(sys, step, maxAllowed);
    hide Inv, CaughtUp, HandleToken, HandleBcast, DeliverAgreed, DeliverReliable;
    forall k | 0 <= k < |next.ring| ensures CaughtUp(next.ring[k].d) {
      var i := if !step.PassToken? then k else if k == |sys.ring| - 1 then 0 else k + 1;
      CatchesUp(sys, step, maxAllowed, i);
    }
  }

  /** In every run: what a daemon that is caught up has received in order and not passed up waits for a SAFE packet at or
      before it that the daemon does not know to be stable. */
  lemma OnlySafeWaits(sys: System, maxAllowed: nat, i: nat, s: int) returns (t: int)
    requires Reachable(sys, maxAllowed) && i < |sys.ring| && Open(sys.ring[i].d) && CaughtUp(sys.ring[i].d)
    requires 1 <= s <= sys.ring[i].d.received && s <= |sys.sent| && Message(At(sys.sent, s)) !in sys.ring[i].d.log
    ensures sys.ring[i].d.stable < t <= s && 1 <= t <= |sys.sent| && At(sys.sent, t).service == Safe
  {
    ReachableInv(sys, maxAllowed);
    MarksOf(sys, maxAllowed, i, i);
    hide Good;
    t := WhatWaits(sys.ring[i].d, sys.sent, s);
  }

  /** When the event for early delivery comes, every floating packet in the table is passed up. */
  lemma EventPasses(sys: System, maxAllowed: nat, i: nat, s: int)
    requires Inv(sys, maxAllowed) && i < |sys.ring| && sys.ring[i].d.threshold <= ServiceBit(Reliable)
    requires s in sys.ring[i].d.packets && IsFloating(sys.ring[i].d.packets[s].p)
    ensures 1 <= s <= |sys.sent|
    ensures var next := Next(sys, ReliableEvent(i), maxAllowed).ring;
            |next| == |sys.ring| && Message(At(sys.sent, s)) in next[i].d.log
  {
    hide HandleToken, HandleBcast, DeliverAgreed, DeliverReliable, IsFloating, Good, TokenAru.Inv;
    MarksOf(sys, maxAllowed, i, i);
    var d := sys.ring[i].d;
    NumberOf(d, sys.sent, s);
    ReliableDelivers(d, sys.sent, 1, d.highest, s);
  }

  lemma NumberOf(d: Daemon, sent: seq<Packet>, s: int)
    requires Good(d, sent) && s in d.packets
    ensures 1 <= s <= d.highest <= |sent| && !d.packets[s].Hole?
  {
    hide LogExact, LogOrdered, DeliveryMarks;
  }

  // ---- FIFO, AGREED and SAFE packets are in order ----

  lemma {:induction false} OrderedShorter(log: seq<Event>, a: nat)
    requires a <= |log|
    ensures Ordered(log[..a]) <= Ordered(log)
    decreases |log|
  {
    if a < |log| {
      OrderedShorter(log[..|log| - 1], a);
      assert log[..|log| - 1][..a] == log[..a];
    } else {
      assert log[..a] == log;
    }
  }

  /** Where an element of the ordered part stands in the log. */
  lemma {:induction false} OrderedPlace(log: seq<Event>, i: nat) returns (a: nat)
    requires i < |Ordered(log)|
    ensures a < |log| && log[a] == Ordered(log)[i] && |Ordered(log[..a])| == i
    decreases |log|
  {
    var init := log[..|log| - 1];
    if i < |Ordered(init)| {
      a := OrderedPlace(init, i);
      assert init[..a] == log[..a];
    } else {
      a := |log| - 1;
    }
  }

  lemma PrefixPlace(sent: seq<Packet>, k: int, s: int)
    requires 1 <= s <= k <= |sent| && !IsFloating(At(sent, s))
    ensures var i := |OrderedPrefix(sent, s - 1)|;
            i < |OrderedPrefix(sent, k)| && OrderedPrefix(sent, k)[i] == Message(At(sent, s))
  {
    OrderedPrefixPrefix(sent, s, k);
  }

  /** In every run, packets of the services from FIFO on: whoever has passed one up has passed up every earlier one of
      the ring before it. */
  lemma InOrder(sys: System, maxAllowed: nat, i: nat, s: int, t: int) returns (a: nat, b: nat)
    requires Reachable(sys, maxAllowed) && i < |sys.ring| && 1 <= s < t <= |sys.sent|
    requires ServiceBit(At(sys.sent, s).service) >= ServiceBit(Fifo) && ServiceBit(At(sys.sent, t).service) >= ServiceBit(Fifo)
    requires Message(At(sys.sent, t)) in sys.ring[i].d.log
    ensures var log := sys.ring[i].d.log;
            a < b < |log| && log[a] == Message(At(sys.sent, s)) && log[b] == Message(At(sys.sent, t))
  {
    ReachableInv(sys, maxAllowed);
    MarksOf(sys, maxAllowed, i, i);
    var d, sent := sys.ring[i].d, sys.sent;
    assert Numbered(sent);
    hide Inv, Reachable, MemberGood, Good, Numbered;
    AtNumber(sent, t);
    InLog(d, sent, At(sent, t));
    DeliveredInOrder(d, sent, t);
    a, b := PlacesInOrder(d.log, sent, d.delivered, s, t);
  }

  lemma PlacesInOrder(log: seq<Event>, sent: seq<Packet>, k: int, s: int, t: int) returns (a: nat, b: nat)
    requires 1 <= s < t <= k <= |sent| && Ordered(log) == OrderedPrefix(sent, k)
    requires !IsFloating(At(sent, s)) && !IsFloating(At(sent, t))
    ensures a < b < |log| && log[a] == Message(At(sent, s)) && log[b] == Message(At(sent, t))
  {
    hide IsFloating, Ordered;
    PrefixPlace(sent, k, s);
    PrefixPlace(sent, k, t);
    OrderedPrefixPrefix(sent, s, t - 1);
    var first, second := |OrderedPrefix(sent, s - 1)|, |OrderedPrefix(sent, t - 1)|;
    assert first < second by { PrefixPlace(sent, s, s); }
    hide OrderedPrefix;
    a := OrderedPlace(log, first);
    b := OrderedPlace(log, second);
    ShorterFirst(log, b, a);
  }

  lemma ShorterFirst(log: seq<Event>, b: nat, a: nat)
    requires a <= |log| && b <= |log|
    ensures b <= a ==> |Ordered(log[..b])| <= |Ordered(log[..a])|
  {
    if b <= a {
      OrderedShorter(log[..a], b);
      assert log[..a][..b] == log[..b];
    }
  }

  lemma DeliveredInOrder(d: Daemon, sent: seq<Packet>, t: int)
    requires Good(d, sent) && Numbered(sent) && 1 <= t <= |sent| && !IsFloating(At(sent, t)) && Passed(d, At(sent, t).seqNo)
    ensures t <= d.delivered <= |sent| && Ordered(d.log) == OrderedPrefix(sent, d.delivered)
  {
    hide LogExact;
  }
}
