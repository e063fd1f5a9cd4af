/** Two concrete runs in which forming a new ring does not go as intended.

Three daemons form a ring; daemon 3 sends two packets and is not heard of again. Daemons 1 and 2, which have
received neither, answer the FORM1 token. */
module FormationCases {
  import opened SpreadTypes
  import opened Delivery
  import opened FormToken
  import opened Recovery
  import opened Formations
  import EvsBarrier
  import FlowControl
  import RingSystem
  import RingTheorems
  import VirtualSynchrony

  const WINDOW := 10

  function Newcomer(id: int): RingSystem.Member {
    RingSystem.Member(Delivery.Init(id), 0, 0, 0, 0, None)
  }

  function Trio(): RingSystem.System {
    RingSystem.System([Newcomer(3), Newcomer(1), Newcomer(2)], RingSystem.Token(0, 0, 0, 0, []), [])
  }

  function Letter(): RingSystem.Payload {
    RingSystem.Payload(Agreed, Fragment(-1, []), [])
  }

  function Letters(): seq<Packet> {
    [Packet(1, 3, Agreed, Fragment(-1, []), []), Packet(2, 3, Agreed, Fragment(-1, []), [])]
  }

  function Sending(): RingSystem.Step {
    RingSystem.PassToken([Letter(), Letter()], FlowControl.Windows(WINDOW, WINDOW, false))
  }

  function Ending(): seq<RingSystem.Step> {
    [Sending(), RingSystem.Freeze(0), RingSystem.Freeze(1)]
  }

  lemma SendingSends()
    ensures var v := RingSystem.HandleToken(Newcomer(3), Trio().token, [Letter(), Letter()], FlowControl.Windows(WINDOW, WINDOW, false));
            v.sent == Letters() && v.m.snapshot.None?
  {
    hide Discard, DeliverAgreed, DeliverReliable, RingSystem.Extend, RingSystem.Missing, RingSystem.TokenAlarm;
    var v := RingSystem.HandleToken(Newcomer(3), Trio().token, [Letter(), Letter()], FlowControl.Windows(WINDOW, WINDOW, false));
    assert |v.sent| == 2;
    assert v.sent[0] == Letters()[0] && v.sent[1] == Letters()[1];
  }

  /** How the ring ends: daemons 1 and 2 stopped with nothing received. */
  ghost predicate Ended(base: RingSystem.System) {
    && RingTheorems.Reachable(base, WINDOW) && |base.ring| == 3 && base.sent == Letters()
    && base.ring[0].snapshot == Some(Delivery.Init(1)) && base.ring[1].snapshot == Some(Delivery.Init(2))
    && base.ring[0].d.id == 1 && base.ring[1].d.id == 2
  }

  lemma TrioEnds() returns (base: RingSystem.System)
    ensures Ended(base)
  {
    hide RingSystem.HandleToken;
    SendingSends();
    var v := RingSystem.HandleToken(Newcomer(3), Trio().token, [Letter(), Letter()], FlowControl.Windows(WINDOW, WINDOW, false));
    var steps := Ending();
    var s1 := RingSystem.Next(Trio(), steps[0], WINDOW);
    assert s1 == RingSystem.System([Newcomer(1), Newcomer(2), v.m], v.t, Letters());
    var s2 := RingSystem.Next(s1, steps[1], WINDOW);
    base := RingSystem.Next(s2, steps[2], WINDOW);
    assert RingSystem.Start(Trio());
    ThreeSteps(Trio(), steps, s1, s2, base);
  }

  lemma ThreeSteps(start: RingSystem.System, steps: seq<RingSystem.Step>, s1: RingSystem.System, s2: RingSystem.System,
                   s3: RingSystem.System)
    requires RingSystem.Start(start) && |steps| == 3
    requires RingSystem.Enabled(start, steps[0], WINDOW) && s1 == RingSystem.Next(start, steps[0], WINDOW)
    requires RingSystem.Enabled(s1, steps[1], WINDOW) && s2 == RingSystem.Next(s1, steps[1], WINDOW)
    requires RingSystem.Enabled(s2, steps[2], WINDOW) && s3 == RingSystem.Next(s2, steps[2], WINDOW)
    ensures RingTheorems.Reachable(s3, WINDOW)
  {
    hide RingSystem.Next, RingSystem.Enabled, RingSystem.Start;
    assert steps[1..][1..] == steps[2..] && steps[2..][1..] == [] && steps[1..][0] == steps[1] && steps[2..][0] == steps[2];
    assert RingSystem.ValidRun(s2, steps[2..], WINDOW) && RingSystem.Run(s2, steps[2..], WINDOW) == s3;
    assert RingSystem.ValidRun(s1, steps[1..], WINDOW) && RingSystem.Run(s1, steps[1..], WINDOW) == s3;
    assert RingSystem.ValidRun(start, steps, WINDOW) && RingSystem.Run(start, steps, WINDOW) == s3;
  }

  /** Both have answered the FORM1 token that daemon 1 created. */
  ghost predicate BothAnswered(w: World, base: RingSystem.System) {
    && Ended(base) && Formations.Reachable(w, base, WINDOW) && w.sent == Letters() && |w.members| == 3
    && w.members[0].d == Delivery.Init(1) && w.members[1].d == Delivery.Init(2)
    && w.members[0].phase == Answered(0) && w.members[1].phase == Answered(0)
    && |w.entries| == 2
    && w.entries[1] == Entry(0, true, [0, 1], [Contributor(Delivery.Init(1), [1]), Contributor(Delivery.Init(2), [2])])
  }

  /** A member that is between attempts answers a token. */
  lemma Answers(w: World, base: RingSystem.System, i: nat, from: Option<nat>) returns (v: World)
    requires Formations.Reachable(w, base, WINDOW) && Formations.Enabled(w, Answer(i, 0, from, true))
    ensures Formations.Reachable(v, base, WINDOW) && v == AfterAnswer(w, i, 0, from, true)
  {
    hide Formations.Reachable, Floor, Formations.Inv, Info, AfterAnswer;
    var x := Formations.ReachableInv(w, base, WINDOW);
    AnswerIs(w, base, x, i, 0, from, true);
    NextReachable(w, base, WINDOW, Answer(i, 0, from, true));
    v := AfterAnswer(w, i, 0, from, true);
  }

  lemma TheyAnswer() returns (w: World, base: RingSystem.System)
    ensures BothAnswered(w, base)
  {
    base := TrioEnds();
    hide RingTheorems.Reachable, Formations.Reachable;
    BeginReachable(base, WINDOW);
    var w1 := Answers(Begin(base), base, 0, None);
    w := Answers(w1, base, 1, Some(0));
  }

  lemma HasElement(s: seq<int>)
    ensures s != [] ==> s[0] in s
  {}

  /** The agreed number is 0: neither has anything. */
  lemma NothingAgreed(w: World, base: RingSystem.System)
    requires BothAnswered(w, base)
    ensures Info(w.entries[1]).Some?
    ensures var rg := Info(w.entries[1]).value; rg.aru == rg.highest == 0 && rg.holes == []
  {
    hide Formations.Reachable;
    EveryEntryExact(w, base, WINDOW, 1);
    hide Info;
    var e := w.entries[1];
    var k :| 0 <= k < |e.cs| && e.cs[k].d.highest == Info(e).value.highest;
    var l :| 0 <= l < |e.cs| && e.cs[l].d.stable == Info(e).value.aru;
    HasElement(Info(e).value.holes);
  }

  function NewConf(): Conf { Conf([1, 2, 3], [1, 2]) }

  const LAST_SEQ := SEQ_MARGIN

  lemma MayRead(w: World, base: RingSystem.System, i: nat)
    requires BothAnswered(w, base) && i < 2
    ensures Formations.Enabled(w, Read(i, 1, NewConf(), LAST_SEQ))
  {
    assert NewConf().allProcs[2] == 3;
    assert w.entries[1].who[i] == i;
  }

  /** The first packet of the departed daemon 3 reaches daemon 1 after it has answered. */
  lemma OneArrives() returns (w: World, base: RingSystem.System)
    ensures Formations.Reachable(w, base, WINDOW) && |w.entries| == 2 && |w.members| == 3
    ensures Formations.Enabled(w, Read(0, 1, NewConf(), LAST_SEQ))
    ensures w.members[0].d.packets == map[1 := Pending(Letters()[0])]
    ensures Info(w.entries[1]).Some? && Info(w.entries[1]).value.highest == 0
  {
    hide Formations.Reachable, Info;
    var v, b := TheyAnswer();
    base := b;
    NothingAgreed(v, base);
    MayRead(v, base, 0);
    var receive := Formations.Receive(0, 1);
    assert Formations.Enabled(v, receive);
    w := Formations.Next(v, receive);
    NextReachable(v, base, WINDOW, receive);
  }

  /** After daemon 1 has answered, the first packet of the departed daemon 3 reaches it. Reading FORM2 aborts
      daemon 1, although 3 is not a member of the ring being formed: the sender is found among the configured
      daemons. */
  lemma LatePacketAborts() returns (w: World, base: RingSystem.System, step: Formations.Step)
    ensures Formations.Reachable(w, base, WINDOW) && Formations.Enabled(w, step) && step.Read?
    ensures forall s :: s in w.members[step.i].d.packets ==>
              w.members[step.i].d.packets[s].Pending? && w.members[step.i].d.packets[s].p.sender !in step.conf.members
    ensures Formations.Next(w, step).members[step.i].phase.Dead?
  {
    hide Formations.Reachable, Formations.Next, HandleBcast, Info, Formations.Enabled;
    w, base := OneArrives();
    step := Read(0, 1, NewConf(), LAST_SEQ);
    ReadIsFatal(w, base, WINDOW, 0, 1, NewConf(), LAST_SEQ);
    assert Late(w.members[0].d, Info(w.entries[1]).value) by {
      assert 1 in w.members[0].d.packets;
    }
  }

  /** Daemon i reads FORM2 while nothing has arrived. */
  lemma Reads(w: World, base: RingSystem.System, i: nat) returns (v: World)
    requires Formations.Reachable(w, base, WINDOW) && Formations.Enabled(w, Read(i, 1, NewConf(), LAST_SEQ))
    requires w.members[i].d.packets == map[]
    ensures Formations.Reachable(v, base, WINDOW) && v == Formations.Next(w, Read(i, 1, NewConf(), LAST_SEQ))
    ensures v == Formations.Put(w, i, v.members[i]) && v.members[i].phase == Recovering(1, LAST_SEQ)
  {
    hide Formations.Reachable, Info, Gather, ReadForm2;
    v := Formations.Next(w, Read(i, 1, NewConf(), LAST_SEQ));
    NextReachable(w, base, WINDOW, Read(i, 1, NewConf(), LAST_SEQ));
    ReadIsFatal(w, base, WINDOW, i, 1, NewConf(), LAST_SEQ);
  }

  /** Daemons 1 and 2 have both read FORM2 and are complete. Then daemon 1 receives a packet that was sent before the
      failure and that neither of them knew of. If it is the first one, daemon 1 still counts as complete and
      delivers it, and daemon 2 does not; if it is the second one, daemon 1 is no longer complete. */
  lemma PacketAboveDiffers() returns (w: World, base: RingSystem.System, rg: RingInfo)
    ensures Formations.Reachable(w, base, WINDOW) && |w.members| == 3 && |w.sent| == 2 && Formations.Configured(NewConf(), w.sent)
    ensures w.members[0].phase == Recovering(1, LAST_SEQ) && w.members[1].phase == w.members[0].phase
    ensures |w.entries| == 2 && Info(w.entries[1]) == Some(rg) && rg.highest == 0
    ensures VirtualSynchrony.Complete(w.members[0].d) && VirtualSynchrony.Complete(w.members[1].d)
    ensures var f := HandleBcast(w.members[0].d, At(w.sent, 1));
            && VirtualSynchrony.Complete(f)
            && Ordered(EvsDeliver(f, rg.procs).log) != Ordered(EvsDeliver(w.members[1].d, rg.procs).log)
    ensures !VirtualSynchrony.Complete(HandleBcast(w.members[0].d, At(w.sent, 2)))
  {
    var v, b := TheyAnswer();
    base := b;
    NothingAgreed(v, base);
    MayRead(v, base, 0);
    MayRead(v, base, 1);
    rg := Info(v.entries[1]).value;
    hide Formations.Reachable, Info, HandleBcast, EvsDeliver, Ordered, EvsGood;
    var v1 := Reads(v, base, 0);
    w := Reads(v1, base, 1);
    RecoveringState(w, base, WINDOW, 0);
    RecoveringState(w, base, WINDOW, 1);
    var d := w.members[0].d;
    VirtualSynchrony.EvsBounds(d, rg, w.sent);
    VirtualSynchrony.EvsBounds(w.members[1].d, rg, w.sent);
    RecoveryPrescribed(w, base, WINDOW, 1);
    OnePacket(d, rg, w.sent, 1);
    OnePacket(d, rg, w.sent, 2);
    NothingInTable(d, rg, w.sent);
  }

  lemma NothingInTable(d: Daemon, rg: RingInfo, sent: seq<Packet>)
    requires EvsGood(d, rg, sent) && rg.aru == rg.highest == 0
    ensures d.packets == map[]
  {
    hide LogExact, LogOrdered, DeliveryMarks;
    assert forall s :: s !in d.packets;
  }

  lemma OnePacket(d: Daemon, rg: RingInfo, sent: seq<Packet>, s: int)
    requires EvsGood(d, rg, sent) && Numbered(sent) && rg.aru == rg.highest == 0 && rg.holes == [] && 1 <= s <= |sent|
    requires !IsFloating(At(sent, s))
    ensures var f := HandleBcast(d, At(sent, s));
            && (VirtualSynchrony.Complete(f) <==> s == 1)
            && (s == 1 ==> Ordered(EvsDeliver(f, rg.procs).log) != VirtualSynchrony.Prescribed(sent, rg))
  {
    NothingInTable(d, rg, sent);
    hide EvsGood, HandleBcast, EvsDeliver, Ordered, VirtualSynchrony.Prescribed, VirtualSynchrony.Complete;
    var numbers := [s];
    VirtualSynchrony.PacketsAboveAgreed(d, rg, sent, numbers);
    assert numbers[1..] == [];
    assert Collect(d, sent, numbers) == HandleBcast(d, At(sent, s));
    assert VirtualSynchrony.Top(0, numbers) == s;
    assert 1 in numbers <==> s == 1;
    assert s == 1 ==> !VirtualSynchrony.Unheard(sent, rg, 1);
  }

  /** From the same state: a recovery token comes to daemon 1, which takes its prefix for complete. When the second packet
      arrives after that, daemon 1 does not notice that the first is missing: its recount still finds it finished, so
      the barrier passes, and delivering takes the fatal branch. */
  lemma RecountedExits() returns (w: World, base: RingSystem.System, rg: RingInfo)
    ensures Formations.Reachable(w, base, WINDOW) && |w.members| == 3 && |w.sent| == 2
    ensures w.members[0].phase == Recovering(1, LAST_SEQ) && |w.entries| == 2 && Info(w.entries[1]) == Some(rg)
    ensures w.members[0].d.received == LAST_SEQ && VirtualSynchrony.Complete(w.members[0].d)
    ensures var f := HandleBcast(w.members[0].d, At(w.sent, 2));
            && EvsBarrier.Recount(f, LAST_SEQ) == LAST_SEQ
            && !VirtualSynchrony.Complete(f) && EvsDeliver(f, rg.procs).alarm
  {
    var v, b, r := PacketAboveDiffers();
    base, rg := b, r;
    var step := TokenVisit(0, 0);
    hide Formations.Reachable, Info, HandleBcast, EvsDeliver, EvsGood, EvsBarrier.Recount;
    RecoveringState(v, base, WINDOW, 0);
    var before := EvsBarrier.Member(v.members[0].d, rg, v.sent, 0, false);
    Finds(before);
    assert Formations.Enabled(v, step);
    NextReachable(v, base, WINDOW, step);
    w := Formations.Next(v, step);
    RecoveringState(w, base, WINDOW, 0);
    SecondIsFatal(EvsBarrier.Member(w.members[0].d, rg, w.sent, 0, false));
  }

  lemma Finds(m: EvsBarrier.Member)
    requires EvsBarrier.MemberOk(m, LAST_SEQ) && VirtualSynchrony.Complete(m.d)
    ensures EvsBarrier.Recount(m.d, LAST_SEQ) == LAST_SEQ
  {
    EvsBarrier.MarksOk(m, LAST_SEQ);
    hide EvsBarrier.Recount;
    EvsBarrier.RecountIs(m.d, LAST_SEQ);
  }

  lemma SecondIsFatal(m: EvsBarrier.Member)
    requires EvsBarrier.MemberOk(m, LAST_SEQ) && m.d.received == LAST_SEQ && m.rg.highest == 0 && |m.sent| == 2
    ensures var f := HandleBcast(m.d, At(m.sent, 2));
            && EvsBarrier.Recount(f, LAST_SEQ) == LAST_SEQ
            && !VirtualSynchrony.Complete(f) && EvsDeliver(f, m.rg.procs).alarm
  {
    hide HandleBcast, EvsDeliver, EvsBarrier.Recount, VirtualSynchrony.Complete;
    var numbers := [2];
    EvsBarrier.AboveAgreedOutcome(m, LAST_SEQ, numbers);
    VirtualSynchrony.PacketsAboveAgreed(m.d, m.rg, m.sent, numbers);
    assert numbers[1..] == [];
    assert Collect(m.d, m.sent, numbers) == HandleBcast(m.d, At(m.sent, 2));
    assert VirtualSynchrony.Top(0, numbers) == 2;
    assert 1 !in numbers;
  }
}
