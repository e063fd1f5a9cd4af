/** The recovery barrier.

The members of the ring being formed may come from several old rings; each knows only its own
ring's entry.  They pass a token around until every one of them is complete, using nothing but the
aru protocol: a complete member raises its mark to a number above everything real, `lastSeq`. */
module EvsBarrier {
  import opened SpreadTypes
  import opened Delivery
  import opened FormToken
  import opened Recovery
  import TokenAru
  import VirtualSynchrony

  /** `rg` and `sent` belong to the member's own old ring. */
  datatype Member = Member(d: Daemon, rg: RingInfo, sent: seq<Packet>, lastAru: int, installed: bool)

  datatype System = System(ring: seq<Member>, aru: int, lastId: int, lastSeq: int)

  /** The holder recounts its prefix, and when nothing is missing commits and raises it to `lastSeq`. */
  function Recount(d: Daemon, lastSeq: int): int {
    var r := Advance(d.packets, d.received, d.highest);
    if r == d.highest then lastSeq else r
  }

  /** One token visit of a daemon in recovery; it installs when its stable mark reaches `lastSeq`. */
  function Pass(sys: System): System
    requires |sys.ring| > 0
  {
    var m := sys.ring[0];
    var received := Recount(m.d, sys.lastSeq);
    var aru := TokenAru.NextAru(sys.aru, sys.lastId, 0, false, m.d.id, received);
    var stable := TokenAru.StableMark(aru, m.lastAru);
    var next := m.(d := m.d.(received := received, stable := stable), lastAru := aru,
                   installed := stable > m.d.discarded && stable == sys.lastSeq);
    System(sys.ring[1..] + [next], aru,
           TokenAru.NextLastId(sys.aru, sys.lastId, 0, false, m.d.id, received), sys.lastSeq)
  }

  datatype Step = Receive(i: nat, s: int) | PassToken

  /** A member that installed processes no further recovery token. */
  predicate Enabled(sys: System, step: Step) {
    match step
    case Receive(i, s) => i < |sys.ring| && !sys.ring[i].installed && 1 <= s <= sys.ring[i].rg.highest <= |sys.ring[i].sent|
    case PassToken => |sys.ring| > 0 && !sys.ring[0].installed
  }

  function Next(sys: System, step: Step): System
    requires Enabled(sys, step)
  {
    match step
    case Receive(i, s) =>
      var m := sys.ring[i];
      sys.(ring := sys.ring[i := m.(d := HandleBcast(m.d, At(m.sent, s)))])
    case PassToken => Pass(sys)
  }

  predicate ValidRun(sys: System, steps: seq<Step>)
    decreases |steps|
  {
    steps == [] || (Enabled(sys, steps[0]) && ValidRun(Next(sys, steps[0]), steps[1..]))
  }

  function Run(sys: System, steps: seq<Step>): System
    requires ValidRun(sys, steps)
    decreases |steps|
  {
    if steps == [] then sys else Run(Next(sys, steps[0]), steps[1..])
  }

  /** Occupied without a gap up to the prefix mark, holes included. */
  ghost predicate Contiguous(d: Daemon) {
    forall s :: d.discarded < s <= d.received && s <= d.highest ==> s in d.packets
  }

  /** A member's mark is `lastSeq` exactly when it has finished: then its table is complete. */
  ghost predicate MemberOk(m: Member, lastSeq: int) {
    && EvsGood(m.d, m.rg, m.sent) && Numbered(m.sent) && Contiguous(m.d)
    && m.d.highest < lastSeq && 0 <= m.d.discarded <= m.d.received
    && (m.d.received <= m.d.highest || (m.d.received == lastSeq && VirtualSynchrony.Complete(m.d)))
  }

  /** Every member has just read its entry; the first token carries a large aru and no last id. */
  ghost predicate Start(sys: System) {
    && (forall i :: 0 <= i < |sys.ring| ==>
          MemberOk(sys.ring[i], sys.lastSeq) && sys.ring[i].lastAru == 0 && sys.ring[i].d.stable == 0
          && !sys.ring[i].installed)
    && (forall i, j :: 0 <= i < j < |sys.ring| ==> sys.ring[i].d.id != sys.ring[j].d.id)
    && sys.aru >= 0
  }

  /** Reading FORM2 without a fatal branch is what puts a daemon into that starting state. */
  lemma ReadForm2Starts(d: Daemon, rg: RingInfo, conf: Conf, sent: seq<Packet>, lastSeq: int)
    requires Fits(d, rg, sent) && AllConfigured(d, conf) && ReadForm2(d, rg, conf).Some? && rg.highest < lastSeq
    ensures var e := ReadForm2(d, rg, conf).value;
            MemberOk(Member(e, rg, sent, 0, false), lastSeq) && e.stable == 0 && e.id == d.id
  {
    ReadForm2Outcome(d, rg, conf, sent);
    ReadForm2Succeeds(d, rg, conf, sent);
    NothingBeyond(d, rg, sent);
    hide LogExact, LogOrdered, DeliveryMarks, ReadForm2;
  }

  lemma NothingBeyond(d: Daemon, rg: RingInfo, sent: seq<Packet>)
    requires Fits(d, rg, sent) && !Late(d, rg)
    ensures 0 <= d.received <= rg.highest
  {
    assert d.discarded < d.received ==> d.received in d.packets;
  }

  function AruView(sys: System): (r: TokenAru.Ring)
    ensures |r.members| == |sys.ring|
    ensures forall i :: 0 <= i < |sys.ring| ==>
              r.members[i] == TokenAru.Holder(sys.ring[i].d.id, sys.ring[i].lastAru, sys.ring[i].d.stable, sys.ring[i].d.received)
  {
    TokenAru.Ring(seq(|sys.ring|, i requires 0 <= i < |sys.ring| =>
        TokenAru.Holder(sys.ring[i].d.id, sys.ring[i].lastAru, sys.ring[i].d.stable, sys.ring[i].d.received)),
      sys.aru, sys.lastId, 0)
  }

  /** Once somebody has installed, everybody has finished and every recorded aru says so. */
  ghost predicate AllFinished(sys: System) {
    && sys.aru == sys.lastSeq
    && forall i :: 0 <= i < |sys.ring| ==> sys.ring[i].lastAru == sys.lastSeq && sys.ring[i].d.received == sys.lastSeq
  }

  ghost predicate Inv(sys: System) {
    && (forall i :: 0 <= i < |sys.ring| ==> MemberOk(sys.ring[i], sys.lastSeq))
    && TokenAru.Inv(AruView(sys), false)
    && ((exists i :: 0 <= i < |sys.ring| && sys.ring[i].installed) ==> AllFinished(sys))
  }

  lemma StartInv(sys: System)
    requires Start(sys)
    ensures Inv(sys)
  {
    TokenAru.FreshInv(AruView(sys), false);
  }

  lemma ReceiveOk(m: Member, lastSeq: int, s: int)
    requires MemberOk(m, lastSeq) && 1 <= s <= m.rg.highest <= |m.sent|
    ensures var f := HandleBcast(m.d, At(m.sent, s));
            && MemberOk(m.(d := f), lastSeq)
            && f.id == m.d.id && f.stable == m.d.stable && f.received >= m.d.received
            && (m.d.received == lastSeq ==> f == m.d)
  {
    EvsReceive(m.d, m.rg, m.sent, s);
    hide LogExact, LogOrdered, DeliveryMarks;
  }

  lemma RecountOk(m: Member, lastSeq: int, stable: int)
    requires MemberOk(m, lastSeq)
    ensures var r := Recount(m.d, lastSeq);
            && m.d.received <= r <= lastSeq
            && (m.d.received == lastSeq ==> r == lastSeq)
            && forall a, b :: MemberOk(m.(d := m.d.(received := r, stable := stable), lastAru := a, installed := b), lastSeq)
  {
    var r := Recount(m.d, lastSeq);
    var d := m.d.(received := r, stable := stable);
    assert EvsGood(d, m.rg, m.sent) by {
      hide LogExact, LogOrdered;
      assert forall t :: Passed(d, t) <==> Passed(m.d, t);
      LogExactSame(m.d, d, m.sent);
      LogOrderedSame(m.d, d, m.sent);
    }
    hide EvsGood;
  }

  lemma PassView(sys: System)
    requires |sys.ring| > 0
    ensures var v := TokenAru.Visit(AruView(sys), Recount(sys.ring[0].d, sys.lastSeq), 0, false);
            AruView(Pass(sys)) == v
  {}

  lemma MarksOk(m: Member, lastSeq: int)
    requires MemberOk(m, lastSeq)
    ensures 0 <= m.d.discarded < lastSeq && m.d.received <= lastSeq
  {
    hide LogExact, LogOrdered, DeliveryMarks;
  }

  /** If somebody installed before, the holder installs now. */
  lemma FollowerInstalls(sys: System)
    requires |sys.ring| > 0 && AllFinished(sys) && MemberOk(sys.ring[0], sys.lastSeq)
    ensures AllFinished(Pass(sys)) && Pass(sys).ring[|sys.ring| - 1].installed
  {
    RecountOk(sys.ring[0], sys.lastSeq, 0);
    MarksOk(sys.ring[0], sys.lastSeq);
    hide MemberOk, Recount;
    forall j | 0 <= j < |sys.ring| - 1 ensures Pass(sys).ring[j] == sys.ring[j + 1] {}
  }

  /** If the holder is the first to install, everybody has finished. */
  lemma FirstInstall(next: System)
    requires |next.ring| > 0 && TokenAru.Inv(AruView(next), false)
    requires forall i :: 0 <= i < |next.ring| ==> MemberOk(next.ring[i], next.lastSeq)
    requires next.ring[|next.ring| - 1].d.stable == next.lastSeq
    requires next.aru == next.ring[|next.ring| - 1].lastAru
    ensures AllFinished(next)
  {
    hide MemberOk;
    var n := |next.ring|;
    var r := AruView(next);
    forall j | 0 <= j < n ensures next.ring[j].lastAru == next.lastSeq && next.ring[j].d.received == next.lastSeq {
      assert r.members[n - 1].aru <= r.members[j].last <= r.members[j].received;
      MarksOk(next.ring[j], next.lastSeq);
    }
  }

  lemma PassMembers(sys: System)
    requires |sys.ring| > 0 && forall i :: 0 <= i < |sys.ring| ==> MemberOk(sys.ring[i], sys.lastSeq)
    ensures forall i :: 0 <= i < |sys.ring| ==> MemberOk(Pass(sys).ring[i], sys.lastSeq)
    ensures Recount(sys.ring[0].d, sys.lastSeq) >= sys.ring[0].d.received
  {
    var n := |sys.ring|;
    RecountOk(sys.ring[0], sys.lastSeq, Pass(sys).ring[n - 1].d.stable);
    hide MemberOk, Recount;
    forall i | 0 <= i < n ensures MemberOk(Pass(sys).ring[i], sys.lastSeq) {
      assert i < n - 1 ==> Pass(sys).ring[i] == sys.ring[i + 1];
    }
  }

  lemma PassInv(sys: System)
    requires Inv(sys) && Enabled(sys, PassToken)
    ensures Inv(Pass(sys))
    ensures (exists i :: 0 <= i < |sys.ring| && sys.ring[i].installed) ==> Pass(sys).ring[|sys.ring| - 1].installed
  {
    hide MemberOk, Recount, TokenAru.Inv, AllFinished;
    var n := |sys.ring|;
    PassMembers(sys);
    PassView(sys);
    TokenAru.VisitInv(AruView(sys), Recount(sys.ring[0].d, sys.lastSeq), 0, false);
    assert forall i :: 0 <= i < n - 1 ==> Pass(sys).ring[i] == sys.ring[i + 1];
    if i :| 0 <= i < n && sys.ring[i].installed {
      FollowerInstalls(sys);
    } else if i :| 0 <= i < n && Pass(sys).ring[i].installed {
      assert i == n - 1;
      FirstInstall(Pass(sys));
    }
  }

  lemma ReceiveInv(sys: System, i: nat, s: int)
    requires Inv(sys) && Enabled(sys, Receive(i, s))
    ensures Inv(Next(sys, Receive(i, s)))
  {
    hide MemberOk, HandleBcast, TokenAru.Inv;
    var next := Next(sys, Receive(i, s));
    ReceiveOk(sys.ring[i], sys.lastSeq, s);
    assert AruView(next) == TokenAru.Grow(AruView(sys), i, next.ring[i].d.received);
    TokenAru.GrowInv(AruView(sys), i, next.ring[i].d.received, false);
    if k :| 0 <= k < |next.ring| && next.ring[k].installed {
      assert sys.ring[k].installed;
    }
  }

  lemma NextInv(sys: System, step: Step)
    requires Inv(sys) && Enabled(sys, step)
    ensures Inv(Next(sys, step))
  {
    hide Inv;
    match step
    case Receive(i, s) => ReceiveInv(sys, i, s);
    case PassToken => PassInv(sys);
  }

  lemma {:induction false} RunInv(sys: System, steps: seq<Step>)
    requires Inv(sys) && ValidRun(sys, steps)
    ensures Inv(Run(sys, steps))
    decreases |steps|
  {
    hide Inv, Next, Enabled;
    if steps != [] {
      NextInv(sys, steps[0]);
      RunInv(Next(sys, steps[0]), steps[1..]);
    }
  }

  /** In every run: as soon as one member has installed the new ring, every member of it has every packet
      of its own old ring or knows it for a hole, and delivers exactly what its old ring's entry
      prescribes. */
  lemma Barrier(start: System, steps: seq<Step>, i: nat, j: nat)
    requires Start(start) && ValidRun(start, steps)
    requires i < |Run(start, steps).ring| && j < |Run(start, steps).ring| && Run(start, steps).ring[i].installed
    ensures var m := Run(start, steps).ring[j];
            && VirtualSynchrony.Complete(m.d) && EvsGood(m.d, m.rg, m.sent)
            && 0 <= m.rg.aru <= m.rg.highest <= |m.sent|
            && Ordered(EvsDeliver(m.d, m.rg.procs).log) == VirtualSynchrony.Prescribed(m.sent, m.rg)
            && !EvsDeliver(m.d, m.rg.procs).alarm
  {
    StartInv(start);
    RunInv(start, steps);
    var sys := Run(start, steps);
    var m := sys.ring[j];
    assert AllFinished(sys) && MemberOk(m, sys.lastSeq);
    hide EvsGood;
    VirtualSynchrony.EvsDeliverPrescribed(m.d, m.rg, m.sent);
  }

  /** No token lowers the holder's stable mark, so the branches for that are not taken in recovery either. */
  lemma NeverLowers(start: System, steps: seq<Step>)
    requires Start(start) && ValidRun(start, steps) && Enabled(Run(start, steps), PassToken)
    ensures var sys := Run(start, steps);
            Pass(sys).ring[|sys.ring| - 1].d.stable >= sys.ring[0].d.stable
  {
    StartInv(start);
    RunInv(start, steps);
    var sys := Run(start, steps);
    hide TokenAru.Inv, MemberOk, Recount;
    PassMembers(sys);
    PassView(sys);
    TokenAru.VisitInv(AruView(sys), Recount(sys.ring[0].d, sys.lastSeq), 0, false);
  }

  /** And each remaining member installs on its very next token. */
  lemma OthersFollow(start: System, steps: seq<Step>, i: nat)
    requires Start(start) && ValidRun(start, steps)
    requires i < |Run(start, steps).ring| && Run(start, steps).ring[i].installed
    requires Enabled(Run(start, steps), PassToken)
    ensures var sys := Run(start, steps);
            Pass(sys).ring[|sys.ring| - 1].installed && Pass(sys).ring[|sys.ring| - 1].d.id == sys.ring[0].d.id
  {
    StartInv(start);
    RunInv(start, steps);
    hide Inv, Start;
    PassInv(Run(start, steps));
  }

  // ---- Packets above the agreed number, before and after the recount ----

  /** The prefix mark is where the filled slots end, or as far as it was raised. */
  ghost predicate Marked(d: Daemon) {
    d.evs && d.discarded <= d.received && (d.received <= d.highest ==> Contiguous(d))
  }

  lemma MarkedReceives(d: Daemon, p: Packet, lastSeq: int)
    requires Marked(d) && p.seqNo < lastSeq && d.highest < lastSeq && (d.received <= d.highest || d.received == lastSeq)
    ensures var f := HandleBcast(d, p);
            && Marked(f) && f.discarded == d.discarded && d.highest <= f.highest <= Max(d.highest, p.seqNo)
            && (d.received <= d.highest ==> f.received <= f.highest)
            && (d.received == lastSeq ==> f.received == lastSeq)
            && (p.seqNo > d.discarded ==> p.seqNo in f.packets) && d.packets.Keys <= f.packets.Keys
  {}

  lemma {:induction false} MarkedCollects(d: Daemon, sent: seq<Packet>, numbers: seq<int>, lastSeq: int)
    requires Marked(d) && Numbered(sent) && d.highest < lastSeq && (d.received <= d.highest || d.received == lastSeq)
    requires forall k :: 0 <= k < |numbers| ==> 1 <= numbers[k] <= |sent| && numbers[k] < lastSeq
    ensures var f := Collect(d, sent, numbers);
            && Marked(f) && f.discarded == d.discarded && f.highest < lastSeq
            && (d.received <= d.highest ==> f.received <= f.highest)
            && (d.received == lastSeq ==> f.received == lastSeq)
    decreases |numbers|
  {
    hide HandleBcast, Marked;
    if numbers != [] {
      var p := At(sent, numbers[0]);
      MarkedReceives(d, p, lastSeq);
      MarkedCollects(HandleBcast(d, p), sent, numbers[1..], lastSeq);
    }
  }

  lemma RecountIs(f: Daemon, lastSeq: int)
    requires Marked(f) && f.highest < lastSeq && (f.received <= f.highest || f.received == lastSeq)
    ensures Recount(f, lastSeq) == lastSeq <==> VirtualSynchrony.Complete(f) || f.received == lastSeq
  {
    if f.received <= f.highest && VirtualSynchrony.Complete(f) {
      AdvanceUnique(f.packets, f.received, f.highest, f.highest);
    }
  }

  /** What becomes of a recovering member that receives any packets of its old ring, above the agreed number or not. Its
      next recount finds it finished if and only if its table is complete, or it was found finished before. In the
      first case the barrier holds for it; in the second, if a packet above the agreed number has left a gap, the
      barrier passes all the same and delivering is fatal. A member that was not finished and has a gap waits. */
  lemma AboveAgreedOutcome(m: Member, lastSeq: int, numbers: seq<int>)
    requires MemberOk(m, lastSeq)
    requires forall k :: 0 <= k < |numbers| ==> 1 <= numbers[k] <= |m.sent| && numbers[k] < lastSeq
    ensures var f := Collect(m.d, m.sent, numbers);
            && (Recount(f, lastSeq) == lastSeq <==> VirtualSynchrony.Complete(f) || m.d.received == lastSeq)
            && (EvsDeliver(f, m.rg.procs).alarm <==> !VirtualSynchrony.Complete(f))
            && (m.d.received == lastSeq ==>
                  (EvsDeliver(f, m.rg.procs).alarm <==>
                   exists s :: m.rg.highest < s <= f.highest && s !in numbers))
  {
    MarksOk(m, lastSeq);
    VirtualSynchrony.PacketsAboveAgreed(m.d, m.rg, m.sent, numbers);
    assert Marked(m.d) && m.d.highest < lastSeq;
    VirtualSynchrony.EvsBounds(m.d, m.rg, m.sent);
    hide EvsGood, EvsDeliver, Collect, Marked, Recount;
    MarkedCollects(m.d, m.sent, numbers, lastSeq);
    var f := Collect(m.d, m.sent, numbers);
    RecountIs(f, lastSeq);
    if m.d.received == lastSeq {
      FinishedGap(m, lastSeq, numbers, f.highest);
    }
  }

  lemma FinishedGap(m: Member, lastSeq: int, numbers: seq<int>, highest: int)
    requires MemberOk(m, lastSeq) && m.d.received == lastSeq && m.rg.highest <= highest
    ensures (forall s :: m.rg.aru < s <= highest ==> s in m.d.packets || s in numbers) <==>
            !(exists s :: m.rg.highest < s <= highest && s !in numbers)
  {
    hide LogExact, LogOrdered, DeliveryMarks;
    forall s | m.rg.aru < s <= m.rg.highest ensures s in m.d.packets {}
    forall s | m.rg.highest < s ensures s !in m.d.packets {}
  }

  // ---- The barrier passes ----

  ghost predicate NobodyInstalled(sys: System) {
    forall i :: 0 <= i < |sys.ring| ==> !sys.ring[i].installed
  }

  /** Every member finds its table complete at its next token. */
  ghost predicate AllComplete(sys: System) {
    forall i :: 0 <= i < |sys.ring| ==> Recount(sys.ring[i].d, sys.lastSeq) == sys.lastSeq
  }

  /** The token names a member, or claims more than anybody can have, so that the holder writes its mark. */
  ghost predicate Moving(sys: System) {
    |sys.ring| > 0 && (TokenAru.Named(AruView(sys)) || sys.aru > sys.lastSeq)
  }

  /** The members from position j on have raised their prefix. */
  ghost predicate Raised(sys: System, j: nat) {
    forall i :: j <= i < |sys.ring| ==> sys.ring[i].d.received == sys.lastSeq
  }

  ghost predicate Ready(sys: System) {
    Inv(sys) && NobodyInstalled(sys) && AllComplete(sys) && Moving(sys)
  }

  /** One token while everybody is complete: either the holder installs, or all stays ready and the holder has raised its
      prefix. */
  lemma OneToken(sys: System)
    requires Ready(sys)
    ensures Enabled(sys, PassToken)
    ensures var n := Pass(sys);
            && |n.ring| == |sys.ring| && n.lastSeq == sys.lastSeq
            && (forall i :: 0 <= i < |sys.ring| - 1 ==> n.ring[i] == sys.ring[i + 1])
            && n.ring[|sys.ring| - 1].d.received == sys.lastSeq
            && (n.ring[|sys.ring| - 1].installed || Ready(n))
            && Inv(n) && AruView(n) == TokenAru.Visit(AruView(sys), sys.lastSeq, 0, false)
            && (n.ring[|sys.ring| - 1].installed <==> n.ring[|sys.ring| - 1].d.stable == sys.lastSeq)
  {
    ReadyParts(sys);
    hide *;
    PassInv(sys);
    PassView(sys);
    PassShape(sys);
    MovingOn(sys);
    if !Pass(sys).ring[|sys.ring| - 1].installed {
      StaysReady(sys, Pass(sys));
    }
  }

  lemma ReadyParts(sys: System)
    requires Ready(sys)
    ensures Inv(sys) && Moving(sys) && Enabled(sys, PassToken) && sys.ring != [] && Recount(sys.ring[0].d, sys.lastSeq) == sys.lastSeq
  {
    hide Inv, Recount, TokenAru.Named;
  }

  lemma PassShape(sys: System)
    requires Inv(sys) && sys.ring != [] && Recount(sys.ring[0].d, sys.lastSeq) == sys.lastSeq
    ensures var n := Pass(sys);
            && |n.ring| == |sys.ring| && n.lastSeq == sys.lastSeq
            && (forall i :: 0 <= i < |sys.ring| - 1 ==> n.ring[i] == sys.ring[i + 1])
            && n.ring[|sys.ring| - 1].d.received == sys.lastSeq
            && Recount(n.ring[|sys.ring| - 1].d, sys.lastSeq) == sys.lastSeq
            && (n.ring[|sys.ring| - 1].installed <==> n.ring[|sys.ring| - 1].d.stable == sys.lastSeq)
  {
    HolderMarks(sys);
    hide Inv, TokenAru.NextAru, TokenAru.StableMark, TokenAru.NextLastId;
    RaisedStays(sys.ring[0].d, Pass(sys).ring[|sys.ring| - 1].d, sys.lastSeq);
  }

  lemma StaysReady(sys: System, n: System)
    requires Ready(sys) && Inv(n) && Moving(n) && |n.ring| == |sys.ring| && n.lastSeq == sys.lastSeq
    requires forall i :: 0 <= i < |sys.ring| - 1 ==> n.ring[i] == sys.ring[i + 1]
    requires Recount(n.ring[|sys.ring| - 1].d, sys.lastSeq) == sys.lastSeq && !n.ring[|sys.ring| - 1].installed
    ensures Ready(n)
  {
    hide Inv, Moving, Recount;
  }

  lemma HolderMarks(sys: System)
    requires Inv(sys) && sys.ring != []
    ensures sys.ring[0].d.discarded < sys.lastSeq && sys.ring[0].d.received <= sys.lastSeq && sys.ring[0].d.highest < sys.lastSeq
  {
    MarksOk(sys.ring[0], sys.lastSeq);
    hide TokenAru.Inv, EvsGood, Contiguous;
  }

  lemma MovingOn(sys: System)
    requires Inv(sys) && Moving(sys) && Recount(sys.ring[0].d, sys.lastSeq) == sys.lastSeq
    ensures Moving(Pass(sys))
  {
    PassView(sys);
    TokenAru.NamedVisit(AruView(sys), sys.lastSeq, 0, false);
    hide Inv, Recount, TokenAru.Named;
  }

  lemma RaisedStays(d: Daemon, e: Daemon, lastSeq: int)
    requires e.received == lastSeq && e.packets == d.packets && e.highest == d.highest && d.highest < lastSeq
    ensures Recount(e, lastSeq) == lastSeq
  {}

  lemma {:induction false} MovingRun(sys: System, steps: seq<Step>)
    requires Inv(sys) && Moving(sys) && ValidRun(sys, steps)
    ensures Moving(Run(sys, steps))
    decreases |steps|
  {
    if steps != [] {
      MovingStep(sys, steps[0]);
      NextInv(sys, steps[0]);
      hide Inv, Next, Enabled, Moving;
      MovingRun(Next(sys, steps[0]), steps[1..]);
    }
  }

  lemma MovingStep(sys: System, step: Step)
    requires Inv(sys) && Moving(sys) && Enabled(sys, step)
    ensures Moving(Next(sys, step))
  {
    match step
    case Receive(i, s) =>
      ReceiveOk(sys.ring[i], sys.lastSeq, s);
      hide Inv, HandleBcast, EvsGood;
      if j :| 0 <= j < |sys.ring| && AruView(sys).members[j].id == sys.lastId {
        assert AruView(Next(sys, step)).members[j].id == sys.lastId;
      }
    case PassToken =>
      var received := Recount(sys.ring[0].d, sys.lastSeq);
      PassView(sys);
      RecountOk(sys.ring[0], sys.lastSeq, 0);
      hide Inv, MemberOk;
      TokenAru.NamedVisit(AruView(sys), received, 0, false);
  }

  ghost predicate LastInstalled(sys: System) {
    |sys.ring| > 0 && Inv(sys) && sys.ring[|sys.ring| - 1].installed
  }

  ghost predicate OthersWait(sys: System, j: nat) {
    j <= |sys.ring| && forall i :: 0 <= i < |sys.ring| ==> (sys.ring[i].installed <==> i >= j)
  }

  /** One rotation: every holder raises its prefix, unless one installs before. */
  lemma {:induction false} RaiseAll(sys: System, j: nat) returns (steps: seq<Step>)
    requires Ready(sys) && j <= |sys.ring| && Raised(sys, j)
    ensures |steps| <= j && ValidRun(sys, steps)
    ensures forall i :: 0 <= i < |steps| ==> steps[i].PassToken?
    ensures var s := Run(sys, steps);
            && |s.ring| == |sys.ring| && s.lastSeq == sys.lastSeq
            && ((Ready(s) && Raised(s, 0)) || (LastInstalled(s) && OthersWait(s, |s.ring| - 1)))
    decreases j
  {
    hide *;
    steps := [];
    NoStep(sys);
    if j > 0 {
      OneToken(sys);
      var n := Pass(sys);
      NoStep(n);
      if n.ring[|n.ring| - 1].installed {
        OnlyOne(sys, n);
      } else {
        NextRaised(sys, n, j);
        steps := RaiseAll(n, j - 1);
      }
      OneStep(sys, steps);
      steps := [PassToken] + steps;
    }
  }

  lemma OnlyOne(sys: System, n: System)
    requires Ready(sys) && |n.ring| == |sys.ring| && Inv(n) && n.ring[|n.ring| - 1].installed
    requires forall i :: 0 <= i < |sys.ring| - 1 ==> n.ring[i] == sys.ring[i + 1]
    ensures LastInstalled(n) && OthersWait(n, |n.ring| - 1)
  {
    hide Inv;
  }

  /** Further tokens are quiet visits, as long as nobody installs. */
  lemma {:induction false} QuietTokens(sys: System, k: nat) returns (steps: seq<Step>)
    requires Ready(sys) && Raised(sys, 0)
    ensures |steps| <= k && ValidRun(sys, steps)
    ensures forall i :: 0 <= i < |steps| ==> steps[i].PassToken?
    ensures var s := Run(sys, steps);
            && |s.ring| == |sys.ring| && s.lastSeq == sys.lastSeq
            && ((LastInstalled(s) && OthersWait(s, |s.ring| - 1))
                || (Ready(s) && AruView(s) == TokenAru.Quiet(AruView(sys), k, 0, false)
                    && (k > 0 ==> s.ring[|s.ring| - 1].d.stable != s.lastSeq)))
    decreases k
  {
    hide *;
    steps := [];
    NoStep(sys);
    QuietNext(sys, k);
    var n := Pass(sys);
    NoStep(n);
    if k > 0 {
      OneToken(sys);
      if n.ring[|n.ring| - 1].installed {
        OnlyOne(sys, n);
      } else {
        NextRaised(sys, n, 0);
        steps := QuietTokens(n, k - 1);
      }
      OneStep(sys, steps);
      steps := [PassToken] + steps;
    }
  }

  lemma NoStep(sys: System)
    ensures ValidRun(sys, []) && Run(sys, []) == sys
  {}

  lemma OneStep(sys: System, rest: seq<Step>)
    requires Enabled(sys, PassToken) && ValidRun(Pass(sys), rest)
    ensures ValidRun(sys, [PassToken] + rest) && Run(sys, [PassToken] + rest) == Run(Pass(sys), rest)
  {
    hide Pass;
    assert ([PassToken] + rest)[1..] == rest && Next(sys, PassToken) == Pass(sys);
  }

  lemma NextRaised(sys: System, n: System, j: nat)
    requires Raised(sys, j) && j <= |sys.ring| && |n.ring| == |sys.ring| > 0 && n.lastSeq == sys.lastSeq
    requires forall i :: 0 <= i < |sys.ring| - 1 ==> n.ring[i] == sys.ring[i + 1]
    requires n.ring[|sys.ring| - 1].d.received == sys.lastSeq
    ensures Raised(n, if j > 0 then j - 1 else 0)
  {}

  lemma QuietNext(sys: System, k: nat)
    requires Ready(sys) && Raised(sys, 0)
    ensures sys.ring != []
    ensures k == 0 ==> TokenAru.Quiet(AruView(sys), k, 0, false) == AruView(sys)
    ensures k > 0 ==> TokenAru.Quiet(AruView(sys), k, 0, false)
                      == TokenAru.Quiet(TokenAru.Visit(AruView(sys), sys.lastSeq, 0, false), k - 1, 0, false)
  {
    hide Inv, TokenAru.Visit, AllComplete, NobodyInstalled;
  }

  /** Once one has installed, the others do so one after the other. */
  lemma {:induction false} FollowAll(sys: System, j: nat) returns (steps: seq<Step>)
    requires Inv(sys) && j < |sys.ring| && OthersWait(sys, j)
    ensures |steps| == j && ValidRun(sys, steps)
    ensures forall i :: 0 <= i < |steps| ==> steps[i].PassToken?
    ensures var s := Run(sys, steps); |s.ring| == |sys.ring| && OthersWait(s, 0)
    decreases j
  {
    hide *;
    steps := [];
    NoStep(sys);
    if j > 0 {
      Follows(sys, j);
      var rest := FollowAll(Pass(sys), j - 1);
      OneStep(sys, rest);
      steps := [PassToken] + rest;
    }
  }

  lemma Follows(sys: System, j: nat)
    requires Inv(sys) && 0 < j < |sys.ring| && OthersWait(sys, j)
    ensures Enabled(sys, PassToken) && Inv(Pass(sys)) && |Pass(sys).ring| == |sys.ring| && OthersWait(Pass(sys), j - 1)
  {
    assert sys.ring[j].installed;
    PassInv(sys);
    hide Inv;
    PassRing(sys);
    hide Pass;
  }

  lemma PassRing(sys: System)
    requires sys.ring != []
    ensures |Pass(sys).ring| == |sys.ring| && forall i :: 0 <= i < |sys.ring| - 1 ==> Pass(sys).ring[i] == sys.ring[i + 1]
  {
    hide TokenAru.NextAru, TokenAru.StableMark, TokenAru.NextLastId, Recount;
  }

  lemma {:induction false} RingKept(sys: System, steps: seq<Step>)
    requires ValidRun(sys, steps)
    ensures |Run(sys, steps).ring| == |sys.ring| && Run(sys, steps).lastSeq == sys.lastSeq
    decreases |steps|
  {
    if steps != [] {
      hide HandleBcast, Recount;
      RingKept(Next(sys, steps[0]), steps[1..]);
    }
  }

  lemma {:induction false} RunAppend(sys: System, a: seq<Step>, b: seq<Step>)
    requires ValidRun(sys, a) && ValidRun(Run(sys, a), b)
    ensures ValidRun(sys, a + b) && Run(sys, a + b) == Run(Run(sys, a), b)
    decreases |a|
  {
    hide Enabled, Next;
    if a == [] {
      assert a + b == b;
    } else {
      assert (a + b)[0] == a[0] && (a + b)[1..] == a[1..] + b;
      RunAppend(Next(sys, a[0]), a[1..], b);
    }
  }

  lemma NotQuiet(sys: System, s: System)
    requires Ready(sys) && Raised(sys, 0)
    requires Inv(s) && |s.ring| == |sys.ring| && s.lastSeq == sys.lastSeq
    requires AruView(s) == TokenAru.Quiet(AruView(sys), 3 * |sys.ring| + 1, 0, false)
    ensures s.ring[|s.ring| - 1].d.stable == s.lastSeq
  {
    hide *;
    ReadyView(sys);
    LastMark(s);
    TokenAru.StableInThreeRotations(AruView(sys), sys.lastSeq, 0, false);
  }

  lemma ReadyView(sys: System)
    requires Ready(sys) && Raised(sys, 0)
    ensures var r := AruView(sys);
            && |sys.ring| > 0 && TokenAru.AllReceived(r, sys.lastSeq)
            && (TokenAru.Named(r) || TokenAru.TakesOver(r.aru, r.lastId, r.seqNo, false, r.members[0].id, r.members[0].received))
  {
    hide Inv, TokenAru.Named;
  }

  lemma LastMark(s: System)
    requires Inv(s) && s.ring != []
    ensures s.ring[|s.ring| - 1].d.stable <= s.lastSeq
  {
    var n := |s.ring|;
    MarksOk(s.ring[n - 1], s.lastSeq);
    hide MemberOk, AllFinished;
    assert AruView(s).members[n - 1].aru <= AruView(s).members[n - 1].last <= AruView(s).members[n - 1].received;
  }

  /** Progress: from any point of a run at which all tables are complete, and if nothing is lost, five rotations bring
      every member to install the new ring. */
  lemma EverybodyInstalls(start: System, before: seq<Step>) returns (steps: seq<Step>)
    requires Start(start) && start.ring != [] && start.aru > start.lastSeq && ValidRun(start, before)
    requires NobodyInstalled(Run(start, before)) && AllComplete(Run(start, before))
    ensures |steps| <= 5 * |start.ring| && ValidRun(Run(start, before), steps)
    ensures forall i :: 0 <= i < |steps| ==> steps[i].PassToken?
    ensures var s := Run(Run(start, before), steps);
            |s.ring| == |start.ring| && forall i :: 0 <= i < |s.ring| ==> s.ring[i].installed
  {
    hide *;
    ReadyAfter(start, before);
    steps := InstallAll(Run(start, before));
  }

  lemma ReadyAfter(start: System, before: seq<Step>)
    requires Start(start) && start.ring != [] && start.aru > start.lastSeq && ValidRun(start, before)
    requires NobodyInstalled(Run(start, before)) && AllComplete(Run(start, before))
    ensures Ready(Run(start, before)) && |Run(start, before).ring| == |start.ring|
  {
    StartInv(start);
    RunInv(start, before);
    hide Inv, NobodyInstalled, AllComplete, TokenAru.Named;
    assert Moving(start);
    MovingRun(start, before);
    RingKept(start, before);
  }

  lemma InstallAll(sys: System) returns (steps: seq<Step>)
    requires Ready(sys)
    ensures |steps| <= 5 * |sys.ring| && ValidRun(sys, steps)
    ensures forall i :: 0 <= i < |steps| ==> steps[i].PassToken?
    ensures var s := Run(sys, steps); |s.ring| == |sys.ring| && forall i :: 0 <= i < |s.ring| ==> s.ring[i].installed
  {
    hide *;
    var first := OneInstalls(sys);
    LastFirst(Run(sys, first));
    var rest := FollowAll(Run(sys, first), |sys.ring| - 1);
    RunAppend(sys, first, rest);
    AllOthers(Run(Run(sys, first), rest));
    steps := first + rest;
  }

  lemma LastFirst(sys: System)
    requires LastInstalled(sys)
    ensures Inv(sys) && |sys.ring| > 0
  {
    hide Inv;
  }

  lemma AllOthers(sys: System)
    requires OthersWait(sys, 0)
    ensures forall i :: 0 <= i < |sys.ring| ==> sys.ring[i].installed
  {}

  /** Four rotations and a visit, and somebody installs. */
  lemma OneInstalls(sys: System) returns (steps: seq<Step>)
    requires Ready(sys)
    ensures |steps| <= 4 * |sys.ring| + 1 && ValidRun(sys, steps)
    ensures forall i :: 0 <= i < |steps| ==> steps[i].PassToken?
    ensures var s := Run(sys, steps);
            |s.ring| == |sys.ring| > 0 && s.lastSeq == sys.lastSeq && LastInstalled(s) && OthersWait(s, |s.ring| - 1)
  {
    hide *;
    NothingRaised(sys);
    steps := RaiseAll(sys, |sys.ring|);
    var s := Run(sys, steps);
    if Ready(s) && Raised(s, 0) {
      var quiet := QuietInstalls(s);
      RunAppend(sys, steps, quiet);
      steps := steps + quiet;
    } else {
      LastFirst(s);
    }
  }

  lemma QuietInstalls(s: System) returns (quiet: seq<Step>)
    requires Ready(s) && Raised(s, 0)
    ensures |quiet| <= 3 * |s.ring| + 1 && ValidRun(s, quiet)
    ensures forall i :: 0 <= i < |quiet| ==> quiet[i].PassToken?
    ensures var t := Run(s, quiet);
            |t.ring| == |s.ring| > 0 && t.lastSeq == s.lastSeq && LastInstalled(t) && OthersWait(t, |t.ring| - 1)
  {
    hide *;
    quiet := QuietTokens(s, 3 * |s.ring| + 1);
    var t := Run(s, quiet);
    ReadyView(s);
    if !(LastInstalled(t) && OthersWait(t, |t.ring| - 1)) {
      ReadyInv(t);
      NotQuiet(s, t);
    }
  }

  lemma NothingRaised(sys: System)
    ensures Raised(sys, |sys.ring|)
  {}

  lemma ReadyInv(sys: System)
    requires Ready(sys)
    ensures Inv(sys)
  {
    hide Inv;
  }
}
