/** A whole operational ring: several daemons, one token, and a broadcast network that may lose,
duplicate, delay and reorder every packet.

The members stand in the order in which the token will visit them next, so the holder is element
0.  `sent` lists every packet the ring ever numbered; the network may hand any of them to any
daemon at any time, which covers first transmissions and retransmissions alike.  A daemon that has
answered a FORM1 token stops processing the ring's token for good but keeps receiving packets;
`snapshot` is its state at that moment. */
module RingSystem {
  import opened SpreadTypes
  import opened Delivery
  import opened FlowControl
  import TokenAru

  /** The most retransmission requests that fit on one token. */
  const MAX_REQUESTS := 16362

  datatype Payload = Payload(service: Service, first: Fragment, rest: seq<Fragment>)

  datatype Token = Token(aru: int, lastId: int, seqNo: int, flow: int, requests: seq<int>)

  datatype Member = Member(d: Daemon, lastAru: int, lastSeq: int, retrans: nat, numSent: nat, snapshot: Option<Daemon>)

  datatype System = System(ring: seq<Member>, token: Token, sent: seq<Packet>)

  // ---- One token visit ----

  /** New packets numbered after `from`. */
  function Number(id: int, from: int, queue: seq<Payload>): (ps: seq<Packet>)
    ensures |ps| == |queue|
    ensures forall i :: 0 <= i < |ps| ==> ps[i].seqNo == from + 1 + i && ps[i].sender == id
  {
    seq(|queue|, i requires 0 <= i < |queue| =>
      Packet(from + 1 + i, id, queue[i].service, queue[i].first, queue[i].rest))
  }

  function Fresh(from: int, ps: seq<Packet>, s: int): Packet
    requires from < s <= from + |ps|
  {
    ps[s - from - 1]
  }

  function AddPending(packets: map<int, Slot>, from: int, ps: seq<Packet>): map<int, Slot> {
    packets + map s | from < s <= from + |ps| :: Pending(Fresh(from, ps, s))
  }

  /** How many of the requests the daemon can answer from its table. */
  function Answered(packets: map<int, Slot>, requests: seq<int>): nat {
    if requests == [] then 0
    else (if requests[0] in packets then 1 else 0) + Answered(packets, requests[1..])
  }

  /** The first `room` numbers in (from, limit] that are missing from the table. */
  function Missing(packets: map<int, Slot>, from: int, limit: int, room: nat): (ms: seq<int>)
    ensures forall r :: r in ms ==> from < r <= limit && r !in packets
    decreases limit - from
  {
    if from >= limit || room == 0 then []
    else if from + 1 in packets then Missing(packets, from + 1, limit, room)
    else [from + 1] + Missing(packets, from + 1, limit, room - 1)
  }

  /** How many packets the holder sends: what is allowed, as long as its down queue has any. */
  function SendCount(m: Member, t: Token, w: Windows, queued: nat): (n: nat)
    ensures n <= queued
    ensures n > 0 ==>
      && Max(m.d.highest, t.seqNo) <= m.d.stable + MAX_SEQ_GAP
      && n <= w.window && n <= w.personal
      && t.flow + n <= w.window + w.personal
  {
    var allowed := Allowed(w, m.d.evs, t.flow, Max(m.d.highest, t.seqNo), m.d.stable);
    if allowed <= 0 then 0 else if allowed <= queued then allowed else queued
  }

  /** The daemon after numbering its new packets and recounting its prefix. */
  function Extend(d: Daemon, t: Token, ps: seq<Packet>): Daemon {
    var h := Max(d.highest, t.seqNo);
    var e := d.(packets := AddPending(d.packets, h, ps), highest := h + |ps|);
    e.(received := Advance(e.packets, e.received, e.highest))
  }

  /** The fatal branches of token processing: a request below the stable mark, a new number whose
      slot is taken, a stable mark that would go down. */
  predicate TokenAlarm(d: Daemon, t: Token, ps: seq<Packet>, stable: int) {
    || (exists r :: r in t.requests && r < d.stable)
    || (exists i :: 0 <= i < |ps| && ps[i].seqNo in d.packets)
    || stable < d.stable
  }

  datatype Visit = Visit(m: Member, t: Token, sent: seq<Packet>)

  /** What the holder does with the token in the operational state. */
  function HandleToken(m: Member, t: Token, queue: seq<Payload>, w: Windows): Visit {
    var n := SendCount(m, t, w, |queue|);
    var ps := Number(m.d.id, Max(m.d.highest, t.seqNo), queue[..n]);
    var e := Extend(m.d, t, ps);
    var answered := Answered(m.d.packets, t.requests);
    var requests := Missing(e.packets, e.received, if w.accelerated then m.lastSeq else e.highest, MAX_REQUESTS);
    var aru := TokenAru.NextAru(t.aru, t.lastId, t.seqNo, true, m.d.id, e.received);
    var lastId := TokenAru.NextLastId(t.aru, t.lastId, t.seqNo, true, m.d.id, e.received);
    var stable := TokenAru.StableMark(aru, m.lastAru);
    var f := e.(stable := stable, alarm := e.alarm || TokenAlarm(m.d, t, ps, stable));
    var g := DeliverReliable(DeliverAgreed(Discard(f)), f.highest - n + 1, n);
    Visit(Member(g, aru, e.highest, answered, n, m.snapshot),
          Token(aru, lastId, e.highest, t.flow - m.retrans - m.numSent + answered + n, requests),
          ps)
  }

  // ---- The system's steps ----

  datatype Step =
    | Receive(i: nat, s: int)                    // a copy of packet s reaches member i
    | PassToken(queue: seq<Payload>, w: Windows) // the holder processes the token
    | DropRequests                               // the token is sent again without its request list
    | SetThreshold(i: nat, threshold: nat)
    | AgreedEvent(i: nat)                        // the delivery callbacks queued by a lowered threshold
    | ReliableEvent(i: nat)
    | Freeze(i: nat)                             // member i answers a FORM1 token

  predicate Enabled(sys: System, step: Step, maxAllowed: nat) {
    match step
    case Receive(i, s) => i < |sys.ring| && 1 <= s <= |sys.sent|
    case PassToken(_, w) =>
      |sys.ring| > 0 && sys.ring[0].snapshot.None? && (w.window <= maxAllowed || w.personal <= maxAllowed)
    case DropRequests => true
    case SetThreshold(i, _) => i < |sys.ring| && sys.ring[i].snapshot.None?
    case AgreedEvent(i) => i < |sys.ring|
    case ReliableEvent(i) => i < |sys.ring|
    case Freeze(i) => i < |sys.ring| && sys.ring[i].snapshot.None?
  }

  function UpdateDaemon(sys: System, i: nat, d: Daemon): System
    requires i < |sys.ring|
  {
    sys.(ring := sys.ring[i := sys.ring[i].(d := d)])
  }

  function Next(sys: System, step: Step, maxAllowed: nat): System
    requires Enabled(sys, step, maxAllowed)
  {
    match step
    case Receive(i, s) => UpdateDaemon(sys, i, HandleBcast(sys.ring[i].d, At(sys.sent, s)))
    case PassToken(queue, w) =>
      var v := HandleToken(sys.ring[0], sys.token, queue, w);
      System(sys.ring[1..] + [v.m], v.t, sys.sent + v.sent)
    case DropRequests => sys.(token := sys.token.(requests := []))
    case SetThreshold(i, th) => UpdateDaemon(sys, i, sys.ring[i].d.(threshold := th))
    case AgreedEvent(i) => UpdateDaemon(sys, i, DeliverAgreed(sys.ring[i].d))
    case ReliableEvent(i) => UpdateDaemon(sys, i, DeliverReliable(sys.ring[i].d, 1, sys.ring[i].d.highest))
    case Freeze(i) =>
      var m := sys.ring[i];
      var d := m.d.(threshold := BLOCK_REGULAR_DELIVERY);
      sys.(ring := sys.ring[i := m.(d := d, snapshot := Some(d))])
  }

  predicate ValidRun(sys: System, steps: seq<Step>, maxAllowed: nat)
    decreases |steps|
  {
    steps == [] || (Enabled(sys, steps[0], maxAllowed) && ValidRun(Next(sys, steps[0], maxAllowed), steps[1..], maxAllowed))
  }

  function Run(sys: System, steps: seq<Step>, maxAllowed: nat): System
    requires ValidRun(sys, steps, maxAllowed)
    decreases |steps|
  {
    if steps == [] then sys else Run(Next(sys, steps[0], maxAllowed), steps[1..], maxAllowed)
  }

  /** A ring that has just been installed. The token may still carry recovery values. */
  ghost predicate Start(sys: System) {
    && |sys.ring| > 0 && sys.sent == []
    && (forall i :: 0 <= i < |sys.ring| ==>
          && sys.ring[i].d == Init(sys.ring[i].d.id)
          && sys.ring[i].lastAru == 0 && sys.ring[i].lastSeq == 0 && sys.ring[i].retrans == 0 && sys.ring[i].numSent == 0
          && sys.ring[i].snapshot.None?)
    && (forall i, j :: 0 <= i < j < |sys.ring| ==> sys.ring[i].d.id != sys.ring[j].d.id)
    && sys.token.seqNo == 0 && sys.token.aru >= 0 && sys.token.flow == 0 && sys.token.requests == []
  }

  // ---- Invariants ----

  function Holder(m: Member): TokenAru.Holder {
    TokenAru.Holder(m.d.id, m.lastAru, m.d.stable, m.d.received)
  }

  function AruView(sys: System): (r: TokenAru.Ring)
    ensures |r.members| == |sys.ring|
    ensures forall i :: 0 <= i < |sys.ring| ==> r.members[i] == Holder(sys.ring[i])
  {
    TokenAru.Ring(seq(|sys.ring|, i requires 0 <= i < |sys.ring| => Holder(sys.ring[i])),
                  sys.token.aru, sys.token.lastId, sys.token.seqNo)
  }

  /** Every packet of the ring that the daemon sent itself is still known to it. */
  ghost predicate HoldsOwn(d: Daemon, sent: seq<Packet>) {
    forall s :: 1 <= s <= |sent| && At(sent, s).sender == d.id ==> Held(d, s)
  }

  /** After FORM1 a daemon only collects packets: nothing is delivered, discarded or lost. */
  ghost predicate OnlyCollects(old_: Daemon, d: Daemon) {
    && d == old_.(packets := d.packets, received := d.received, highest := d.highest)
    && old_.received <= d.received && old_.highest <= d.highest
    && d.threshold == BLOCK_REGULAR_DELIVERY
    && (forall s :: s in old_.packets ==> s in d.packets && d.packets[s] == old_.packets[s])
    && (forall s :: s in d.packets && s !in old_.packets ==> d.packets[s].Pending?)
  }

  ghost predicate MemberGood(m: Member, sent: seq<Packet>) {
    && Good(m.d, sent) && HoldsOwn(m.d, sent) && !m.d.evs && m.d.stable == m.d.discarded
    && m.lastAru <= m.d.received && m.lastSeq <= m.d.highest
    && (m.snapshot.Some? ==>
          && Good(m.snapshot.value, sent) && HoldsOwn(m.snapshot.value, sent)
          && OnlyCollects(m.snapshot.value, m.d) && m.lastAru <= m.snapshot.value.received)
  }

  function FlowSum(ring: seq<Member>): int {
    if ring == [] then 0 else ring[0].retrans + ring[0].numSent + FlowSum(ring[1..])
  }

  /** Packets in flight, on the token and in tables all lie less than a table length above every
      daemon's discarded mark. */
  ghost predicate InWindow(sys: System, maxAllowed: nat) {
    forall i :: 0 <= i < |sys.ring| ==> sys.token.seqNo <= sys.ring[i].d.stable + MAX_SEQ_GAP + maxAllowed
  }

  ghost predicate RequestsAboveStable(sys: System) {
    && (forall r :: r in sys.token.requests ==> r <= sys.token.seqNo)
    && (forall r, i :: r in sys.token.requests && 0 <= i < |sys.ring| ==> sys.ring[i].d.stable < r)
  }

  ghost predicate Inv(sys: System, maxAllowed: nat) {
    && Numbered(sys.sent) && |sys.sent| == sys.token.seqNo
    && (forall i :: 0 <= i < |sys.ring| ==> MemberGood(sys.ring[i], sys.sent))
    && TokenAru.Inv(AruView(sys), true)
    && RequestsAboveStable(sys)
    && InWindow(sys, maxAllowed)
    && sys.token.flow == FlowSum(sys.ring)
  }

  lemma {:induction false} FlowSumZero(ring: seq<Member>)
    requires forall i :: 0 <= i < |ring| ==> ring[i].retrans == 0 && ring[i].numSent == 0
    ensures FlowSum(ring) == 0
  {
    if ring != [] {
      FlowSumZero(ring[1..]);
    }
  }

  lemma {:induction false} FlowSumAppend(ring: seq<Member>, m: Member)
    ensures FlowSum(ring + [m]) == FlowSum(ring) + m.retrans + m.numSent
  {
    if ring == [] {
      assert [m][1..] == [];
    } else {
      assert (ring + [m])[1..] == ring[1..] + [m];
      FlowSumAppend(ring[1..], m);
    }
  }

  lemma {:induction false} FlowSumUpdate(ring: seq<Member>, i: nat, m: Member)
    requires i < |ring| && m.retrans == ring[i].retrans && m.numSent == ring[i].numSent
    ensures FlowSum(ring[i := m]) == FlowSum(ring)
  {
    if i == 0 {
      assert ring[i := m][1..] == ring[1..];
    } else {
      assert ring[i := m][1..] == ring[1..][i - 1 := m];
      FlowSumUpdate(ring[1..], i - 1, m);
    }
  }

  lemma StartInv(sys: System, maxAllowed: nat)
    requires Start(sys)
    ensures Inv(sys, maxAllowed)
  {
    forall i | 0 <= i < |sys.ring| ensures MemberGood(sys.ring[i], sys.sent) {
      InitGood(sys.ring[i].d.id, sys.sent);
    }
    TokenAru.FreshInv(AruView(sys), true);
    FlowSumZero(sys.ring);
  }

  // ---- One visit, seen from the holder ----

  lemma NumberedGrows(sent: seq<Packet>, ps: seq<Packet>)
    requires Numbered(sent)
    requires forall i :: 0 <= i < |ps| ==> ps[i].seqNo == |sent| + 1 + i
    ensures Numbered(sent + ps)
  {
    forall s | 1 <= s <= |sent + ps| ensures At(sent + ps, s).seqNo == s {
      if s <= |sent| {
        assert At(sent + ps, s) == At(sent, s);
      } else {
        assert At(sent + ps, s) == ps[s - 1 - |sent|];
      }
    }
  }

  lemma ExtendTable(d: Daemon, sent: seq<Packet>, t: Token, ps: seq<Packet>)
    requires Good(d, sent) && t.seqNo == |sent|
    ensures var e := Extend(d, t, ps);
            && Marks(e, sent + ps) && Table(e, sent + ps) && DeliveryMarks(e)
            && (forall s :: s in d.packets ==> s in e.packets && e.packets[s] == d.packets[s])
            && (forall s :: |sent| < s <= |sent + ps| ==> s in e.packets && e.packets[s].Pending?)
  {
    hide LogExact, LogOrdered, DeliveryMarks;
    var all := sent + ps;
    var e := Extend(d, t, ps);
    forall s | 1 <= s <= |sent| ensures At(all, s) == At(sent, s) {}
    forall s | |sent| < s <= |all| ensures s in e.packets && e.packets[s] == Pending(At(all, s)) {
      assert Fresh(|sent|, ps, s) == At(all, s);
    }
    ExtendDeliveryMarks(d, sent, t, ps);
  }

  lemma ExtendDeliveryMarks(d: Daemon, sent: seq<Packet>, t: Token, ps: seq<Packet>)
    requires DeliveryMarks(d) && Marks(d, sent) && t.seqNo == |sent|
    ensures DeliveryMarks(Extend(d, t, ps))
  {
    hide Advance;
    var e := Extend(d, t, ps);
    forall s | s in e.packets && s !in d.packets ensures e.packets[s].Pending? && s > d.delivered {}
  }

  lemma ExtendGood(d: Daemon, sent: seq<Packet>, t: Token, ps: seq<Packet>)
    requires Good(d, sent) && Numbered(sent) && t.seqNo == |sent|
    requires forall i :: 0 <= i < |ps| ==> ps[i].seqNo == |sent| + 1 + i
    ensures Numbered(sent + ps)
    ensures var e := Extend(d, t, ps);
            && Good(e, sent + ps)
            && e == d.(packets := e.packets, highest := |sent + ps|, received := e.received)
            && e.received >= d.received
            && (forall s :: s in d.packets ==> s in e.packets)
            && (forall s :: |sent| < s <= |sent + ps| ==> s in e.packets)
  {
    NumberedGrows(sent, ps);
    GoodGrows(d, sent, ps);
    var all := sent + ps;
    var e := Extend(d, t, ps);
    ExtendTable(d, sent, t, ps);
    hide LogExact, LogOrdered;
    assert LogExact(e, all) by {
      forall x ensures Passed(e, x) <==> Passed(d, x) {}
      LogExactSame(d, e, all);
    }
    LogOrderedSame(d, e, all);
  }

  /** What `MemberGood` and the ring invariants say to the daemon that holds the token. */
  ghost predicate HolderReady(m: Member, sent: seq<Packet>, t: Token) {
    && Numbered(sent) && |sent| == t.seqNo
    && MemberGood(m, sent) && m.snapshot.None?
    && (forall r :: r in t.requests ==> m.d.stable < r)
  }

  /** Deliveries and discards after the marks are computed: nothing is lost, nothing raises an alarm. */
  lemma SettleGood(e: Daemon, sent: seq<Packet>, stable: int, start: int, num: int)
    requires Good(e, sent) && Numbered(sent) && e.stable == e.discarded <= stable <= e.received
    ensures var g := DeliverReliable(DeliverAgreed(Discard(e.(stable := stable))), start, num);
            && Good(g, sent)
            && g == e.(packets := g.packets, stable := stable, discarded := stable, delivered := g.delivered, log := g.log)
            && (forall s :: Held(e, s) ==> Held(g, s))
  {
    GoodStable(e, sent, stable);
    var f := e.(stable := stable);
    DiscardLoopGood(f, sent, stable);
    var f1 := Discard(f);
    DeliverAgreedGood(f1, sent);
    DeliverReliableGood(DeliverAgreed(f1), sent, start, num);
    var g := DeliverReliable(DeliverAgreed(f1), start, num);
    forall s | Held(e, s) ensures Held(g, s) {
      if s > stable {
        assert s in f1.packets && s in g.packets;
        assert s <= |sent| by { assert s <= e.highest; }
      }
    }
  }

  /** One token visit on the holder's side, once the new stable mark is known to lie between its old
      one and the end of its own prefix. */
  lemma HandleTokenGood(m: Member, sent: seq<Packet>, t: Token, queue: seq<Payload>, w: Windows)
    requires HolderReady(m, sent, t)
    requires var v := HandleToken(m, t, queue, w);
             m.d.stable <= TokenAru.StableMark(v.t.aru, m.lastAru) <= Extend(m.d, t, v.sent).received
    ensures var v := HandleToken(m, t, queue, w);
            && Numbered(sent + v.sent) && MemberGood(v.m, sent + v.sent) && v.m.snapshot.None?
            && v.t.seqNo == |sent + v.sent| && v.m.d.id == m.d.id
            && v.m.d.received == Extend(m.d, t, v.sent).received >= m.d.received
            && v.m.d.received <= |sent + v.sent|
            && v.m.d.stable == TokenAru.StableMark(v.t.aru, m.lastAru)
            && (forall r :: r in v.t.requests ==> v.m.d.received < r <= v.t.seqNo)
            && (forall i :: 0 <= i < |v.sent| ==> v.sent[i].sender == m.d.id)
  {
    var v := HandleToken(m, t, queue, w);
    var all := sent + v.sent;
    var e := Extend(m.d, t, v.sent);
    var stable := TokenAru.StableMark(v.t.aru, m.lastAru);
    hide Good, TokenAlarm, Extend, Discard, DeliverAgreed, DeliverReliable;
    HighestKnown(m.d, sent);
    ExtendGood(m.d, sent, t, v.sent);
    NoTokenAlarm(m, sent, t, v.sent, stable);
    SettleGood(e, all, stable, e.highest - |v.sent| + 1, |v.sent|);
    forall s | 1 <= s <= |all| && At(all, s).sender == m.d.id ensures Held(v.m.d, s) {
      if s <= |sent| {
        assert At(all, s) == At(sent, s);
        HeldExtends(m.d, sent, t, v.sent, s);
      } else {
        NeverHole(e, all, s);
      }
      assert Held(e, s);
    }
    HighestKnown(v.m.d, all);
  }

  lemma HeldExtends(d: Daemon, sent: seq<Packet>, t: Token, ps: seq<Packet>, s: int)
    requires Good(d, sent) && t.seqNo == |sent| && Held(d, s)
    ensures Held(Extend(d, t, ps), s)
  {
    ExtendTable(d, sent, t, ps);
  }

  lemma NoTokenAlarm(m: Member, sent: seq<Packet>, t: Token, ps: seq<Packet>, stable: int)
    requires HolderReady(m, sent, t) && m.d.stable <= stable
    requires forall i :: 0 <= i < |ps| ==> ps[i].seqNo == |sent| + 1 + i
    ensures !TokenAlarm(m.d, t, ps, stable)
  {
    hide LogExact, LogOrdered, DeliveryMarks;
  }

  // ---- Every step keeps the invariant ----

  lemma PassTokenView(sys: System, queue: seq<Payload>, w: Windows)
    requires |sys.ring| > 0
    requires var v := HandleToken(sys.ring[0], sys.token, queue, w);
             && v.m.d.id == sys.ring[0].d.id && v.m.d.received == Extend(sys.ring[0].d, sys.token, v.sent).received
             && v.m.d.stable == TokenAru.StableMark(v.t.aru, sys.ring[0].lastAru)
    ensures var v := HandleToken(sys.ring[0], sys.token, queue, w);
            AruView(System(sys.ring[1..] + [v.m], v.t, sys.sent + v.sent))
            == TokenAru.Visit(AruView(sys), v.m.d.received, v.t.seqNo, true)
  {}

  lemma MemberGrows(m: Member, sent: seq<Packet>, ps: seq<Packet>, id: int)
    requires MemberGood(m, sent) && Numbered(sent + ps) && m.d.id != id
    requires forall i :: 0 <= i < |ps| ==> ps[i].sender == id
    ensures MemberGood(m, sent + ps)
  {
    hide Good;
    GoodGrows(m.d, sent, ps);
    OwnGrows(m.d, sent, ps, id);
    if m.snapshot.Some? {
      GoodGrows(m.snapshot.value, sent, ps);
      OwnGrows(m.snapshot.value, sent, ps, id);
    }
  }

  lemma OwnGrows(d: Daemon, sent: seq<Packet>, ps: seq<Packet>, id: int)
    requires HoldsOwn(d, sent) && d.id != id
    requires forall i :: 0 <= i < |ps| ==> ps[i].sender == id
    ensures HoldsOwn(d, sent + ps)
  {
    forall s | 1 <= s <= |sent + ps| && At(sent + ps, s).sender == d.id ensures Held(d, s) {
      if s <= |sent| {
        assert At(sent + ps, s) == At(sent, s);
      }
    }
  }

  /** The aru protocol bounds the holder's new stable mark from both sides, and every mark of the
      other members with it. */
  lemma HolderMarks(sys: System, queue: seq<Payload>, w: Windows, maxAllowed: nat)
    requires Inv(sys, maxAllowed) && |sys.ring| > 0 && sys.ring[0].snapshot.None?
    ensures var m := sys.ring[0];
            var v := HandleToken(m, sys.token, queue, w);
            var received := Extend(m.d, sys.token, v.sent).received;
            var r := TokenAru.Visit(AruView(sys), received, v.t.seqNo, true);
            && HolderReady(m, sys.sent, sys.token)
            && m.d.stable <= TokenAru.StableMark(v.t.aru, m.lastAru) <= received
            && TokenAru.Inv(r, true)
            && r.members[|sys.ring| - 1].aru == TokenAru.StableMark(v.t.aru, m.lastAru)
            && (forall i :: 0 <= i < |sys.ring| ==> sys.ring[i].d.stable <= r.members[|sys.ring| - 1].aru)
            && (forall i :: 0 < i < |sys.ring| ==> sys.ring[0].d.stable <= sys.ring[i].d.stable)
            && (forall i :: 0 <= i < |sys.ring| ==> r.members[|sys.ring| - 1].aru <= r.members[i].received)
  {
    hide Good, MemberGood, HolderReady, Extend, Numbered, TokenAru.Inv, RequestsAboveStable, InWindow;
    ReadyHolder(sys, maxAllowed);
    var m := sys.ring[0];
    var v := HandleToken(m, sys.token, queue, w);
    ExtendGood(m.d, sys.sent, sys.token, v.sent);
    var received := Extend(m.d, sys.token, v.sent).received;
    assert received <= v.t.seqNo by { ExtendMarks(m.d, sys.sent, sys.token, v.sent); }
    TokenAru.VisitInv(AruView(sys), received, v.t.seqNo, true);
    TokenAru.HolderLowest(AruView(sys), true);
    forall i | 0 <= i < |sys.ring| ensures sys.ring[i].d.stable == AruView(sys).members[i].aru {}
  }

  lemma ReadyHolder(sys: System, maxAllowed: nat)
    requires Inv(sys, maxAllowed) && |sys.ring| > 0 && sys.ring[0].snapshot.None?
    ensures HolderReady(sys.ring[0], sys.sent, sys.token) && Good(sys.ring[0].d, sys.sent)
    ensures Numbered(sys.sent) && |sys.sent| == sys.token.seqNo && sys.ring[0].d.highest <= |sys.sent|
    ensures TokenAru.Inv(AruView(sys), true)
  {
    hide LogExact, LogOrdered, DeliveryMarks, Table, TokenAru.Inv;
    assert MemberGood(sys.ring[0], sys.sent);
  }

  lemma ExtendMarks(d: Daemon, sent: seq<Packet>, t: Token, ps: seq<Packet>)
    requires Good(Extend(d, t, ps), sent + ps)
    ensures Extend(d, t, ps).received <= Extend(d, t, ps).highest
  {}

  lemma PassTokenMembers(sys: System, v: Visit)
    requires |sys.ring| > 0 && TokenAru.Inv(AruView(sys), true) && Numbered(sys.sent + v.sent)
    requires forall i :: 0 <= i < |sys.ring| ==> MemberGood(sys.ring[i], sys.sent)
    requires MemberGood(v.m, sys.sent + v.sent)
    requires forall i :: 0 <= i < |v.sent| ==> v.sent[i].sender == sys.ring[0].d.id
    ensures var ring := sys.ring[1..] + [v.m];
            forall i :: 0 <= i < |ring| ==> MemberGood(ring[i], sys.sent + v.sent)
  {
    hide MemberGood, TokenAru.Inv;
    var ring := sys.ring[1..] + [v.m];
    forall i | 0 <= i < |ring| ensures MemberGood(ring[i], sys.sent + v.sent) {
      if i < |ring| - 1 {
        OtherId(sys, i + 1);
        MemberGrows(sys.ring[i + 1], sys.sent, v.sent, sys.ring[0].d.id);
      }
    }
  }

  lemma PassTokenInv(sys: System, queue: seq<Payload>, w: Windows, maxAllowed: nat)
    requires Inv(sys, maxAllowed) && Enabled(sys, PassToken(queue, w), maxAllowed)
    ensures Inv(Next(sys, PassToken(queue, w), maxAllowed), maxAllowed)
  {
    var m := sys.ring[0];
    var v := HandleToken(m, sys.token, queue, w);
    var next := Next(sys, PassToken(queue, w), maxAllowed);
    var n := |sys.ring|;
    assert m.d.highest <= sys.token.seqNo by { HighestKnown(m.d, sys.sent); }
    SendInWindow(sys, queue, w, maxAllowed);
    HolderMarks(sys, queue, w, maxAllowed);
    hide Good, MemberGood, HolderReady, TokenAru.Inv, Extend, HandleToken, TokenAru.Visit, Numbered;
    HandleTokenGood(m, sys.sent, sys.token, queue, w);
    PassTokenView(sys, queue, w);
    PassTokenMembers(sys, v);
    PassTokenBounds(sys, v, maxAllowed);
    PassTokenFlow(sys, queue, w);
  }

  lemma PassTokenBounds(sys: System, v: Visit, maxAllowed: nat)
    requires |sys.ring| > 0
    requires v.t.seqNo <= sys.ring[0].d.stable + MAX_SEQ_GAP + maxAllowed
    requires forall i :: 0 <= i < |sys.ring| ==> sys.ring[0].d.stable <= sys.ring[i].d.stable <= v.m.d.stable
    requires v.m.d.stable <= v.m.d.received && forall r :: r in v.t.requests ==> v.m.d.received < r <= v.t.seqNo
    ensures var next := System(sys.ring[1..] + [v.m], v.t, sys.sent + v.sent);
            RequestsAboveStable(next) && InWindow(next, maxAllowed)
  {
    var next := System(sys.ring[1..] + [v.m], v.t, sys.sent + v.sent);
    forall i | 0 <= i < |next.ring|
      ensures sys.ring[0].d.stable <= next.ring[i].d.stable <= v.m.d.stable
    {
      assert i < |next.ring| - 1 ==> next.ring[i] == sys.ring[i + 1];
    }
  }

  lemma PassTokenFlow(sys: System, queue: seq<Payload>, w: Windows)
    requires |sys.ring| > 0 && sys.token.flow == FlowSum(sys.ring)
    ensures var v := HandleToken(sys.ring[0], sys.token, queue, w);
            v.t.flow == FlowSum(sys.ring[1..] + [v.m])
  {
    FlowSumAppend(sys.ring[1..], HandleToken(sys.ring[0], sys.token, queue, w).m);
  }

  lemma OtherId(sys: System, i: nat)
    requires 0 < i < |sys.ring| && TokenAru.Inv(AruView(sys), true)
    ensures sys.ring[i].d.id != sys.ring[0].d.id
  {
    assert AruView(sys).members[0].id != AruView(sys).members[i].id;
  }

  lemma SendInWindow(sys: System, queue: seq<Payload>, w: Windows, maxAllowed: nat)
    requires |sys.ring| > 0 && InWindow(sys, maxAllowed)
    requires w.window <= maxAllowed || w.personal <= maxAllowed
    requires sys.ring[0].d.highest <= sys.token.seqNo
    ensures var v := HandleToken(sys.ring[0], sys.token, queue, w);
            v.t.seqNo <= sys.ring[0].d.stable + MAX_SEQ_GAP + maxAllowed
  {}

  /** A member changes without touching its marks on the token. */
  lemma MemberStepInv(sys: System, i: nat, m: Member, maxAllowed: nat)
    requires Inv(sys, maxAllowed) && i < |sys.ring|
    requires MemberGood(m, sys.sent)
    requires m.d.id == sys.ring[i].d.id && m.d.stable == sys.ring[i].d.stable
    requires m.d.received >= sys.ring[i].d.received && m.lastAru == sys.ring[i].lastAru
    requires m.retrans == sys.ring[i].retrans && m.numSent == sys.ring[i].numSent
    ensures Inv(sys.(ring := sys.ring[i := m]), maxAllowed)
  {
    hide Good, MemberGood, TokenAru.Inv;
    var next := sys.(ring := sys.ring[i := m]);
    assert AruView(next) == TokenAru.Grow(AruView(sys), i, m.d.received);
    TokenAru.GrowInv(AruView(sys), i, m.d.received, true);
    FlowSumUpdate(sys.ring, i, m);
  }

  lemma CollectOne(old_: Daemon, d: Daemon, sent: seq<Packet>, p: Packet)
    requires OnlyCollects(old_, d) && !d.evs
    requires Good(d, sent) && 1 <= p.seqNo <= |sent|
    ensures OnlyCollects(old_, HandleBcast(d, p))
  {}

  lemma HeldKept(d: Daemon, e: Daemon, sent: seq<Packet>)
    requires HoldsOwn(d, sent) && Good(e, sent)
    requires e.id == d.id && e.discarded == d.discarded && d.packets.Keys <= e.packets.Keys
    ensures HoldsOwn(e, sent)
  {
    hide LogExact, LogOrdered, DeliveryMarks;
    forall s | 1 <= s <= |sent| && At(sent, s).sender == e.id ensures Held(e, s) {
      assert Held(d, s);
    }
  }

  lemma ReceiveGood(m: Member, sent: seq<Packet>, s: int)
    requires MemberGood(m, sent) && Numbered(sent) && 1 <= s <= |sent|
    ensures var d := HandleBcast(m.d, At(sent, s));
            && MemberGood(m.(d := d), sent)
            && d.id == m.d.id && d.stable == m.d.stable && d.received >= m.d.received
  {
    hide Good;
    HandleBcastGood(m.d, sent, At(sent, s));
    HeldKept(m.d, HandleBcast(m.d, At(sent, s)), sent);
    if m.snapshot.Some? {
      CollectOne(m.snapshot.value, m.d, sent, At(sent, s));
    }
  }

  /** Nothing is delivered to the sessions of a frozen daemon. */
  lemma BlockedDelivers(d: Daemon, start: int, num: int)
    requires d.threshold == BLOCK_REGULAR_DELIVERY
    ensures DeliverAgreed(d) == d && DeliverReliable(d, start, num) == d
  {}

  lemma DeliverEventGood(m: Member, sent: seq<Packet>, d: Daemon)
    requires MemberGood(m, sent) && Numbered(sent)
    requires d == DeliverAgreed(m.d) || d == DeliverReliable(m.d, 1, m.d.highest)
    ensures MemberGood(m.(d := d), sent)
    ensures d.id == m.d.id && d.stable == m.d.stable && d.received == m.d.received
  {
    hide Good, DeliverAgreed, DeliverReliable;
    DeliverAgreedGood(m.d, sent);
    DeliverReliableGood(m.d, sent, 1, m.d.highest);
    HeldKept(m.d, d, sent);
    if m.snapshot.Some? {
      BlockedDelivers(m.d, 1, m.d.highest);
    }
  }

  lemma FreezeGood(m: Member, sent: seq<Packet>)
    requires MemberGood(m, sent) && m.snapshot.None?
    ensures var d := m.d.(threshold := BLOCK_REGULAR_DELIVERY);
            MemberGood(m.(d := d, snapshot := Some(d)), sent)
  {
    hide Good;
    ThresholdGood(m.d, sent, BLOCK_REGULAR_DELIVERY);
    HeldKept(m.d, m.d.(threshold := BLOCK_REGULAR_DELIVERY), sent);
  }

  /** Every step that any daemon or the network can take keeps the invariant. */
  lemma NextInv(sys: System, step: Step, maxAllowed: nat)
    requires Inv(sys, maxAllowed) && Enabled(sys, step, maxAllowed)
    ensures Inv(Next(sys, step, maxAllowed), maxAllowed)
  {
    hide Good, MemberGood, HandleBcast, DeliverAgreed, DeliverReliable;
    match step
    case Receive(i, s) =>
      ReceiveGood(sys.ring[i], sys.sent, s);
      MemberStepInv(sys, i, sys.ring[i].(d := HandleBcast(sys.ring[i].d, At(sys.sent, s))), maxAllowed);
    case PassToken(queue, w) =>
      PassTokenInv(sys, queue, w, maxAllowed);
    case DropRequests =>
      assert AruView(Next(sys, step, maxAllowed)) == AruView(sys);
    case SetThreshold(i, th) =>
      SetThresholdGood(sys.ring[i], sys.sent, th);
      MemberStepInv(sys, i, sys.ring[i].(d := sys.ring[i].d.(threshold := th)), maxAllowed);
    case AgreedEvent(i) =>
      DeliverEventGood(sys.ring[i], sys.sent, DeliverAgreed(sys.ring[i].d));
      MemberStepInv(sys, i, sys.ring[i].(d := DeliverAgreed(sys.ring[i].d)), maxAllowed);
    case ReliableEvent(i) =>
      var d := DeliverReliable(sys.ring[i].d, 1, sys.ring[i].d.highest);
      DeliverEventGood(sys.ring[i], sys.sent, d);
      MemberStepInv(sys, i, sys.ring[i].(d := d), maxAllowed);
    case Freeze(i) =>
      FreezeGood(sys.ring[i], sys.sent);
      var d := sys.ring[i].d.(threshold := BLOCK_REGULAR_DELIVERY);
      MemberStepInv(sys, i, sys.ring[i].(d := d, snapshot := Some(d)), maxAllowed);
  }

  lemma SetThresholdGood(m: Member, sent: seq<Packet>, th: nat)
    requires MemberGood(m, sent) && m.snapshot.None?
    ensures MemberGood(m.(d := m.d.(threshold := th)), sent)
  {
    hide Good;
    ThresholdGood(m.d, sent, th);
    HeldKept(m.d, m.d.(threshold := th), sent);
  }

  lemma {:induction false} RunInv(sys: System, steps: seq<Step>, maxAllowed: nat)
    requires Inv(sys, maxAllowed) && ValidRun(sys, steps, maxAllowed)
    ensures Inv(Run(sys, steps, maxAllowed), maxAllowed)
    decreases |steps|
  {
    hide Inv, Next, Enabled;
    if steps != [] {
      NextInv(sys, steps[0], maxAllowed);
      RunInv(Next(sys, steps[0], maxAllowed), steps[1..], maxAllowed);
    }
  }

  /** The requests are the first missing numbers, in order, and leave one out only for lack of room. */
  lemma {:induction false} MissingFirst(packets: map<int, Slot>, from: int, limit: int, room: nat)
    ensures var ms := Missing(packets, from, limit, room);
            && |ms| <= room
            && (forall i, j :: 0 <= i < j < |ms| ==> ms[i] < ms[j])
            && (forall s :: from < s <= limit && s !in packets && s !in ms ==> |ms| == room && forall r :: r in ms ==> r < s)
    decreases limit - from
  {
    if from < limit && room > 0 {
      var more := if from + 1 in packets then room else room - 1;
      MissingFirst(packets, from + 1, limit, more);
      var rest := Missing(packets, from + 1, limit, more);
      if from + 1 !in packets {
        assert Missing(packets, from, limit, room) == [from + 1] + rest;
        hide Missing;
        LowestFirst(packets, from, limit, room, rest);
      }
    }
  }

  lemma LowestFirst(packets: map<int, Slot>, from: int, limit: int, room: nat, rest: seq<int>)
    requires room > 0 && |rest| <= room - 1 && (forall i, j :: 0 <= i < j < |rest| ==> rest[i] < rest[j])
    requires forall r :: r in rest ==> from + 1 < r
    requires forall s :: from + 1 < s <= limit && s !in packets && s !in rest ==> |rest| == room - 1 && forall r :: r in rest ==> r < s
    ensures var ms := [from + 1] + rest;
            && (forall i, j :: 0 <= i < j < |ms| ==> ms[i] < ms[j])
            && (forall s :: from < s <= limit && s !in packets && s !in ms ==> |ms| == room && forall r :: r in ms ==> r < s)
  {
    var ms := [from + 1] + rest;
    assert forall i :: 0 <= i < |rest| ==> rest[i] in rest;
    forall s | from < s <= limit && s !in packets && s !in ms ensures |ms| == room && forall r :: r in ms ==> r < s {
      assert ms[0] in ms;
      assert forall r :: r in rest ==> r in ms;
    }
  }

  /** The highest number the holder asks for: in an accelerated ring, packets numbered after its own last token may
      still be on their way. */
  function RequestLimit(m: Member, t: Token, w: Windows): int {
    if w.accelerated then m.lastSeq else Max(m.d.highest, t.seqNo)
  }

  /** A request that the holder cannot answer is the holder's own request as well, so it stays on the token
      unless lower ones fill it or it is above the holder's limit; nothing above the limit is requested. */
  lemma RequestsPassedOn(m: Member, t: Token, queue: seq<Payload>, w: Windows, sent: seq<Packet>, r: int)
    requires MemberGood(m, sent)
    requires r in t.requests && m.d.stable < r <= Max(m.d.highest, t.seqNo) && r !in m.d.packets
    ensures var requests := HandleToken(m, t, queue, w).t.requests;
            if r <= RequestLimit(m, t, w)
            then r in requests || (|requests| == MAX_REQUESTS && forall x :: x in requests ==> x < r)
            else r !in requests
  {
    hide LogExact, LogOrdered, HoldsOwn, OnlyCollects, DeliverReliable, DeliverAgreed, Discard, Answered, Missing;
    var ps := Number(m.d.id, Max(m.d.highest, t.seqNo), queue[..SendCount(m, t, w, |queue|)]);
    var e := Extend(m.d, t, ps);
    assert r !in e.packets;
    MissingFirst(e.packets, e.received, if w.accelerated then m.lastSeq else e.highest, MAX_REQUESTS);
  }

  // ---- What a visit sends and delivers ----

  /** What the holder sends: the front of its queue, numbered on from the highest number it knows, as many packets as both
      windows and the queue leave room for, and nothing when the ring is further ahead than the gap limit. */
  lemma HolderSends(m: Member, t: Token, queue: seq<Payload>, w: Windows, n: nat)
    requires !m.d.evs
    ensures var sent, h := HandleToken(m, t, queue, w).sent, Max(m.d.highest, t.seqNo);
            && |sent| <= |queue|
            && (forall i :: 0 <= i < |sent| ==>
                  sent[i] == Packet(h + 1 + i, m.d.id, queue[i].service, queue[i].first, queue[i].rest))
            && (|sent| > 0 ==> h <= m.d.stable + MAX_SEQ_GAP && |sent| <= w.window && |sent| <= w.personal
                               && t.flow + |sent| <= w.window + w.personal)
            && (n <= |queue| && h <= m.d.stable + MAX_SEQ_GAP && n <= w.window && n <= w.personal && t.flow + n <= w.window + w.personal
                ==> n <= |sent|)
  {
    if Max(m.d.highest, t.seqNo) <= m.d.stable + MAX_SEQ_GAP && n <= w.window && n <= w.personal
       && t.flow + n <= w.window + w.personal {
      LargestAllowance(w, t.flow, Max(m.d.highest, t.seqNo), m.d.stable, n);
    }
  }

  /** After its visit the holder has delivered everything up to its new stable mark, all that agreed delivery can
      deliver, and its own new floating packets. */
  lemma VisitDelivers(m: Member, sent: seq<Packet>, t: Token, queue: seq<Payload>, w: Windows)
    requires HolderReady(m, sent, t)
    requires var v := HandleToken(m, t, queue, w);
             m.d.stable <= TokenAru.StableMark(v.t.aru, m.lastAru) <= Extend(m.d, t, v.sent).received
    ensures var v := HandleToken(m, t, queue, w);
            && CaughtUp(v.m.d)
            && (forall s :: 1 <= s <= v.m.d.stable ==> s <= |sent + v.sent| && Message(At(sent + v.sent, s)) in v.m.d.log)
            && (m.d.threshold <= ServiceBit(Reliable) ==>
                  forall i :: 0 <= i < |v.sent| && IsFloating(v.sent[i]) ==> Message(v.sent[i]) in v.m.d.log)
  {
    hide Good, Extend, HandleToken, HoldsOwn, OnlyCollects, Discard, DeliverAgreed, DeliverReliable, CaughtUp, Numbered, IsFloating,
      TokenAru.StableMark;
    var v := HandleToken(m, t, queue, w);
    var all := sent + v.sent;
    HandleTokenGood(m, sent, t, queue, w);
    VisitSettles(m, sent, t, queue, w);
    var e, stable := Extend(m.d, t, v.sent), v.m.d.stable;
    SettleCatchesUp(e, all, stable, t.seqNo + 1, |v.sent|);
    StableDelivered(v.m.d, all);
    forall i | 0 <= i < |v.sent| && IsFloating(v.sent[i]) && m.d.threshold <= ServiceBit(Reliable)
      ensures Message(v.sent[i]) in v.m.d.log
    {
      assert At(all, t.seqNo + 1 + i) == v.sent[i];
      assert t.seqNo + 1 + i in e.packets;
      SettlePasses(e, all, stable, t.seqNo + 1, |v.sent|, t.seqNo + 1 + i);
    }
  }

  /** The visit's deliveries, seen from the daemon with its new packets. */
  lemma VisitSettles(m: Member, sent: seq<Packet>, t: Token, queue: seq<Payload>, w: Windows)
    requires HolderReady(m, sent, t)
    requires var v := HandleToken(m, t, queue, w);
             m.d.stable <= TokenAru.StableMark(v.t.aru, m.lastAru) <= Extend(m.d, t, v.sent).received
    ensures var v := HandleToken(m, t, queue, w);
            var e, stable := Extend(m.d, t, v.sent), TokenAru.StableMark(v.t.aru, m.lastAru);
            && Good(e, sent + v.sent) && Numbered(sent + v.sent) && e.stable == e.discarded <= stable <= e.received
            && e.evs == m.d.evs && e.threshold == m.d.threshold
            && (forall s :: |sent| < s <= |sent + v.sent| ==> s in e.packets)
            && v.m.d == DeliverReliable(DeliverAgreed(Discard(e.(stable := stable))), t.seqNo + 1, |v.sent|)
  {
    var v := HandleToken(m, t, queue, w);
    var stable := TokenAru.StableMark(v.t.aru, m.lastAru);
    hide Good, TokenAlarm, Extend, Discard, DeliverAgreed, DeliverReliable, Numbered, HoldsOwn, OnlyCollects, Missing, Answered, SendCount,
      TokenAru.NextAru, TokenAru.NextLastId, TokenAru.StableMark;
    HighestKnown(m.d, sent);
    ExtendGood(m.d, sent, t, v.sent);
    NoTokenAlarm(m, sent, t, v.sent, stable);
    NotAlarmed(Extend(m.d, t, v.sent), sent + v.sent);
  }

  lemma NotAlarmed(d: Daemon, sent: seq<Packet>)
    requires Good(d, sent)
    ensures !d.alarm
  {}

  lemma StableDelivered(d: Daemon, sent: seq<Packet>)
    requires Good(d, sent) && d.stable == d.discarded
    ensures forall s :: 1 <= s <= d.stable ==> s <= |sent| && Message(At(sent, s)) in d.log
  {
    hide LogOrdered, Table, DeliveryMarks;
  }

  lemma SettleCatchesUp(e: Daemon, sent: seq<Packet>, stable: int, start: int, num: int)
    requires Good(e, sent) && Numbered(sent) && e.stable == e.discarded <= stable <= e.received
    ensures CaughtUp(DeliverReliable(DeliverAgreed(Discard(e.(stable := stable))), start, num))
  {
    GoodStable(e, sent, stable);
    DiscardLoopGood(e.(stable := stable), sent, stable);
    var d := Discard(e.(stable := stable));
    hide Good, Discard, DeliverAgreed, DeliverReliable, CaughtUp;
    AgreedCatchesUp(d, sent);
    ReliableKeepsUp(DeliverAgreed(d), start, num);
  }

  lemma SettlePasses(e: Daemon, sent: seq<Packet>, stable: int, start: int, num: int, s: int)
    requires Good(e, sent) && Numbered(sent) && e.stable == e.discarded <= stable <= e.received
    requires !e.evs && e.threshold <= ServiceBit(Reliable) && start <= s < start + num
    requires s in e.packets && 1 <= s <= |sent| && IsFloating(At(sent, s))
    ensures Message(At(sent, s)) in DeliverReliable(DeliverAgreed(Discard(e.(stable := stable))), start, num).log
  {
    GoodStable(e, sent, stable);
    DiscardLoopGood(e.(stable := stable), sent, stable);
    var d := Discard(e.(stable := stable));
    SettleGood(e, sent, stable, start, num);
    DeliverAgreedGood(d, sent);
    var f := DeliverAgreed(d);
    var g := DeliverReliable(f, start, num);
    hide Discard, DeliverAgreed, DeliverReliable, IsFloating, LogOrdered, DeliveryMarks, Good;
    if s <= stable {
      StableDelivered(g, sent);
    } else {
      PacketIs(f, sent, s);
      ReliableDelivers(f, sent, start, num, s);
    }
  }

  lemma PacketIs(d: Daemon, sent: seq<Packet>, s: int)
    requires Good(d, sent) && s in d.packets && 1 <= s <= |sent|
    ensures d.packets[s].p == At(sent, s)
  {}

  /** What the holder remembers of its visit, on which its next one rests: the marks of its own last token, how many packets
      it sent and how many of the requests it could answer. */
  lemma VisitRemembers(m: Member, t: Token, queue: seq<Payload>, w: Windows)
    ensures var v := HandleToken(m, t, queue, w);
            && v.m.lastAru == v.t.aru && v.m.lastSeq == v.t.seqNo == Max(m.d.highest, t.seqNo) + |v.sent| && v.m.numSent == |v.sent|
            && v.m.retrans == |set i | 0 <= i < |t.requests| && t.requests[i] in m.d.packets|
            && v.t.flow == t.flow - m.retrans - m.numSent + v.m.retrans + v.m.numSent
  {
    AnsweredIs(m.d.packets, t.requests);
    hide Discard, DeliverAgreed, DeliverReliable, Missing, Answered, TokenAlarm;
  }

  lemma {:induction false} AnsweredIs(packets: map<int, Slot>, requests: seq<int>)
    ensures Answered(packets, requests) == |set i | 0 <= i < |requests| && requests[i] in packets|
  {
    var all := set i | 0 <= i < |requests| && requests[i] in packets;
    if |requests| == 0 {
      assert forall i :: i in all ==> 0 <= i < 0;
      assert all == {};
    } else {
      var n := |requests| - 1;
      var init := requests[..n];
      AnsweredIs(packets, init);
      AnsweredSnoc(packets, init, requests[n]);
      assert requests == init + [requests[n]];
      var before := set i | 0 <= i < |init| && init[i] in packets;
      assert all == before + if requests[n] in packets then {n} else {};
    }
  }

  lemma {:induction false} AnsweredSnoc(packets: map<int, Slot>, requests: seq<int>, r: int)
    ensures Answered(packets, requests + [r]) == Answered(packets, requests) + if r in packets then 1 else 0
  {
    if requests == [] {
      assert [] + [r] == [r] && [r][1..] == [];
    } else {
      assert (requests + [r])[1..] == requests[1..] + [r];
      AnsweredSnoc(packets, requests[1..], r);
    }
  }
}
