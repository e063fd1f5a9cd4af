/** What SAFE means for messages: a daemon gets one only when every daemon of the ring has all of its fragments. */
module SafeMessages {
  import opened SpreadTypes
  import opened Delivery
  import opened Packing
  import opened Reassembly
  import RingSystem
  import RingTheorems
  import Formations

  /** Message k of the queue may travel in a packet of that service. */
  predicate Rides(queued: seq<Msg>, k: nat, service: Service) {
    k < |queued| && TravelsIn(queued[k].service, service)
  }

  /** Packet j of a sender completes only messages that may travel in it. */
  ghost predicate Carries(packets: seq<Packet>, queued: seq<Msg>, j: nat)
    requires j < |packets|
  {
    forall k: nat :: |Rebuilt(packets[..j])| <= k < |Rebuilt(packets[..j + 1])| ==> Rides(queued, k, packets[j].service)
  }

  ghost predicate AllCarry(packets: seq<Packet>, queued: seq<Msg>) {
    forall j: nat :: j < |packets| ==> Carries(packets, queued, j)
  }

  /** In every run of a sender: the messages that are not complete yet are the ones in the queue, and each complete one
      left in a packet that its service may travel in. */
  lemma {:induction false} SentServices(id: int, steps: seq<Step>, s: Sender)
    requires SenderRun(id, steps, s)
    ensures |Rebuilt(s.packets)| <= |s.queued| && s.queued[|Rebuilt(s.packets)|..] == s.q.messages
    ensures AllCarry(s.packets, s.queued)
    decreases |steps|
  {
    hide AllCarry, NextPacket, Rebuilt, Proper, Valid;
    if steps == [] {
      NothingCarried();
    } else {
      var init, step := steps[..|steps| - 1], steps[|steps| - 1];
      match step {
        case Enqueue(m) =>
          var before :| SenderRun(id, init, before) && Valid(before.q) && Proper(m.elements)
            && s == Sender(before.q.(messages := before.q.messages + [m]), before.packets, before.queued + [m]);
          hide *;
          SentServices(id, init, before);
          CarryMore(before.packets, before.queued, m);
        case Send(seqNo) =>
          var before :| SenderRun(id, init, before) && Valid(before.q) && before.q.messages != []
            && s == Sender(NextPacket(before.q, seqNo, id).1, before.packets + [NextPacket(before.q, seqNo, id).0], before.queued);
          hide *;
          SentServices(id, init, before);
          SenderRebuilds(id, init, before);
          CarryOne(before, seqNo, id);
      }
    }
  }

  lemma NothingCarried()
    ensures AllCarry([], []) && Rebuilt([]) == []
  {}

  lemma CarryMore(packets: seq<Packet>, queued: seq<Msg>, m: Msg)
    requires AllCarry(packets, queued)
    ensures AllCarry(packets, queued + [m])
  {
    hide Rebuilt, TravelsIn;
    forall j: nat | j < |packets| ensures Carries(packets, queued + [m], j) {
      assert Carries(packets, queued, j);
      forall k: nat | |Rebuilt(packets[..j])| <= k < |Rebuilt(packets[..j + 1])| ensures Rides(queued + [m], k, packets[j].service) {
        assert Rides(queued, k, packets[j].service);
      }
    }
  }

  lemma CarryOne(before: Sender, seqNo: int, id: int)
    requires Valid(before.q) && before.q.messages != [] && AllCarry(before.packets, before.queued)
    requires |Rebuilt(before.packets)| <= |before.queued| && before.queued[|Rebuilt(before.packets)|..] == before.q.messages
    requires PartOf(before.packets) == Started(before.q)
    ensures var (p, after) := NextPacket(before.q, seqNo, id); var ps := before.packets + [p];
            && AllCarry(ps, before.queued)
            && |Rebuilt(ps)| <= |before.queued| && before.queued[|Rebuilt(ps)|..] == after.messages
  {
    var (p, after) := NextPacket(before.q, seqNo, id);
    CompletesAsMany(before, seqNo, id);
    PacketContinues(before.q, seqNo, id);
    hide *;
    var from, upTo := |Rebuilt(before.packets)|, |Rebuilt(before.packets + [p])|;
    LastCarries(before, p, after, from, upTo);
    CarryLast(before.packets, before.queued, p);
    SuffixOfSuffix(before.queued, from, |before.q.messages| - |after.messages|);
  }

  lemma SuffixOfSuffix<T>(a: seq<T>, m: nat, n: nat)
    requires m + n <= |a|
    ensures a[m..][n..] == a[m + n..]
  {}

  /** As many messages are completed as leave the queue. */
  lemma CompletesAsMany(before: Sender, seqNo: int, id: int)
    requires Valid(before.q) && before.q.messages != [] && PartOf(before.packets) == Started(before.q)
    ensures var (p, after) := NextPacket(before.q, seqNo, id);
            && |after.messages| <= |before.q.messages|
            && |Rebuilt(before.packets + [p])| == |Rebuilt(before.packets)| + |before.q.messages| - |after.messages|
  {
    var (p, after) := NextPacket(before.q, seqNo, id);
    PacketContinues(before.q, seqNo, id);
    hide *;
    ElementsLength(before.q.messages);
    ElementsLength(after.messages);
    RebuiltSnoc(before.packets, p);
  }

  lemma CarryLast(packets: seq<Packet>, queued: seq<Msg>, p: Packet)
    requires AllCarry(packets, queued)
    requires forall k: nat :: |Rebuilt(packets)| <= k < |Rebuilt(packets + [p])| ==> Rides(queued, k, p.service)
    ensures AllCarry(packets + [p], queued)
  {
    hide Rebuilt, Rides;
    var ps := packets + [p];
    forall j: nat | j < |ps| ensures Carries(ps, queued, j) {
      if j < |packets| {
        assert ps[..j] == packets[..j] && ps[..j + 1] == packets[..j + 1];
        assert Carries(packets, queued, j) && ps[j] == packets[j];
      } else {
        assert ps[..j] == packets && ps[..j + 1] == ps && ps[j] == p;
      }
    }
  }

  lemma LastCarries(before: Sender, p: Packet, after: Queue, from: nat, upTo: nat)
    requires from <= |before.queued| && before.queued[from..] == before.q.messages
    requires |after.messages| <= |before.q.messages| && upTo == from + |before.q.messages| - |after.messages|
    requires forall k :: 0 <= k < |before.q.messages| - |after.messages| ==> TravelsIn(before.q.messages[k].service, p.service)
    ensures forall k: nat :: from <= k < upTo ==> Rides(before.queued, k, p.service)
  {
    forall k: nat | from <= k < upTo ensures Rides(before.queued, k, p.service) {
      assert before.queued[k] == before.q.messages[k - from];
    }
  }

  lemma {:induction false} ElementsLength(ms: seq<Msg>)
    ensures |Elements(ms)| == |ms|
    ensures forall k :: 0 <= k < |ms| ==> Elements(ms)[k] == ms[k].elements
  {
    if ms != [] {
      ElementsLength(ms[1..]);
      forall k | 0 <= k < |ms| ensures Elements(ms)[k] == ms[k].elements {
        assert k > 0 ==> ms[k] == ms[1..][k - 1];
      }
    }
  }

  /** Packet n of the ring completes message k of its sender's queue. */
  ghost predicate Completes(sent: seq<Packet>, n: int, k: nat)
    requires 1 <= n <= |sent|
  {
    var id := At(sent, n).sender;
    |Rebuilt(OfSender(sent[..n - 1], id))| <= k < |Rebuilt(OfSender(sent[..n], id))|
  }

  /** The packet that completes a message yields exactly it, and may carry its service: a SAFE message is completed by a
      SAFE packet. */
  lemma CompletedMessage(sent: seq<Packet>, n: int, k: nat, steps: seq<Step>, s: Sender)
    requires 1 <= n <= |sent| && Completes(sent, n, k)
    requires SenderRun(At(sent, n).sender, steps, s) && s.packets == OfSender(sent, At(sent, n).sender)
    ensures k < |s.queued| && TravelsIn(s.queued[k].service, At(sent, n).service)
    ensures s.queued[k].elements in CompletedBy(sent, n)
  {
    hide OfSender, Rebuilt, TravelsIn, SenderRun, Elements, CompletedBy, AllCarry, PartAt, InSequence, Valid, Started, PartOf, NextPart;
    var id, p := At(sent, n).sender, At(sent, n);
    var before := OfSender(sent[..n - 1], id);
    PartAtNext(sent, id, n - 1);
    OfSenderPrefix(sent, id, n);
    SentServices(id, steps, s);
    SenderRebuilds(id, steps, s);
    RebuiltNext(sent, id, n);
    assert OfSender(sent[..n], id) == before + [p];
    CarriedIn(s.packets, s.queued, before, p, k);
    WholeIn(s.packets, s.queued, s.q.messages, before, p, CompletedBy(sent, n), k);
  }

  lemma CarriedIn(packets: seq<Packet>, queued: seq<Msg>, before: seq<Packet>, p: Packet, k: nat)
    requires AllCarry(packets, queued) && before + [p] <= packets
    requires |Rebuilt(before)| <= k < |Rebuilt(before + [p])|
    ensures Rides(queued, k, p.service)
  {
    hide Rebuilt, Rides;
    var j := |before|;
    assert packets[..j] == before && packets[..j + 1] == before + [p] && packets[j] == p;
    assert Carries(packets, queued, j);
  }

  lemma WholeIn(packets: seq<Packet>, queued: seq<Msg>, rest: seq<Msg>, before: seq<Packet>, p: Packet,
                completed: seq<seq<seq<byte>>>, k: nat)
    requires before + [p] <= packets && Rebuilt(packets) + Elements(rest) == Elements(queued) && k < |queued|
    requires Rebuilt(before + [p]) == Rebuilt(before) + completed && |Rebuilt(before)| <= k < |Rebuilt(before + [p])|
    ensures queued[k].elements in completed
  {
    RebuiltPrefix(before + [p], packets);
    ElementsLength(queued);
    hide Rebuilt, Elements;
    assert Rebuilt(before + [p])[k] == Rebuilt(packets)[k] == Elements(queued)[k];
    assert completed[k - |Rebuilt(before)|] == Rebuilt(before + [p])[k];
  }

  /** In every run of the ring: when a daemon gets a SAFE message, every daemon has received all packets up to the one that
      completes it, and so all of its fragments. */
  lemma SafeMessageEverywhere(sys: RingSystem.System, maxAllowed: nat, i: nat, j: nat, n: int, k: nat, steps: seq<Step>, s: Sender)
    requires RingTheorems.Reachable(sys, maxAllowed) && i < |sys.ring| && j < |sys.ring|
    requires 1 <= n <= |sys.sent| && Message(At(sys.sent, n)) in sys.ring[i].d.log && Completes(sys.sent, n, k)
    requires SenderRun(At(sys.sent, n).sender, steps, s) && s.packets == OfSender(sys.sent, At(sys.sent, n).sender)
    ensures k < |s.queued| && s.queued[k].elements in CompletedBy(sys.sent, n)
    ensures s.queued[k].service == Safe ==> forall t :: 1 <= t <= n ==> Held(sys.ring[j].d, t)
  {
    CompletedMessage(sys.sent, n, k, steps, s);
    CompatibleTravels(s.queued[k].service, At(sys.sent, n).service);
    RingTheorems.ReachableInv(sys, maxAllowed);
    hide RingTheorems.Reachable, SenderRun, OfSender, TravelsIn, Completes, CompletedBy;
    if s.queued[k].service == Safe {
      RingTheorems.SafeMeansEverywhere(sys, maxAllowed, i, j, At(sys.sent, n));
      RingTheorems.MarksOf(sys, maxAllowed, j, j);
      hide RingSystem.Inv, RingSystem.MemberGood;
      ReceivedIsHeld(sys.ring[j].d, sys.sent, n);
    }
  }

  lemma ReceivedIsHeld(d: Daemon, sent: seq<Packet>, n: int)
    requires Good(d, sent) && Numbered(sent) && 1 <= n <= |sent| && At(sent, n).seqNo <= d.received
    ensures forall t :: 1 <= t <= n ==> Held(d, t)
  {
    hide LogExact, LogOrdered, DeliveryMarks;
  }

  /** The same of every member of an old ring, whether it comes along or not, and of every attempt to form a new one. */
  lemma SafeMessageBeforeSignal(w: Formations.World, base: RingSystem.System, maxAllowed: nat, i: nat, j: nat, n: int, k: nat,
                                steps: seq<Step>, s: Sender)
    requires Formations.Reachable(w, base, maxAllowed) && i < |w.members| && j < |base.ring|
    requires !w.members[i].phase.Operating? && !w.members[i].phase.Dead?
    requires 1 <= n <= |w.sent| && Message(At(w.sent, n)) in w.members[i].d.log && Completes(w.sent, n, k)
    requires SenderRun(At(w.sent, n).sender, steps, s) && s.packets == OfSender(w.sent, At(w.sent, n).sender)
    ensures k < |s.queued| && s.queued[k].elements in CompletedBy(w.sent, n)
    ensures s.queued[k].service == Safe ==> forall t :: 1 <= t <= n ==> Held(base.ring[j].d, t)
  {
    CompletedMessage(w.sent, n, k, steps, s);
    CompatibleTravels(s.queued[k].service, At(w.sent, n).service);
    hide Formations.Reachable, SenderRun, OfSender, TravelsIn, Completes, CompletedBy;
    if s.queued[k].service == Safe {
      Formations.SafeMeansEverywhere(w, base, maxAllowed, i, At(w.sent, n), j);
      BaseHolds(w, base, maxAllowed, j, n);
    }
  }

  lemma BaseHolds(w: Formations.World, base: RingSystem.System, maxAllowed: nat, j: nat, n: int)
    requires Formations.Reachable(w, base, maxAllowed) && j < |base.ring|
    requires 1 <= n <= |w.sent| && At(w.sent, n).seqNo <= base.ring[j].d.received
    ensures forall t :: 1 <= t <= n ==> Held(base.ring[j].d, t)
  {
    var x := Formations.ReachableInv(w, base, maxAllowed);
    RingTheorems.ReachableInv(base, maxAllowed);
    RingTheorems.MarksOf(base, maxAllowed, j, j);
    hide Formations.Reachable, Formations.MemberInv, Formations.EntryInv, RingTheorems.Reachable, RingSystem.MemberGood, Formations.Floor;
    ReceivedIsHeld(base.ring[j].d, base.sent, n);
  }
}
