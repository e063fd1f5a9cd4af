/** How queued messages become packets.

A message is a list of fragments of which all but the last fill a packet body.  A packet starts with
the next fragment of the message at the head of the queue; behind it go as many further fragments as
fit and have a compatible service.  Because of the fragments' sizes those turn out to be whole
messages, which is what the receiving side counts on. */
module Packing {
  import opened SpreadTypes

  const BODY_SIZE := 1432
  const FRAGMENT_HEADER := 4
  const MAX_ELEMENTS := 100

  datatype Msg = Msg(service: Service, elements: seq<seq<byte>>)

  /** All elements but the last are full. */
  ghost predicate Proper(elements: seq<seq<byte>>) {
    && 1 <= |elements| <= MAX_ELEMENTS
    && (forall k :: 0 <= k < |elements| - 1 ==> |elements[k]| == BODY_SIZE)
    && |elements[|elements| - 1]| <= BODY_SIZE
  }

  /** The down queue: the messages not sent completely and how far the first one is. */
  datatype Queue = Queue(messages: seq<Msg>, cur: nat)

  ghost predicate Valid(q: Queue) {
    && (forall k :: 0 <= k < |q.messages| ==> Proper(q.messages[k].elements))
    && (if q.messages == [] then q.cur == 0 else q.cur < |q.messages[0].elements|)
  }

  function NextElement(q: Queue): seq<byte>
    requires q.messages != [] && q.cur < |q.messages[0].elements|
  {
    q.messages[0].elements[q.cur]
  }

  /** Takes the next fragment off the queue. */
  function Take(q: Queue): (r: (Fragment, Queue))
    requires q.messages != [] && q.cur < |q.messages[0].elements|
    ensures Valid(q) ==> Valid(r.1)
  {
    var m := q.messages[0];
    if q.cur + 1 < |m.elements| then (Fragment(q.cur + 1, m.elements[q.cur]), Queue(q.messages, q.cur + 1))
    else (Fragment(-|m.elements|, m.elements[q.cur]), Queue(q.messages[1..], 0))
  }

  function Padding(n: nat): (pad: nat)
    ensures pad < 4 && (n + pad) % 4 == 0
  {
    if n % 4 == 0 then 0 else 4 - n % 4
  }

  /** A message may share a packet of its own service, and FIFO and AGREED messages each other's. */
  predicate Compatible(packet: Service, message: Service) {
    packet == message || (packet in {Fifo, Agreed} && message in {Fifo, Agreed})
  }

  predicate CanAdd(q: Queue, service: Service, length: nat)
    requires q.messages != [] ==> q.cur < |q.messages[0].elements|
  {
    && q.messages != []
    && |NextElement(q)| <= BODY_SIZE - length - Padding(length) - FRAGMENT_HEADER
    && Compatible(service, q.messages[0].service)
  }

  /** The fragments added behind the first, given how long the packet is already. */
  function Fill(q: Queue, service: Service, length: nat): (seq<Fragment>, Queue)
    requires Valid(q)
    decreases BODY_SIZE - length
  {
    if !CanAdd(q, service, length) then ([], q)
    else
      var (fragment, q1) := Take(q);
      var (more, q2) := Fill(q1, service, length + Padding(length) + FRAGMENT_HEADER + |fragment.data|);
      ([fragment] + more, q2)
  }

  function NextPacket(q: Queue, seqNo: int, sender: int): (Packet, Queue)
    requires Valid(q) && q.messages != []
  {
    var (first, q1) := Take(q);
    var (rest, q2) := Fill(q1, q.messages[0].service, |first.data|);
    (Packet(seqNo, sender, q.messages[0].service, first, rest), q2)
  }

  // ---- What a packet completes ----

  /** The messages that end in the packet: that of the first fragment, given what came before, and
      the ones behind it. */
  function Singles(rest: seq<Fragment>): seq<seq<seq<byte>>> {
    if rest == [] then [] else [[rest[0].data]] + Singles(rest[1..])
  }

  function Elements(messages: seq<Msg>): seq<seq<seq<byte>>> {
    if messages == [] then [] else [messages[0].elements] + Elements(messages[1..])
  }

  lemma {:induction false} ElementsConcat(a: seq<Msg>, b: seq<Msg>)
    ensures Elements(a + b) == Elements(a) + Elements(b)
  {
    if a == [] {
      assert a + b == b;
    } else {
      assert (a + b)[1..] == a[1..] + b;
      ElementsConcat(a[1..], b);
    }
  }

  /** The part of the first message that is on its way. */
  function Started(q: Queue): seq<seq<byte>>
    requires q.messages == [] ==> q.cur == 0
    requires q.messages != [] ==> q.cur <= |q.messages[0].elements|
  {
    if q.messages == [] then [] else q.messages[0].elements[..q.cur]
  }

  /** The fragments are whole messages from the front of the queue, and `after` is the rest of it. */
  ghost predicate WholeMessages(q: Queue, service: Service, rest: seq<Fragment>, after: Queue) {
    && |rest| <= |q.messages| && after == Queue(q.messages[|rest|..], q.cur)
    && Singles(rest) == Elements(q.messages[..|rest|])
    && (forall k :: 0 <= k < |rest| ==> rest[k].index == -1 && Compatible(service, q.messages[k].service))
  }

  lemma NoMessage(q: Queue, service: Service)
    ensures WholeMessages(q, service, [], q)
  {
    assert q.messages[..0] == [] && q.messages[0..] == q.messages;
  }

  lemma OneMessage(q: Queue, service: Service, data: seq<byte>, more: seq<Fragment>, after: Queue)
    requires q.messages != [] && q.cur == 0 && q.messages[0].elements == [data] && Compatible(service, q.messages[0].service)
    requires WholeMessages(Queue(q.messages[1..], 0), service, more, after)
    ensures WholeMessages(q, service, [Fragment(-1, data)] + more, after)
  {
    var rest := [Fragment(-1, data)] + more;
    assert rest[1..] == more;
    assert q.messages[..|rest|] == [q.messages[0]] + q.messages[1..][..|more|];
    assert q.messages[|rest|..] == q.messages[1..][|more|..];
    hide Elements, Singles;
    TwoFronts(q.messages[0], q.messages[1..][..|more|], Fragment(-1, data), more);
    forall k | 0 <= k < |rest| ensures rest[k].index == -1 && Compatible(service, q.messages[k].service) {
      assert k > 0 ==> rest[k] == more[k - 1] && q.messages[k] == q.messages[1..][k - 1];
    }
  }

  lemma TwoFronts(m: Msg, ms: seq<Msg>, f: Fragment, fs: seq<Fragment>)
    ensures Elements([m] + ms) == [m.elements] + Elements(ms)
    ensures Singles([f] + fs) == [[f.data]] + Singles(fs)
  {
    assert ([m] + ms)[1..] == ms && ([f] + fs)[1..] == fs;
  }

  /** A message travels in a packet of its own service, or both services order messages without waiting for stability. */
  predicate TravelsIn(message: Service, packet: Service) {
    message == packet ||
    (ServiceBit(Reliable) < ServiceBit(message) < ServiceBit(Safe) && ServiceBit(Reliable) < ServiceBit(packet) < ServiceBit(Safe))
  }

  lemma CompatibleTravels(message: Service, packet: Service)
    ensures Compatible(packet, message) <==> TravelsIn(message, packet)
    ensures TravelsIn(message, packet) ==> (message == Safe <==> packet == Safe) && (message == Reliable <==> packet == Reliable)
  {}

  lemma AddedTravel(q: Queue, service: Service, rest: seq<Fragment>, after: Queue)
    requires WholeMessages(q, service, rest, after)
    ensures |rest| <= |q.messages| && forall k :: 0 <= k < |rest| ==> TravelsIn(q.messages[k].service, service)
  {
    forall k | 0 <= k < |rest| ensures TravelsIn(q.messages[k].service, service) {
      CompatibleTravels(q.messages[k].service, service);
    }
  }

  /** Only whole messages are added behind the first fragment: anything longer starts with a full
      fragment, and behind a fragment that is not its message's last there is no room. */
  lemma {:induction false} FillAddsWholeMessages(q: Queue, service: Service, length: nat)
    requires Valid(q) && (q.cur > 0 ==> length >= BODY_SIZE)
    ensures WholeMessages(q, service, Fill(q, service, length).0, Fill(q, service, length).1)
    ensures Valid(Fill(q, service, length).1)
    ensures var added := |Fill(q, service, length).0|;
            && added <= |q.messages|
            && forall k :: 0 <= k < added ==> TravelsIn(q.messages[k].service, service)
    decreases BODY_SIZE - length
  {
    hide WholeMessages;
    if CanAdd(q, service, length) {
      var data := q.messages[0].elements[0];
      assert q.messages[0].elements == [data];
      var next := length + Padding(length) + FRAGMENT_HEADER + |data|;
      var q1 := Queue(q.messages[1..], 0);
      assert Take(q) == (Fragment(-1, data), q1);
      FillAddsWholeMessages(q1, service, next);
      var (more, after) := Fill(q1, service, next);
      assert Fill(q, service, length) == ([Fragment(-1, data)] + more, after);
      hide Fill;
      OneMessage(q, service, data, more, after);
    } else {
      NoMessage(q, service);
    }
    AddedTravel(q, service, Fill(q, service, length).0, Fill(q, service, length).1);
  }

  // ---- What one sender's packets amount to ----

  /** The fragments of an unfinished message after one more packet of its sender. */
  function NextPart(part: seq<seq<byte>>, p: Packet): seq<seq<byte>> {
    if p.first.index < 0 then [] else part + [p.first.data]
  }

  /** The messages that end with a packet, given the fragments before it. */
  function Completed(part: seq<seq<byte>>, p: Packet): seq<seq<seq<byte>>> {
    (if p.first.index < 0 then [part + [p.first.data]] else []) + Singles(p.rest)
  }

  /** The fragment index the receiver checks. */
  function Position(p: Packet): int {
    if p.first.index < 0 then -p.first.index else p.first.index
  }

  /** One packet continues exactly where the queue stands: it has the position the receiver expects,
      and what it completes is what leaves the queue. */
  lemma PacketContinues(q: Queue, seqNo: int, sender: int)
    requires Valid(q) && q.messages != []
    ensures var (p, after) := NextPacket(q, seqNo, sender);
            && Valid(after) && Position(p) == |Started(q)| + 1
            && NextPart(Started(q), p) == Started(after)
            && Completed(Started(q), p) + Elements(after.messages) == Elements(q.messages)
            && p.service == q.messages[0].service && |after.messages| <= |q.messages|
            && after.messages == q.messages[|q.messages| - |after.messages|..]
            && (forall k :: 0 <= k < |q.messages| - |after.messages| ==> TravelsIn(q.messages[k].service, p.service))
            && (IsFloating(p) ==> Started(q) == [] == Started(after))
  {
    var m := q.messages[0];
    var (first, q1) := Take(q);
    FillAddsWholeMessages(q1, m.service, |first.data|);
    hide Fill, Singles, Elements;
    if q.cur + 1 < |m.elements| {
      NoRoom(q1, m.service, |first.data|);
      SinglesNone();
      assert m.elements[..q.cur] + [m.elements[q.cur]] == m.elements[..q.cur + 1];
    } else {
      LastFragment(q, Fill(q1, m.service, |first.data|).0, Fill(q1, m.service, |first.data|).1);
    }
  }

  lemma SinglesNone()
    ensures Singles([]) == [] && forall x: seq<seq<seq<byte>>> :: [] + x == x
  {}

  lemma LastFragment(q: Queue, rest: seq<Fragment>, after: Queue)
    requires Valid(q) && q.messages != [] && q.cur + 1 == |q.messages[0].elements|
    requires WholeMessages(Queue(q.messages[1..], 0), q.messages[0].service, rest, after)
    ensures Started(q) + [NextElement(q)] == q.messages[0].elements
    ensures [q.messages[0].elements] + Singles(rest) + Elements(after.messages) == Elements(q.messages)
    ensures after.cur == 0 && |after.messages| == |q.messages| - 1 - |rest| && after.messages == q.messages[1 + |rest|..]
    ensures forall k :: 0 <= k < |q.messages| - |after.messages| ==> TravelsIn(q.messages[k].service, q.messages[0].service)
  {
    hide Elements, Singles, Valid;
    var m, ms := q.messages[0], q.messages[1..];
    assert m.elements[..q.cur] + [m.elements[q.cur]] == m.elements;
    Leaving(m, ms, rest);
    assert q.messages == [m] + ms;
    AddedTravel(Queue(ms, 0), m.service, rest, after);
    AllTravel(m, ms, rest);
  }

  lemma Leaving(m: Msg, ms: seq<Msg>, rest: seq<Fragment>)
    requires |rest| <= |ms| && Singles(rest) == Elements(ms[..|rest|])
    ensures [m.elements] + Singles(rest) + Elements(ms[|rest|..]) == Elements([m] + ms)
  {
    hide *;
    ElementsConcat(ms[..|rest|], ms[|rest|..]);
    assert ms == ms[..|rest|] + ms[|rest|..];
    TwoFronts(m, ms, Fragment(0, []), []);
    var a, b, c := [m.elements], Singles(rest), Elements(ms[|rest|..]);
    assert a + b + c == a + (b + c);
  }

  lemma AllTravel(m: Msg, ms: seq<Msg>, rest: seq<Fragment>)
    requires |rest| <= |ms| && forall k :: 0 <= k < |rest| ==> TravelsIn(ms[k].service, m.service)
    ensures forall k :: 0 <= k < |rest| + 1 ==> TravelsIn(([m] + ms)[k].service, m.service)
  {}

  lemma NoRoom(q: Queue, service: Service, length: nat)
    requires Valid(q) && length >= BODY_SIZE
    ensures Fill(q, service, length) == ([], q)
  {}

  // ---- A sender's whole run ----

  datatype Step = Enqueue(m: Msg) | Send(seqNo: int)

  /** The queue, the packets sent and the messages ever queued. */
  datatype Sender = Sender(q: Queue, packets: seq<Packet>, queued: seq<Msg>)

  ghost predicate SenderRun(id: int, steps: seq<Step>, s: Sender)
    decreases |steps|
  {
    if steps == [] then s == Sender(Queue([], 0), [], [])
    else
      var step := steps[|steps| - 1];
      exists before ::
        && SenderRun(id, steps[..|steps| - 1], before) && Valid(before.q)
        && match step
           case Enqueue(m) =>
             && Proper(m.elements)
             && s == Sender(before.q.(messages := before.q.messages + [m]), before.packets, before.queued + [m])
           case Send(seqNo) =>
             && before.q.messages != []
             && var (p, after) := NextPacket(before.q, seqNo, id);
                s == Sender(after, before.packets + [p], before.queued)
  }

  /** The unfinished message after all of a sender's packets. */
  function PartOf(ps: seq<Packet>): seq<seq<byte>> {
    if ps == [] then [] else NextPart(PartOf(ps[..|ps| - 1]), ps[|ps| - 1])
  }

  /** Everything a sender's packets complete, in order. */
  function Rebuilt(ps: seq<Packet>): seq<seq<seq<byte>>> {
    if ps == [] then []
    else Rebuilt(ps[..|ps| - 1]) + Completed(PartOf(ps[..|ps| - 1]), ps[|ps| - 1])
  }

  /** Every packet has the position that its sender's earlier packets call for. */
  ghost predicate InSequence(ps: seq<Packet>) {
    forall i :: 0 <= i < |ps| ==> Position(ps[i]) == |PartOf(ps[..i])| + 1
  }

  lemma InSequenceGrows(ps: seq<Packet>, p: Packet)
    requires InSequence(ps) && Position(p) == |PartOf(ps)| + 1
    ensures InSequence(ps + [p])
  {
    forall i | 0 <= i < |ps + [p]| ensures Position((ps + [p])[i]) == |PartOf((ps + [p])[..i])| + 1 {
      assert (ps + [p])[..i] == ps[..i];
      assert ps[..|ps|] == ps;
    }
  }

  /** However messages are queued and packets sent, in whatever portions: the packets rebuild exactly the
      messages that left the queue, in order, plus the started part of the first one still in it. */
  lemma {:induction false} SenderRebuilds(id: int, steps: seq<Step>, s: Sender)
    requires SenderRun(id, steps, s)
    ensures Valid(s.q) && InSequence(s.packets)
    ensures PartOf(s.packets) == Started(s.q)
    ensures Rebuilt(s.packets) + Elements(s.q.messages) == Elements(s.queued)
    decreases |steps|
  {
    if steps != [] {
      var init, step := steps[..|steps| - 1], steps[|steps| - 1];
      match step {
        case Enqueue(m) =>
          var before :| SenderRun(id, init, before) && Valid(before.q) && Proper(m.elements)
            && s == Sender(before.q.(messages := before.q.messages + [m]), before.packets, before.queued + [m]);
          SenderRebuilds(id, init, before);
          EnqueueKeeps(before, m);
        case Send(seqNo) =>
          var before :| SenderRun(id, init, before) && Valid(before.q) && before.q.messages != []
            && s == Sender(NextPacket(before.q, seqNo, id).1, before.packets + [NextPacket(before.q, seqNo, id).0], before.queued);
          SenderRebuilds(id, init, before);
          SendKeeps(before, seqNo, id);
      }
    }
  }

  lemma EnqueueKeeps(before: Sender, m: Msg)
    requires Valid(before.q) && Proper(m.elements)
    requires PartOf(before.packets) == Started(before.q)
    requires Rebuilt(before.packets) + Elements(before.q.messages) == Elements(before.queued)
    ensures var q := before.q.(messages := before.q.messages + [m]);
            && Valid(q) && PartOf(before.packets) == Started(q)
            && Rebuilt(before.packets) + Elements(q.messages) == Elements(before.queued + [m])
  {
    hide Rebuilt, PartOf;
    ElementsConcat(before.q.messages, [m]);
    ElementsConcat(before.queued, [m]);
  }

  lemma SendKeeps(before: Sender, seqNo: int, id: int)
    requires Valid(before.q) && before.q.messages != []
    requires InSequence(before.packets) && PartOf(before.packets) == Started(before.q)
    requires Rebuilt(before.packets) + Elements(before.q.messages) == Elements(before.queued)
    ensures var (p, after) := NextPacket(before.q, seqNo, id); var ps := before.packets + [p];
            && Valid(after) && InSequence(ps) && PartOf(ps) == Started(after)
            && Rebuilt(ps) + Elements(after.messages) == Elements(before.queued)
  {
    var (p, after) := NextPacket(before.q, seqNo, id);
    var ps := before.packets + [p];
    PacketContinues(before.q, seqNo, id);
    assert ps[..|ps| - 1] == before.packets;
    InSequenceGrows(before.packets, p);
    hide NextPacket, Completed, Started, InSequence;
    assert Rebuilt(before.packets) + Completed(PartOf(before.packets), p) + Elements(after.messages)
        == Rebuilt(before.packets) + (Completed(PartOf(before.packets), p) + Elements(after.messages));
  }
}
