/** The two ends of the packet stream as they run: the queue from which a daemon fills packets, the
queues in which it puts messages together again, and the cutting of a long message into fragments. */
module MessageQueues {
  import opened SpreadTypes
  import opened Packing
  import opened PacketBytes
  import Delivery
  import Reassembly

  /** The messages a daemon has to send; `cur` is the next fragment of the first one. */
  class DownQueue {
    var messages: seq<Msg>
    var cur: nat

    ghost predicate Valid()
      reads this
    {
      Packing.Valid(Contents())
    }

    function Contents(): Queue
      reads this
    {
      Queue(messages, cur)
    }

    constructor ()
      ensures Valid() && Contents() == Queue([], 0)
    {
      messages, cur := [], 0;
    }

    method Enqueue(m: Msg)
      requires Valid() && Proper(m.elements)
      modifies this
      ensures Valid() && Contents() == old(Contents()).(messages := old(messages) + [m])
    {
      messages := messages + [m];
    }

    /** Moves past the next fragment, to the next message after the last one of its message, and says
        which index the fragment gets. */
    method Advance() returns (index: int)
      requires Valid() && messages != []
      modifies this
      ensures Valid() && (Fragment(index, NextElement(old(Contents()))), Contents()) == Take(old(Contents()))
    {
      cur := cur + 1;
      if cur < |messages[0].elements| {
        index := cur;
      } else {
        index := -|messages[0].elements|;
        messages := messages[1..];
        cur := 0;
      }
    }

    /** Adds fragments behind the first as long as they may be added. */
    method AddFragments(service: Service, first: seq<byte>) returns (body: seq<byte>)
      requires Valid() && |first| <= BODY_SIZE
      modifies this
      ensures Valid()
      ensures var (rest, after) := Fill(old(Contents()), service, |first|);
              body == first + Tail(|first|, rest) && Contents() == after
    {
      hide Tail, Header, Take, Fill;
      body := first;
      ghost var (rest, after) := Fill(Contents(), service, |first|);
      while CanAdd(Contents(), service, |body|)
        invariant Valid() && |body| <= BODY_SIZE
        invariant Fill(Contents(), service, |body|).1 == after
        invariant body + Tail(|body|, Fill(Contents(), service, |body|).0) == first + Tail(|first|, rest)
        decreases BODY_SIZE - |body|
      {
        var data := messages[0].elements[cur];
        TakeKeeps(Contents());
        FillOne(Contents(), service, |body|);
        var i := Advance();
        TailOne(body, [Fragment(i, data)] + Fill(Contents(), service, |body| + Padding(|body|) + FRAGMENT_HEADER + |data|).0);
        body := body + Zeros(Padding(|body|)) + Header(Fragment(i, data)) + data;
      }
      FillNone(Contents(), service, |body|);
    }

    /** Fills one packet, with the service of the message at the head. */
    method FillPacket(seqNo: int, sender: int) returns (w: Wire)
      requires Valid() && messages != []
      modifies this
      ensures Valid()
      ensures var (p, after) := NextPacket(old(Contents()), seqNo, sender);
              w == Encode(p) && Contents() == after
      ensures w.service == old(messages)[0].service && |messages| <= |old(messages)|
      ensures forall k :: 0 <= k < |old(messages)| - |messages| ==> TravelsIn(old(messages)[k].service, w.service)
    {
      TravelTogether(Contents(), seqNo, sender);
      hide Tail, Take, Fill, TravelsIn;
      var service := messages[0].service;
      var first := messages[0].elements[cur];
      TakeKeeps(Contents());
      var index := Advance();
      var body := AddFragments(service, first);
      w := Wire(seqNo, sender, service, index, |first|, body);
    }

    /** Fills packets numbered after `highest` until the allowance or the queue is used up. */
    method SendNewPackets(allowed: int, highest: int, sender: int) returns (ws: seq<Wire>)
      requires Valid()
      modifies this
      ensures Valid() && (if allowed <= 0 then ws == [] else |ws| <= allowed) && (|ws| < allowed ==> messages == [])
      ensures Contents() == QueueAfter(old(Contents()), highest, sender, |ws|)
      ensures forall k :: 0 <= k < |ws| ==> Yields(old(Contents()), highest, sender, k, ws[k])
    {
      hide Encode, NextPacket;
      ws := [];
      while |ws| < allowed && messages != []
        invariant Valid() && (|ws| <= allowed || ws == [])
        invariant Contents() == QueueAfter(old(Contents()), highest, sender, |ws|)
        invariant forall k :: 0 <= k < |ws| ==> Yields(old(Contents()), highest, sender, k, ws[k])
        decreases allowed - |ws|
      {
        var w := FillPacket(highest + |ws| + 1, sender);
        ws := ws + [w];
      }
    }
  }

  /** The queue after some packets. */
  ghost function QueueAfter(q: Queue, highest: int, sender: int, n: nat): (after: Queue)
    requires Packing.Valid(q)
    ensures Packing.Valid(after)
  {
    if n == 0 then q
    else
      var before := QueueAfter(q, highest, sender, n - 1);
      if before.messages == [] then before
      else
        PacketContinues(before, highest + n, sender);
        NextPacket(before, highest + n, sender).1
  }

  /** The packet with index k is the one the queue yields at that point. */
  ghost predicate Yields(q: Queue, highest: int, sender: int, k: nat, w: Wire)
    requires Packing.Valid(q)
  {
    var before := QueueAfter(q, highest, sender, k);
    before.messages != [] && w == Encode(NextPacket(before, highest + k + 1, sender).0)
  }

  /** Where a daemon puts messages together: one queue for each sender, one for floating packets. */
  class UpQueues {
    var parts: map<int, seq<seq<byte>>>
    var floating: seq<seq<byte>>
    var delivered: seq<seq<seq<seq<byte>>>>
    var failed: bool

    ghost predicate Valid()
      reads this
    {
      floating == []
    }

    ghost function State(): Reassembly.Up
      reads this
    {
      Reassembly.Up(parts, delivered, failed)
    }

    constructor ()
      ensures Valid() && State() == Reassembly.DeliverAll([])
    {
      parts, floating, delivered, failed := map[], [], [], false;
    }

    /** Deliver_packet: the fragments behind the first are messages of their own; the first continues
        its sender's message, and a wrong position is fatal. */
    method DeliverPacket(w: Wire)
      requires Valid() && !failed && w.length <= |w.body|
      modifies this
      ensures Valid() && State() == Reassembly.DeliverOne(old(State()), Decode(w))
    {
      var extra := ReadMessages(w.body, w.length);
      var alone := w.service == Reliable && w.index == -1;
      var part := if alone then floating else if w.sender in parts then parts[w.sender] else [];
      var position := if w.index < 0 then -w.index else w.index;
      if |part| + 1 != position {
        failed := true;
        return;
      }
      part := part + [w.body[..w.length]];
      var messages := [];
      if w.index < 0 {
        messages := [part];
        part := [];
      }
      if alone {
        floating := part;
      } else {
        parts := parts[w.sender := part];
      }
      delivered := delivered + [messages + extra];
    }
  }

  /** The whole messages behind the first fragment. */
  method ReadMessages(body: seq<byte>, length: nat) returns (messages: seq<seq<seq<byte>>>)
    requires length <= |body|
    ensures messages == Singles(Parse(body, length))
  {
    hide Parse, Singles, Get16, Padding;
    messages := [];
    var processed := length;
    while processed < |body|
      invariant messages + Singles(Parse(body, processed)) == Singles(Parse(body, length))
      decreases |body| - processed
    {
      ParseUnfold(body, processed);
      hide Parse;
      var at := processed + Padding(processed);
      if at + FRAGMENT_HEADER > |body| {
        break;
      }
      var n := Get16(body[at + 2], body[at + 3]);
      processed := at + FRAGMENT_HEADER;
      if n < 0 || processed + n > |body| {
        return;
      }
      Regroup3(messages, [[body[processed..processed + n]]], Singles(Parse(body, processed + n)));
      messages := messages + [[body[processed..processed + n]]];
      processed := processed + n;
    }
    ParseDone(body, processed);
  }

  lemma ParseDone(body: seq<byte>, processed: nat)
    ensures processed >= |body| ==> Singles(Parse(body, processed)) == []
  {}

  lemma Regroup3<T>(a: seq<T>, b: seq<T>, c: seq<T>)
    ensures a + (b + c) == a + b + c
  {}

  lemma ParseUnfold(body: seq<byte>, processed: nat)
    requires processed < |body|
    ensures var at := processed + Padding(processed); var from := at + FRAGMENT_HEADER;
            Singles(Parse(body, processed)) ==
            if from > |body| || Get16(body[at + 2], body[at + 3]) < 0 || from + Get16(body[at + 2], body[at + 3]) > |body| then []
            else [[body[from..from + Get16(body[at + 2], body[at + 3])]]]
                 + Singles(Parse(body, from + Get16(body[at + 2], body[at + 3])))
  {
    hide Get16;
    var all := Parse(body, processed);
    if all != [] {
      assert all[1..] == Parse(body, processed + Padding(processed) + FRAGMENT_HEADER + |all[0].data|);
    }
  }

  // ---- Cutting a message into fragments ----

  const HEADER_SIZE := 48

  function Bytes(elements: seq<seq<byte>>): seq<byte> {
    if elements == [] then [] else Bytes(elements[..|elements| - 1]) + elements[|elements| - 1]
  }

  /** Message_Buffer_to_Message_Fragments: the message header and everything behind it, in fragments of
      which all but the last are full; too large a message is fatal. */
  method BufferToFragments(head: seq<byte>, buf: seq<byte>) returns (ok: bool, elements: seq<seq<byte>>)
    requires |head| == HEADER_SIZE
    ensures ok <==> |head| + |buf| <= MAX_ELEMENTS * BODY_SIZE
    ensures ok ==> Proper(elements) && Bytes(elements) == head + buf && elements[|elements| - 1] != []
  {
    var num := (|buf| + |head| - 1) / BODY_SIZE + 1;
    elements := [];
    if num > MAX_ELEMENTS {
      return false, elements;
    }
    var copied: nat := if |buf| > BODY_SIZE - |head| then BODY_SIZE - |head| else |buf|;
    elements := [head + buf[..copied]];
    assert Bytes(elements) == Bytes([]) + elements[0];
    hide Bytes;
    for i := 1 to num
      invariant |elements| == i && FullBut(elements, i == num) && copied <= |buf|
      invariant Bytes(elements) == head + buf[..copied]
      invariant if i < num then |head| + copied == i * BODY_SIZE else copied == |buf|
    {
      var take := if |buf| - copied > BODY_SIZE then BODY_SIZE else |buf| - copied;
      CutOne(elements, head, buf, copied, take);
      elements := elements + [buf[copied..copied + take]];
      copied := copied + take;
    }
    assert buf[..|buf|] == buf;
    ok := true;
  }

  /** All fragments are full, or all but the last, which is not empty. */
  ghost predicate FullBut(elements: seq<seq<byte>>, last: bool) {
    forall k :: 0 <= k < |elements| ==>
      if last && k == |elements| - 1 then 0 < |elements[k]| <= BODY_SIZE else |elements[k]| == BODY_SIZE
  }

  lemma CutOne(elements: seq<seq<byte>>, head: seq<byte>, buf: seq<byte>, copied: nat, take: nat)
    requires copied + take <= |buf| && Bytes(elements) == head + buf[..copied]
    ensures Bytes(elements + [buf[copied..copied + take]]) == head + buf[..copied + take]
  {
    BytesOne(elements, buf[copied..copied + take]);
    assert buf[..copied] + buf[copied..copied + take] == buf[..copied + take];
  }

  lemma BytesOne(elements: seq<seq<byte>>, e: seq<byte>)
    ensures Bytes(elements + [e]) == Bytes(elements) + e
  {
    assert (elements + [e])[..|elements|] == elements;
  }

  /** What a packet carries may travel in it. */
  lemma TravelTogether(q: Queue, seqNo: int, sender: int)
    requires Packing.Valid(q) && q.messages != []
    ensures var (p, after) := NextPacket(q, seqNo, sender);
            && Encode(p).service == q.messages[0].service && |after.messages| <= |q.messages|
            && forall k :: 0 <= k < |q.messages| - |after.messages| ==> TravelsIn(q.messages[k].service, Encode(p).service)
  {
    hide TravelsIn, Fill, Tail, Take;
    PacketContinues(q, seqNo, sender);
  }

  lemma TakeKeeps(q: Queue)
    requires Packing.Valid(q) && q.messages != []
    ensures Packing.Valid(Take(q).1) && |NextElement(q)| <= BODY_SIZE
    ensures Take(q).0.data == NextElement(q)
  {}
}
