/** The bytes of a packet body: the first fragment, then every further one behind a header of its own,
each header aligned to four bytes. */
module PacketBytes {
  import opened SpreadTypes
  import opened Packing

  /** A packet as it is sent; index and length of the first fragment travel in the packet header. */
  datatype Wire = Wire(seqNo: int, sender: int, service: Service, index: int, length: nat, body: seq<byte>)

  function Zeros(n: nat): (z: seq<byte>)
    ensures |z| == n
  {
    seq(n, _ => 0)
  }

  /** A 16-bit field, low byte first, negative numbers in two's complement. */
  function Put16(x: int): (b: seq<byte>)
    ensures |b| == 2
  {
    [x % 256, x / 256 % 256]
  }

  function Get16(low: byte, high: byte): int {
    if high < 128 then low + 256 * high else low + 256 * high - 0x10000
  }

  lemma RoundTrip16(x: int)
    requires -0x8000 <= x < 0x8000
    ensures Get16(Put16(x)[0], Put16(x)[1]) == x
  {}

  function Header(f: Fragment): (h: seq<byte>)
    ensures |h| == FRAGMENT_HEADER
  {
    Put16(f.index) + Put16(|f.data|)
  }

  /** The bytes of the further fragments when `start` bytes stand before them. */
  function Tail(start: nat, rest: seq<Fragment>): seq<byte>
    decreases |rest|
  {
    if rest == [] then []
    else
      var pad := Padding(start);
      Zeros(pad) + Header(rest[0]) + rest[0].data + Tail(start + pad + FRAGMENT_HEADER + |rest[0].data|, rest[1..])
  }

  function Encode(p: Packet): Wire {
    Wire(p.seqNo, p.sender, p.service, p.first.index, |p.first.data|,
         p.first.data + Tail(|p.first.data|, p.rest))
  }

  /** The fragments from a position on; a fragment that claims more than there is ends the packet. */
  function Parse(body: seq<byte>, processed: nat): seq<Fragment>
    decreases |body| - processed
  {
    if processed >= |body| then []
    else
      var at := processed + Padding(processed);
      var from := at + FRAGMENT_HEADER;
      if from > |body| then []
      else
        var index, length := Get16(body[at], body[at + 1]), Get16(body[at + 2], body[at + 3]);
        if length < 0 || from + length > |body| then []
        else [Fragment(index, body[from..from + length])] + Parse(body, from + length)
  }

  function Decode(w: Wire): Packet
    requires w.length <= |w.body|
  {
    Packet(w.seqNo, w.sender, w.service, Fragment(w.index, w.body[..w.length]), Parse(w.body, w.length))
  }

  ghost predicate Encodable(rest: seq<Fragment>) {
    forall k :: 0 <= k < |rest| ==> -0x8000 <= rest[k].index < 0x8000 && |rest[k].data| < 0x8000
  }

  /** One step of parsing undoes one step of writing; `a` is what stands before the header. */
  lemma ParseOne(a: seq<byte>, processed: nat, f: Fragment, after: seq<byte>)
    requires -0x8000 <= f.index < 0x8000 && |f.data| < 0x8000
    requires |a| == processed + Padding(processed)
    ensures var body := a + Header(f) + f.data + after;
            Parse(body, processed) == [f] + Parse(body, |a| + FRAGMENT_HEADER + |f.data|)
  {
    var body := a + Header(f) + f.data + after;
    hide Get16, Header, Put16, Parse;
    HeaderRead(a, f, after);
    DataRead(a, Header(f), f.data, after);
    ParseStep(body, processed, |a|, f);
  }

  lemma ParseStep(body: seq<byte>, processed: nat, at: nat, f: Fragment)
    requires at == processed + Padding(processed) && at + FRAGMENT_HEADER + |f.data| <= |body|
    requires Get16(body[at], body[at + 1]) == f.index && Get16(body[at + 2], body[at + 3]) == |f.data|
    requires body[at + FRAGMENT_HEADER..at + FRAGMENT_HEADER + |f.data|] == f.data
    ensures Parse(body, processed) == [f] + Parse(body, at + FRAGMENT_HEADER + |f.data|)
  {
    hide Get16;
  }

  lemma HeaderRead(a: seq<byte>, f: Fragment, after: seq<byte>)
    requires -0x8000 <= f.index < 0x8000 && |f.data| < 0x8000
    ensures var body := a + Header(f) + f.data + after; var at := |a|;
            && Get16(body[at], body[at + 1]) == f.index
            && Get16(body[at + 2], body[at + 3]) == |f.data|
  {
    RoundTrip16(f.index);
    RoundTrip16(|f.data|);
    var body, at, h := a + Header(f) + f.data + after, |a|, Header(f);
    assert body[at] == h[0] && body[at + 1] == h[1] && body[at + 2] == h[2] && body[at + 3] == h[3];
    hide Get16;
  }

  lemma DataRead(a: seq<byte>, h: seq<byte>, d: seq<byte>, after: seq<byte>)
    ensures (a + h + d + after)[|a| + |h|..|a| + |h| + |d|] == d
  {}

  lemma {:induction false} ParseTail(before: seq<byte>, rest: seq<Fragment>)
    requires Encodable(rest)
    ensures Parse(before + Tail(|before|, rest), |before|) == rest
    decreases |rest|
  {
    hide Parse, Header;
    if rest == [] {
      assert before + [] == before;
      ParseEnd(before);
    } else {
      var f, a := rest[0], before + Zeros(Padding(|before|));
      var more := a + Header(f) + f.data;
      var after := Tail(|more|, rest[1..]);
      TailOne(before, rest);
      ParseOne(a, |before|, f, after);
      ParseTail(more, rest[1..]);
      assert rest == [f] + rest[1..];
    }
  }

  lemma ParseEnd(body: seq<byte>)
    ensures Parse(body, |body|) == []
  {}

  lemma TailOne(before: seq<byte>, rest: seq<Fragment>)
    requires rest != []
    ensures var a := before + Zeros(Padding(|before|)); var more := a + Header(rest[0]) + rest[0].data;
            before + Tail(|before|, rest) == more + Tail(|more|, rest[1..])
  {
    hide Tail, Header, Zeros, Padding;
    var f, pad := rest[0], Padding(|before|);
    TailUnfold(|before|, rest);
    Regroup(before, Zeros(pad), Header(f), f.data, Tail(|before| + pad + FRAGMENT_HEADER + |f.data|, rest[1..]));
  }

  lemma TailUnfold(start: nat, rest: seq<Fragment>)
    requires rest != []
    ensures var f, pad := rest[0], Padding(start);
            Tail(start, rest) == Zeros(pad) + Header(f) + f.data + Tail(start + pad + FRAGMENT_HEADER + |f.data|, rest[1..])
  {
    hide Header, Zeros, Padding;
  }

  lemma Regroup(a: seq<byte>, b: seq<byte>, c: seq<byte>, d: seq<byte>, e: seq<byte>)
    ensures a + (b + c + d + e) == a + b + c + d + e
  {}

  /** Decoding gives back every packet that was encoded. */
  lemma WireRoundTrip(p: Packet)
    requires Encodable(p.rest)
    ensures Encode(p).length <= |Encode(p).body| && Decode(Encode(p)) == p
  {
    ParseTail(p.first.data, p.rest);
    assert Encode(p).body[..|p.first.data|] == p.first.data;
  }

  lemma {:induction false} FillFits(q: Queue, service: Service, length: nat)
    requires Valid(q) && length <= BODY_SIZE
    ensures Encodable(Fill(q, service, length).0)
    ensures length + |Tail(length, Fill(q, service, length).0)| <= BODY_SIZE
    decreases BODY_SIZE - length
  {
    if CanAdd(q, service, length) {
      var (fragment, q1) := Take(q);
      var rest := Fill(q, service, length).0;
      var next := length + Padding(length) + FRAGMENT_HEADER + |fragment.data|;
      FillFits(q1, service, next);
      assert rest[1..] == Fill(q1, service, next).0;
    }
  }

  /** Every packet that a queue produces fits its buffer and survives the wire. */
  lemma QueuePacketsSurvive(q: Queue, seqNo: int, sender: int)
    requires Valid(q) && q.messages != []
    ensures var p := NextPacket(q, seqNo, sender).0;
            |Encode(p).body| <= BODY_SIZE && Encode(p).length <= |Encode(p).body| && Decode(Encode(p)) == p
  {
    var (first, q1) := Take(q);
    FillFits(q1, q.messages[0].service, |first.data|);
    WireRoundTrip(NextPacket(q, seqNo, sender).0);
  }

  lemma {:induction false} FillEnds(q: Queue, service: Service, length: nat)
    requires Valid(q)
    ensures var (rest, after) := Fill(q, service, length);
            Valid(after) && !CanAdd(after, service, length + |Tail(length, rest)|)
    decreases BODY_SIZE - length
  {
    hide Fill, Tail, Compatible;
    if CanAdd(q, service, length) {
      var (fragment, q1) := Take(q);
      var next := length + Padding(length) + FRAGMENT_HEADER + |fragment.data|;
      FillEnds(q1, service, next);
      FillOne(q, service, length);
      hide Take, CanAdd, Valid;
      var rest := Fill(q, service, length).0;
      assert rest[1..] == Fill(q1, service, next).0;
      TailUnfold(length, rest);
    } else {
      FillNone(q, service, length);
    }
  }

  lemma FillNone(q: Queue, service: Service, length: nat)
    requires Valid(q) && !CanAdd(q, service, length)
    ensures Fill(q, service, length) == ([], q) && Tail(length, []) == []
  {}

  lemma FillOne(q: Queue, service: Service, length: nat)
    requires Valid(q) && CanAdd(q, service, length)
    ensures var (fragment, q1) := Take(q);
            var (more, q2) := Fill(q1, service, length + Padding(length) + FRAGMENT_HEADER + |fragment.data|);
            Fill(q, service, length) == ([fragment] + more, q2)
  {}

  /** A packet is filled as far as it goes: the queue is empty, the next fragment with its header does not fit behind
      what is there, or its message may not travel in the packet. */
  lemma FilledUp(q: Queue, service: Service, length: nat)
    requires Valid(q)
    ensures var (rest, after) := Fill(q, service, length);
            var used := length + |Tail(length, rest)|;
            && Valid(after)
            && (after.messages == [] || used + Padding(used) + FRAGMENT_HEADER + |NextElement(after)| > BODY_SIZE
                || !TravelsIn(after.messages[0].service, service))
  {
    FillEnds(q, service, length);
    hide Fill, Tail;
    var after := Fill(q, service, length).1;
    if after.messages != [] {
      CompatibleTravels(after.messages[0].service, service);
    }
  }
}
