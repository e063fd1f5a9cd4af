/** Constants and values shared by the protocol modules. */
module SpreadTypes {

  const MAX_PACKETS_IN_STRUCT := 8192
  const MAX_SEQ_GAP := 1600
  const MAX_PROCS_RING := 128

  datatype Option<+T> = None | Some(value: T)

  function Max(a: int, b: int): int { if a >= b then a else b }

  function Min(a: int, b: int): int { if a <= b then a else b }

  ghost predicate Distinct(ids: seq<int>) {
    forall i, j :: 0 <= i < j < |ids| ==> ids[i] != ids[j]
  }

  /** The first place of an id in a list, -1 if it has none. */
  function IndexOf(ids: seq<int>, id: int): (i: int)
    ensures -1 <= i < |ids|
    ensures i >= 0 ==> ids[i] == id
    ensures i == -1 <==> id !in ids
  {
    if ids == [] then -1
    else if ids[0] == id then 0
    else
      var rest := IndexOf(ids[1..], id);
      if rest == -1 then -1 else rest + 1
  }

  /** The delivery services, weakest first; a packet carries exactly one. */
  datatype Service = Unreliable | Reliable | Fifo | Agreed | Safe

  /** The bit that encodes a service on the wire; the bits grow with the guarantee. */
  function ServiceBit(s: Service): (bit: nat)
    ensures 1 <= bit <= 16
  {
    match s
    case Unreliable => 0x01
    case Reliable => 0x02
    case Fifo => 0x04
    case Agreed => 0x08
    case Safe => 0x10
  }

  /** Delivery threshold that blocks every regular delivery: one above all service bits together. */
  const BLOCK_REGULAR_DELIVERY: nat := 0x20

  type byte = x: int | 0 <= x < 256

  /** One fragment of a message. `index` is the 1-based position, negated on the last fragment. */
  datatype Fragment = Fragment(index: int, data: seq<byte>)

  /** A packet: one leading fragment and any number of whole one-fragment messages behind it. */
  datatype Packet = Packet(seqNo: int, sender: int, service: Service, first: Fragment, rest: seq<Fragment>)

  /** Reliable packets that need no predecessor: they are delivered as soon as they arrive. */
  predicate IsFloating(p: Packet) {
    p.service == Reliable && p.first.index == -1
  }

  /** What a slot of the packet table can hold when it is not empty: the numeric marks 1, 2 and 3. */
  datatype Slot = Pending(p: Packet) | Delivered(p: Packet) | Hole

  /** What a daemon passes up to its sessions. */
  datatype Event = Message(p: Packet) | TransitionalSignal | RegularView
}
