/** Recovery of an old ring while a new one is formed: reading the FORM2 token, receiving what is
still missing, and either delivering the rest of the old ring or undoing the attempt. */
module Recovery {
  import opened SpreadTypes
  import opened Delivery
  import opened FormToken

  /** A configuration as the daemon copies it: the table of all configured daemons, and the daemons
      that its segments list as members. */
  datatype Conf = Conf(allProcs: seq<int>, members: seq<int>)

  /** Conf_proc_by_id_in_conf looks in the table of configured daemons, not in the segments. */
  function ProcByIdInConf(conf: Conf, id: int): int {
    IndexOf(conf.allProcs, id)
  }

  /** Dropping this packet is fatal: it was passed up already, or its number is not the slot's, or its
      sender is found "on the token". */
  predicate FatalToDrop(s: int, slot: Slot, conf: Conf) {
    !slot.Pending? || slot.p.seqNo != s || ProcByIdInConf(conf, slot.p.sender) != -1
  }

  /** Forget what arrived after FORM1 above the agreed highest number. */
  function DropAbove(d: Daemon, rg: RingInfo, conf: Conf): Option<Daemon> {
    var late := set s | s in d.packets && s > rg.highest;
    if exists s :: s in late && FatalToDrop(s, d.packets[s], conf) then None
    else Some(d.(packets := d.packets - late, highest := rg.highest,
                 received := if d.received > rg.highest then rg.highest else d.received, stable := rg.aru))
  }

  /** Put a dummy into the slot of every hole. */
  function MarkHoles(d: Daemon, holes: seq<int>, conf: Conf): Option<Daemon>
    decreases |holes|
  {
    if holes == [] then Some(d)
    else if holes[0] in d.packets && FatalToDrop(holes[0], d.packets[holes[0]], conf) then None
    else MarkHoles(d.(packets := d.packets[holes[0] := Hole]), holes[1..], conf)
  }

  ghost function Dummies(holes: seq<int>): map<int, Slot> {
    map h | h in holes :: Hole
  }

  /** The table without dummies. */
  function NonHoles(packets: map<int, Slot>): map<int, Slot> {
    map s | s in packets && !packets[s].Hole? :: packets[s]
  }

  /** The first way Read_form2 recounts the prefix: extend it while slots are filled. */
  function CountUp(filled: map<int, Slot>, i: int, highest: int, acc: int): int
    decreases highest - i
  {
    if i > highest then acc
    else CountUp(filled, i + 1, highest, if i in filled && i == acc + 1 then i else acc)
  }

  /** The second way: shorten the old one at every empty slot. */
  function CountDown(filled: map<int, Slot>, i: int, highest: int, acc: int): int
    decreases highest - i
  {
    if i > highest then acc
    else CountDown(filled, i + 1, highest, if i !in filled && acc >= i then i - 1 else acc)
  }

  /** Read_form2 on the daemon's own ring entry; `None` is any of its fatal branches. */
  function ReadForm2(d: Daemon, rg: RingInfo, conf: Conf): Option<Daemon> {
    match DropAbove(d, rg, conf)
    case None => None
    case Some(dropped) =>
      var c := Discard(dropped);
      if c.alarm then None
      else
        match MarkHoles(c, rg.holes, conf)
        case None => None
        case Some(e) =>
          var filled := NonHoles(e.packets);
          var up := CountUp(filled, e.discarded + 1, e.highest, e.discarded);
          if up != CountDown(filled, e.discarded + 1, e.highest, e.received) then None
          else Some(e.(received := up, stable := 0, evs := true))
  }

  /** The attempt failed: dummies become empty slots again and both marks are recomputed. */
  function Backoff(d: Daemon): Daemon {
    var filled := NonHoles(d.packets);
    d.(packets := filled, stable := d.discarded, received := Advance(filled, d.discarded, d.highest), evs := false)
  }

  /** Packets of the old ring that arrive while the daemon waits. */
  function Collect(d: Daemon, sent: seq<Packet>, numbers: seq<int>): Daemon
    requires forall k :: 0 <= k < |numbers| ==> 1 <= numbers[k] <= |sent|
    decreases |numbers|
  {
    if numbers == [] then d else Collect(HandleBcast(d, At(sent, numbers[0])), sent, numbers[1..])
  }

  // ---- Delivering the old ring's remaining packets ----

  /** Up to the first hole or SAFE packet, before the transitional signal. */
  function BeforeSignal(d: Daemon): Daemon
    decreases d.highest - d.discarded
  {
    var s := d.discarded + 1;
    if s > d.highest then d
    else if s !in d.packets then d.(alarm := true)
    else if d.packets[s].Hole? || d.packets[s].p.service == Safe then d
    else BeforeSignal(DiscardOne(d))
  }

  /** One turn of the loop up to the signal. */
  lemma SignalTurn(d: Daemon)
    ensures var s := d.discarded + 1;
            BeforeSignal(d) ==
              if s > d.highest then d
              else if s !in d.packets then d.(alarm := true)
              else if d.packets[s].Hole? || d.packets[s].p.service == Safe then d
              else BeforeSignal(DiscardOne(d))
  {
    hide DiscardOne;
  }

  /** One turn after the signal, for a slot that is not a hole: it is delivered if no hole came before
      it or its sender is in the commit set, and emptied in any case. */
  function AfterOne(d: Daemon, commit: seq<int>, s: int, foundHole: bool): Daemon
    requires s in d.packets && !d.packets[s].Hole?
  {
    var wanted := !foundHole || IndexOf(commit, d.packets[s].p.sender) != -1;
    var e := if wanted && d.packets[s].Pending? then DeliverPacket(d, s) else d;
    e.(packets := e.packets - {s})
  }

  /** Everything else; after a hole only packets of senders in the commit set. */
  function AfterSignal(d: Daemon, commit: seq<int>, s: int, foundHole: bool): Daemon
    decreases d.highest - s
  {
    if s > d.highest then d
    else if s !in d.packets then d.(alarm := true)
    else if d.packets[s].Hole? then AfterSignal(d.(packets := d.packets - {s}), commit, s + 1, true)
    else AfterSignal(AfterOne(d, commit, s, foundHole), commit, s + 1, foundHole)
  }

  lemma {:induction false} AfterAlarmSticks(d: Daemon, commit: seq<int>, n: int, foundHole: bool)
    requires d.alarm
    ensures AfterSignal(d, commit, n, foundHole).alarm
    decreases d.highest - n
  {
    if n <= d.highest && n in d.packets {
      if d.packets[n].Hole? {
        AfterAlarmSticks(d.(packets := d.packets - {n}), commit, n + 1, true);
      } else {
        AfterAlarmSticks(AfterOne(d, commit, n, foundHole), commit, n + 1, foundHole);
      }
    }
  }

  /** Discard_packets once the recovery barrier is passed; the daemon starts the new ring empty. */
  function EvsDeliver(d: Daemon, commit: seq<int>): Daemon {
    var b := BeforeSignal(d);
    var t := b.(log := b.log + [TransitionalSignal]);
    var a := AfterSignal(t, commit, t.discarded + 1, false);
    Daemon(d.id, map[], 0, 0, 0, 0, 0, a.threshold, false, a.log + [RegularView], a.alarm || a.packets != map[])
  }

  lemma {:induction false} BeforeSignalMisses(d: Daemon, missing: int)
    requires d.discarded < missing <= d.highest && missing !in d.packets
    ensures var b := BeforeSignal(d);
            b.alarm || (b.discarded < missing <= b.highest && missing !in b.packets)
    decreases d.highest - d.discarded
  {
    SignalTurn(d);
    var s := d.discarded + 1;
    if s in d.packets && !d.packets[s].Hole? && d.packets[s].p.service != Safe {
      BeforeSignalMisses(DiscardOne(d), missing);
    }
  }

  lemma {:induction false} AfterSignalMisses(d: Daemon, commit: seq<int>, s: int, foundHole: bool, missing: int)
    requires s <= missing <= d.highest && missing !in d.packets
    ensures AfterSignal(d, commit, s, foundHole).alarm
    decreases d.highest - s
  {
    if s in d.packets {
      if d.packets[s].Hole? {
        AfterSignalMisses(d.(packets := d.packets - {s}), commit, s + 1, true, missing);
      } else {
        AfterSignalMisses(AfterOne(d, commit, s, foundHole), commit, s + 1, foundHole, missing);
      }
    }
  }

  /** Delivering with an empty slot in the way takes the fatal branch of one loop or the other. */
  lemma MissingIsFatal(d: Daemon, commit: seq<int>, missing: int)
    requires d.discarded < missing <= d.highest && missing !in d.packets
    ensures EvsDeliver(d, commit).alarm
  {
    BeforeSignalMisses(d, missing);
    var b := BeforeSignal(d);
    var t := b.(log := b.log + [TransitionalSignal]);
    hide BeforeSignal, AfterSignal;
    if b.alarm {
      AfterAlarmSticks(t, commit, t.discarded + 1, false);
    } else {
      AfterSignalMisses(t, commit, t.discarded + 1, false, missing);
    }
  }

  // ---- What an attempt assumes of a daemon, and the state while it lasts ----

  /** The ring entry fits the daemon: see `GatheredFits`. */
  ghost predicate Fits(d: Daemon, rg: RingInfo, sent: seq<Packet>) {
    && Good(d, sent) && Numbered(sent) && d.stable == d.discarded && !d.evs
    && d.threshold == BLOCK_REGULAR_DELIVERY
    && d.discarded <= rg.aru <= d.received && rg.aru <= rg.highest <= |sent|
    && d.delivered <= rg.highest
    && (forall h :: h in rg.holes ==> rg.aru < h <= rg.highest && d.delivered < h)
    && Ascending(rg.holes)
    && (forall s :: s in d.packets && (s > rg.highest || s in rg.holes) ==> d.packets[s].Pending?)
  }

  /** Every packet in the table was sent by a configured daemon; Prot_handle_bcast refuses others. */
  ghost predicate AllConfigured(d: Daemon, conf: Conf) {
    forall s :: s in d.packets ==> !d.packets[s].Hole? && d.packets[s].p.sender in conf.allProcs
  }

  /** A packet reached the daemon after FORM1 that the token calls a hole or does not know. */
  predicate Late(d: Daemon, rg: RingInfo) {
    exists s :: s in d.packets && (s > rg.highest || s in rg.holes)
  }

  ghost predicate EvsTable(e: Daemon, rg: RingInfo, sent: seq<Packet>) {
    && 0 <= e.discarded == rg.aru <= e.delivered <= e.highest == rg.highest <= |sent|
    && (forall s :: s in e.packets ==> rg.aru < s <= rg.highest)
    && (forall s :: s in rg.holes <==> s in e.packets && e.packets[s].Hole?)
    && (forall s :: s in e.packets && 1 <= s <= |sent| && !e.packets[s].Hole? ==> e.packets[s].p == At(sent, s))
    && (forall s :: rg.aru < s <= e.delivered ==> s in e.packets)
  }

  ghost predicate EvsGood(e: Daemon, rg: RingInfo, sent: seq<Packet>) {
    && EvsTable(e, rg, sent) && DeliveryMarks(e)
    && LogExact(e, sent) && LogOrdered(e, sent) && !e.alarm
    && e.evs && e.threshold == BLOCK_REGULAR_DELIVERY
  }

  // ---- Reading FORM2 ----

  lemma {:induction false} CountUpIs(filled: map<int, Slot>, i: int, highest: int, acc: int)
    requires acc < i
    ensures i == acc + 1 ==> CountUp(filled, i, highest, acc) == Advance(filled, acc, highest)
    ensures i > acc + 1 ==> CountUp(filled, i, highest, acc) == acc
    decreases highest - i
  {
    if i <= highest {
      CountUpIs(filled, i + 1, highest, if i in filled && i == acc + 1 then i else acc);
    }
  }

  lemma {:induction false} CountDownKeeps(filled: map<int, Slot>, i: int, highest: int, acc: int)
    requires acc < i || forall s :: i <= s <= acc && s <= highest ==> s in filled
    ensures CountDown(filled, i, highest, acc) == acc
    decreases highest - i
  {
    if i <= highest {
      CountDownKeeps(filled, i + 1, highest, acc);
    }
  }

  lemma AdvanceUnique(filled: map<int, Slot>, from: int, limit: int, r: int)
    requires from <= r <= limit && forall s :: from < s <= r ==> s in filled
    requires r == limit || r + 1 !in filled
    ensures Advance(filled, from, limit) == r
  {}

  lemma RestOfHoles(packets: map<int, Slot>, holes: seq<int>)
    requires Ascending(holes) && holes != []
    ensures Ascending(holes[1..])
    ensures forall h :: h in holes <==> h == holes[0] || h in holes[1..]
    ensures holes[0] !in holes[1..]
    ensures packets[holes[0] := Hole] + Dummies(holes[1..]) == packets + Dummies(holes)
  {
    var rest := holes[1..];
    assert holes == [holes[0]] + rest;
    assert forall k :: 0 <= k < |rest| ==> rest[k] == holes[k + 1];
    hide Ascending;
    DummiesOf(packets, holes[0], rest, holes);
  }

  lemma DummiesOf(packets: map<int, Slot>, first: int, rest: seq<int>, holes: seq<int>)
    requires forall h :: h in holes <==> h == first || h in rest
    ensures packets[first := Hole] + Dummies(rest) == packets + Dummies(holes)
  {
    var a, b := packets[first := Hole] + Dummies(rest), packets + Dummies(holes);
    forall s ensures (s in a <==> s in b) && (s in a ==> a[s] == b[s]) {
      assert s in Dummies(holes) <==> s in holes;
      assert s in Dummies(rest) <==> s in rest;
    }
  }

  lemma {:induction false} MarkHolesResult(d: Daemon, holes: seq<int>, conf: Conf)
    requires Ascending(holes)
    requires forall h :: h in holes ==> h !in d.packets
    ensures MarkHoles(d, holes, conf) == Some(d.(packets := d.packets + Dummies(holes)))
    decreases |holes|
  {
    hide Ascending, Dummies;
    if holes == [] {
      assert d.packets + Dummies(holes) == d.packets by { NoDummies(d.packets); }
    } else {
      RestOfHoles(d.packets, holes);
      assert holes[0] in holes;
      MarkHolesResult(d.(packets := d.packets[holes[0] := Hole]), holes[1..], conf);
    }
  }

  lemma NoDummies(packets: map<int, Slot>)
    ensures packets + Dummies([]) == packets
  {}

  lemma {:induction false} MarkHolesFatal(d: Daemon, holes: seq<int>, conf: Conf, h: int)
    requires Ascending(holes) && h in holes && h in d.packets && FatalToDrop(h, d.packets[h], conf)
    ensures MarkHoles(d, holes, conf).None?
    decreases |holes|
  {
    if h != holes[0] {
      var rest := holes[1..];
      var k :| 0 <= k < |holes| && holes[k] == h;
      assert rest[k - 1] == h;
      if !(holes[0] in d.packets && FatalToDrop(holes[0], d.packets[holes[0]], conf)) {
        MarkHolesFatal(d.(packets := d.packets[holes[0] := Hole]), rest, conf, h);
      }
    }
  }

  /** Without packets above the agreed number, dropping changes nothing but the marks. */
  lemma DropNothing(d: Daemon, rg: RingInfo, conf: Conf, sent: seq<Packet>)
    requires Fits(d, rg, sent) && forall s :: s in d.packets ==> s <= rg.highest
    ensures DropAbove(d, rg, conf) == Some(d.(highest := rg.highest, stable := rg.aru))
    ensures Good(d.(highest := rg.highest, stable := rg.aru), sent)
  {
    var late := set s | s in d.packets && s > rg.highest;
    assert late == {};
    assert d.packets - late == d.packets;
    assert d.discarded < d.received ==> d.received in d.packets;
    var e := d.(highest := rg.highest, stable := rg.aru);
    hide LogExact, LogOrdered, DeliveryMarks;
    assert DeliveryMarks(e) by { DeliveryMarksOf(d, e); }
    assert forall t :: Passed(e, t) <==> Passed(d, t);
    LogExactSame(d, e, sent);
    LogOrderedSame(d, e, sent);
  }

  /** After discarding up to the agreed stable mark and marking the holes. */
  lemma MarkedGood(c: Daemon, rg: RingInfo, sent: seq<Packet>, e: Daemon)
    requires Good(c, sent) && c.discarded == rg.aru && c.highest == rg.highest
    requires forall h :: h in rg.holes ==> rg.aru < h <= rg.highest && c.delivered < h && h !in c.packets
    requires c.threshold == BLOCK_REGULAR_DELIVERY
    requires e == c.(packets := c.packets + Dummies(rg.holes), stable := 0, evs := true)
    ensures EvsGood(e, rg, sent)
    ensures NonHoles(e.packets) == c.packets
  {
    hide LogExact, LogOrdered;
    assert forall s :: s in c.packets ==> 1 <= s <= |sent| && !c.packets[s].Hole?;
    assert NonHoles(e.packets) == c.packets;
    assert forall t :: Passed(e, t) <==> Passed(c, t);
    LogExactSame(c, e, sent);
    LogOrderedSame(c, e, sent);
  }

  /** The two ways of recounting the prefix agree, so that fatal branch is unreachable. */
  lemma RecountsAgree(c: Daemon, sent: seq<Packet>)
    requires Good(c, sent)
    ensures CountUp(c.packets, c.discarded + 1, c.highest, c.discarded) == c.received
    ensures CountDown(c.packets, c.discarded + 1, c.highest, c.received) == c.received
  {
    hide LogExact, LogOrdered, DeliveryMarks;
    CountUpIs(c.packets, c.discarded + 1, c.highest, c.discarded);
    AdvanceUnique(c.packets, c.discarded, c.highest, c.received);
    CountDownKeeps(c.packets, c.discarded + 1, c.highest, c.received);
  }

  /** The daemon after dropping and discarding, when nothing arrived late. */
  lemma Discarded(d: Daemon, rg: RingInfo, conf: Conf, sent: seq<Packet>)
    requires Fits(d, rg, sent) && forall s :: s in d.packets ==> s <= rg.highest
    ensures DropAbove(d, rg, conf).Some?
    ensures var c := Discard(DropAbove(d, rg, conf).value);
            && Good(c, sent) && !c.alarm && c.discarded == rg.aru && c.highest == rg.highest && c.delivered == Max(d.delivered, rg.aru)
            && c == d.(packets := c.packets, highest := rg.highest, stable := rg.aru, discarded := rg.aru,
                       delivered := c.delivered, log := c.log)
            && c.packets == map s | s in d.packets && rg.aru < s :: d.packets[s]
  {
    DropNothing(d, rg, conf, sent);
    var dropped := d.(highest := rg.highest, stable := rg.aru);
    HighestKnown(d, sent);
    DiscardLoopGood(dropped, sent, rg.aru);
    assert dropped.stable <= dropped.discarded ==>
      dropped.packets == map s | s in dropped.packets && rg.aru < s :: dropped.packets[s];
  }

  /** When nothing arrived late, Read_form2 succeeds: the holes are marked, everything up to the
      agreed stable mark is delivered, nothing else changes. */
  lemma ReadForm2Succeeds(d: Daemon, rg: RingInfo, conf: Conf, sent: seq<Packet>)
    requires Fits(d, rg, sent) && !Late(d, rg)
    ensures ReadForm2(d, rg, conf).Some?
    ensures var e := ReadForm2(d, rg, conf).value;
            && EvsGood(e, rg, sent) && e.id == d.id && e.received == d.received && e.stable == 0
            && (forall s :: e.discarded < s <= e.received ==> s in e.packets)
            && (forall s :: Held(d, s) ==> Held(e, s))
  {
    Discarded(d, rg, conf, sent);
    hide Good, Discard, DropAbove, MarkHoles, EvsGood;
    var c := Discard(DropAbove(d, rg, conf).value);
    MarkHolesResult(c, rg.holes, conf);
    var e := c.(packets := c.packets + Dummies(rg.holes), stable := 0, evs := true);
    MarkedGood(c, rg, sent, e);
    RecountsAgree(c, sent);
    ReadForm2Is(d, rg, conf, c);
    FullPrefix(c, sent);
    hide ReadForm2;
    forall s | Held(d, s) ensures Held(e, s) {
      assert s > c.discarded ==> s in d.packets && s in c.packets && s !in rg.holes;
    }
  }

  lemma ReadForm2Is(d: Daemon, rg: RingInfo, conf: Conf, c: Daemon)
    requires DropAbove(d, rg, conf).Some? && c == Discard(DropAbove(d, rg, conf).value) && !c.alarm
    requires MarkHoles(c, rg.holes, conf) == Some(c.(packets := c.packets + Dummies(rg.holes)))
    requires NonHoles(c.packets + Dummies(rg.holes)) == c.packets
    requires CountUp(c.packets, c.discarded + 1, c.highest, c.discarded) == c.received
    requires CountDown(c.packets, c.discarded + 1, c.highest, c.received) == c.received
    ensures ReadForm2(d, rg, conf) == Some(c.(packets := c.packets + Dummies(rg.holes), stable := 0, evs := true))
  {
    hide DropAbove, Discard, MarkHoles, Dummies, NonHoles, CountUp, CountDown;
  }

  lemma FullPrefix(d: Daemon, sent: seq<Packet>)
    requires Good(d, sent)
    ensures forall s :: d.discarded < s <= d.received ==> s in d.packets
  {}

  lemma DropsLate(d: Daemon, rg: RingInfo, conf: Conf, s: int)
    requires s in d.packets && s > rg.highest && FatalToDrop(s, d.packets[s], conf)
    ensures DropAbove(d, rg, conf).None?
  {
    var late := set x | x in d.packets && x > rg.highest;
    assert s in late;
  }

  lemma ReadForm2Fails(d: Daemon, rg: RingInfo, conf: Conf, sent: seq<Packet>)
    requires Fits(d, rg, sent) && Late(d, rg)
    requires AllConfigured(d, conf)
    ensures ReadForm2(d, rg, conf).None?
  {
    if s :| s in d.packets && s > rg.highest {
      DropsLate(d, rg, conf, s);
    } else {
      var s :| s in d.packets && s in rg.holes;
      Discarded(d, rg, conf, sent);
      MarkHolesFatal(Discard(DropAbove(d, rg, conf).value), rg.holes, conf, s);
    }
  }

  /** The whole outcome: with every sender configured, as the daemon ensures on receipt, Read_form2
      takes a fatal branch if and only if a packet arrived late. The code means to drop late packets of
      daemons that did not come along, but looks their senders up among the configured daemons. */
  lemma ReadForm2Outcome(d: Daemon, rg: RingInfo, conf: Conf, sent: seq<Packet>)
    requires Fits(d, rg, sent)
    requires AllConfigured(d, conf)
    ensures ReadForm2(d, rg, conf).None? <==> Late(d, rg)
  {
    hide Fits, ReadForm2;
    if Late(d, rg) {
      ReadForm2Fails(d, rg, conf, sent);
    } else {
      ReadForm2Succeeds(d, rg, conf, sent);
    }
  }

  // ---- While the attempt lasts ----

  lemma EvsInsert(e: Daemon, rg: RingInfo, sent: seq<Packet>, s: int, received: int)
    requires EvsGood(e, rg, sent) && Numbered(sent)
    requires rg.aru < s <= rg.highest && s !in e.packets
    ensures EvsGood(e.(packets := e.packets[s := Pending(At(sent, s))], received := received), rg, sent)
  {
    var f := e.(packets := e.packets[s := Pending(At(sent, s))], received := received);
    hide LogExact, LogOrdered;
    assert forall t :: Passed(f, t) <==> Passed(e, t);
    LogExactSame(e, f, sent);
    LogOrderedSame(e, f, sent);
  }

  /** An old-ring packet not above the agreed number arrives during recovery: it fills its slot or is
      ignored, and nothing is passed up. */
  lemma EvsReceive(e: Daemon, rg: RingInfo, sent: seq<Packet>, s: int)
    requires EvsGood(e, rg, sent) && Numbered(sent)
    requires 1 <= s <= rg.highest
    ensures var f := HandleBcast(e, At(sent, s));
            && EvsGood(f, rg, sent) && f.id == e.id && f.log == e.log && f.delivered == e.delivered
            && e.packets.Keys <= f.packets.Keys
            && (forall t :: Held(e, t) ==> Held(f, t))
  {
    var p := At(sent, s);
    var f := HandleBcast(e, p);
    if s > e.discarded && s !in e.packets {
      EvsInsert(e, rg, sent, s, f.received);
      assert f == e.(packets := e.packets[s := Pending(p)], received := f.received);
    }
  }

  lemma BackoffTable(e: Daemon, rg: RingInfo, sent: seq<Packet>)
    requires EvsTable(e, rg, sent) && DeliveryMarks(e)
    ensures var f := Backoff(e);
            && Marks(f, sent) && Table(f, sent) && DeliveryMarks(f) && f.stable == f.discarded
            && f == e.(packets := f.packets, stable := f.stable, received := f.received, evs := false)
            && (forall t :: Passed(f, t) <==> Passed(e, t))
            && (forall t :: Held(e, t) <==> Held(f, t))
            && (forall t :: t in f.packets ==> !f.packets[t].Hole?)
  {
    var f := Backoff(e);
    assert f.received >= e.delivered;
  }

  /** A failed attempt is undone: no dummy is left, the stable mark is the discarded mark, the prefix is
      the longest one above it (all part of `Good`), and no packet the daemon had is lost. */
  lemma BackoffGood(e: Daemon, rg: RingInfo, sent: seq<Packet>)
    requires EvsGood(e, rg, sent)
    ensures var f := Backoff(e);
            && Good(f, sent) && f.stable == f.discarded && !f.evs && f.threshold == BLOCK_REGULAR_DELIVERY
            && f.id == e.id && f.log == e.log && f.delivered == e.delivered
            && (forall t :: Held(e, t) <==> Held(f, t))
            && (forall t :: t in f.packets ==> !f.packets[t].Hole?)
  {
    BackoffTable(e, rg, sent);
    hide Backoff;
    hide EvsTable, DeliveryMarks, Table, Marks, LogExact, LogOrdered;
    LogExactSame(e, Backoff(e), sent);
    LogOrderedSame(e, Backoff(e), sent);
  }

  lemma HandleBcastHeld(d: Daemon, sent: seq<Packet>, p: Packet)
    requires Good(HandleBcast(d, p), sent) && d.discarded == HandleBcast(d, p).discarded
    requires d.packets.Keys <= HandleBcast(d, p).packets.Keys
    ensures forall t :: Held(d, t) ==> Held(HandleBcast(d, p), t)
  {
    hide LogExact, LogOrdered, DeliveryMarks, HandleBcast;
    var e := HandleBcast(d, p);
    forall t | Held(d, t) ensures Held(e, t) {
      if t > d.discarded {
        assert t in e.packets;
      }
    }
  }

  lemma NoHoles(d: Daemon, sent: seq<Packet>)
    requires Good(d, sent)
    ensures forall t :: t in d.packets ==> !d.packets[t].Hole?
  {}

  /** After the last delivery of the old ring a daemon is what it is at the start of a ring, but for its log. */
  lemma EvsDeliverResets(d: Daemon, commit: seq<int>)
    requires d.threshold == BLOCK_REGULAR_DELIVERY && !EvsDeliver(d, commit).alarm
    ensures EvsDeliver(d, commit).(log := []) == Init(d.id)
  {
    BeforeSignalThreshold(d);
    var b := BeforeSignal(d);
    var t := b.(log := b.log + [TransitionalSignal]);
    AfterSignalThreshold(t, commit, t.discarded + 1, false);
  }

  lemma {:induction false} BeforeSignalThreshold(d: Daemon)
    ensures BeforeSignal(d).threshold == d.threshold
    decreases d.highest - d.discarded
  {
    var s := d.discarded + 1;
    if s <= d.highest && s in d.packets && !d.packets[s].Hole? && d.packets[s].p.service != Safe {
      BeforeSignalThreshold(DiscardOne(d));
    }
  }

  lemma {:induction false} AfterSignalThreshold(d: Daemon, commit: seq<int>, s: int, foundHole: bool)
    ensures AfterSignal(d, commit, s, foundHole).threshold == d.threshold
    decreases d.highest - s
  {
    if s <= d.highest && s in d.packets {
      if d.packets[s].Hole? {
        AfterSignalThreshold(d.(packets := d.packets - {s}), commit, s + 1, true);
      } else {
        AfterSignalThreshold(AfterOne(d, commit, s, foundHole), commit, s + 1, foundHole);
      }
    }
  }
}
