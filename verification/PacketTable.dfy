/** The daemon as it runs: a circular table of packet slots and a handful of marks, updated in place.

Every method is proved against the function on values that specifies it, so the theorems about those
functions hold of this code.  That needs one thing of the callers: no packet number may lie more
than one table length above the discarded mark.  `RingTheorems.SlotSafety` shows that in a ring none
ever does. */
module PacketTable {
  import opened SpreadTypes
  import Delivery
  import FlowControl
  import TokenAru
  import RingSystem
  import RingTheorems

  const SLOTS := MAX_PACKETS_IN_STRUCT

  /** What the circular table holds, by packet number: the window of numbers just above `base`. */
  ghost function View(slots: seq<Option<Slot>>, base: int): (view: map<int, Slot>)
    requires |slots| == SLOTS
    ensures forall s :: s in view ==> base < s <= base + SLOTS
  {
    map s | base < s <= base + SLOTS && slots[s % SLOTS].Some? :: slots[s % SLOTS].value
  }

  lemma ViewPut(slots: seq<Option<Slot>>, base: int, s: int, x: Slot)
    requires |slots| == SLOTS && base < s <= base + SLOTS
    ensures View(slots[s % SLOTS := Some(x)], base) == View(slots, base)[s := x]
  {
    OthersApart(base, s);
  }

  lemma ViewClear(slots: seq<Option<Slot>>, base: int, s: int)
    requires |slots| == SLOTS && base < s <= base + SLOTS
    ensures View(slots[s % SLOTS := None], base) == View(slots, base) - {s}
  {
    OthersApart(base, s);
  }

  lemma OthersApart(base: int, s: int)
    requires base < s <= base + SLOTS
    ensures forall t :: base < t <= base + SLOTS && t % SLOTS == s % SLOTS ==> t == s
  {}

  /** The window may move up over numbers without a slot. */
  lemma ViewShift(slots: seq<Option<Slot>>, base: int, next: int)
    requires |slots| == SLOTS && base <= next <= base + SLOTS
    requires forall s :: base < s <= next ==> s !in View(slots, base)
    ensures View(slots, next) == View(slots, base)
  {
    forall s | base + SLOTS < s <= next + SLOTS ensures slots[s % SLOTS].None? {
      var t := s - SLOTS;
      assert t % SLOTS == s % SLOTS;
      assert t !in View(slots, base);
    }
  }

  lemma ViewEmpty(slots: seq<Option<Slot>>, base: int)
    requires |slots| == SLOTS
    ensures View(slots, base) == map[] <==> forall k :: 0 <= k < SLOTS ==> slots[k].None?
  {
    if k :| 0 <= k < SLOTS && slots[k].Some? {
      var s := base + 1 + (k - base - 1) % SLOTS;
      assert s % SLOTS == k;
      assert s in View(slots, base);
    }
  }

  lemma DiscardStep(d: Delivery.Daemon, upTo: int)
    requires d.discarded < upTo && d.discarded + 1 in d.packets
    ensures var s := d.discarded + 1; var e := Delivery.DiscardOne(d);
            && Delivery.DiscardLoop(d, upTo) == Delivery.DiscardLoop(e, upTo)
            && e == d.(packets := d.packets - {s}, discarded := s, delivered := Max(d.delivered, s),
                       log := d.log + if d.packets[s].Pending? then [Message(d.packets[s].p)] else [])
  {
    var s := d.discarded + 1;
    if d.packets[s].Pending? {
      assert d.packets[s := Delivered(d.packets[s].p)] - {s} == d.packets - {s};
    }
  }

  // A fatal branch once taken stays on record in the specification.

  lemma {:induction false} DiscardAlarmSticks(d: Delivery.Daemon, upTo: int)
    requires d.alarm
    ensures Delivery.DiscardLoop(d, upTo).alarm
    decreases upTo - d.discarded
  {
    if d.discarded < upTo && d.discarded + 1 in d.packets {
      DiscardAlarmSticks(Delivery.DiscardOne(d), upTo);
    }
  }

  lemma {:induction false} AgreedAlarmSticks(d: Delivery.Daemon)
    requires d.alarm
    ensures Delivery.AgreedLoop(d).alarm
    decreases d.received - d.delivered
  {
    var s := d.delivered + 1;
    if d.delivered < d.received && s in d.packets && !d.packets[s].Hole? {
      AgreedAlarmSticks((if d.packets[s].Pending? then Delivery.DeliverPacket(d, s) else d).(delivered := s));
    }
  }

  lemma {:induction false} ReliableAlarmSticks(d: Delivery.Daemon, s: int, end: int)
    requires d.alarm
    ensures Delivery.ReliableLoop(d, s, end).alarm
    decreases end - s
  {
    if s <= end {
      var deliver := s in d.packets && d.packets[s].Pending? && IsFloating(d.packets[s].p);
      ReliableAlarmSticks(if deliver then Delivery.DeliverPacket(d, s) else d, s + 1, end);
    }
  }

  lemma SettleAlarmSticks(d: Delivery.Daemon, start: int, num: int)
    ensures d.alarm ==> Delivery.DeliverAgreed(d).alarm
    ensures d.alarm ==> Delivery.DeliverReliable(d, start, num).alarm
  {
    if d.alarm {
      AgreedAlarmSticks(d);
      ReliableAlarmSticks(d, Max(start, d.delivered + 1), start + num - 1);
    }
  }

  lemma TokenAlarmSticks(m: RingSystem.Member, t: RingSystem.Token, queue: seq<RingSystem.Payload>, w: FlowControl.Windows)
    ensures var v := RingSystem.HandleToken(m, t, queue, w);
            RingSystem.TokenAlarm(m.d, t, v.sent, TokenAru.StableMark(v.t.aru, m.lastAru)) ==> v.m.d.alarm
  {
    var v := RingSystem.HandleToken(m, t, queue, w);
    var stable := TokenAru.StableMark(v.t.aru, m.lastAru);
    var e := RingSystem.Extend(m.d, t, v.sent);
    var f := e.(stable := stable, alarm := e.alarm || RingSystem.TokenAlarm(m.d, t, v.sent, stable));
    hide RingSystem.Extend, RingSystem.TokenAlarm, Delivery.DeliverAgreed, Delivery.DeliverReliable, Delivery.DiscardLoop;
    if f.alarm {
      DiscardAlarmSticks(f, f.stable);
      SettleAlarmSticks(Delivery.Discard(f), 0, 0);
      SettleAlarmSticks(Delivery.DeliverAgreed(Delivery.Discard(f)), f.highest - |v.sent| + 1, |v.sent|);
    }
  }

  lemma RequestAlarm(m: RingSystem.Member, t: RingSystem.Token, queue: seq<RingSystem.Payload>, w: FlowControl.Windows)
    requires exists r :: r in t.requests && r < m.d.stable
    ensures RingSystem.HandleToken(m, t, queue, w).m.d.alarm
  {
    hide RingSystem.HandleToken;
    TokenAlarmSticks(m, t, queue, w);
  }

  /** The token visit, step by step. */
  lemma TokenVisit(m: RingSystem.Member, t: RingSystem.Token, queue: seq<RingSystem.Payload>, w: FlowControl.Windows,
                   out: RingSystem.Token, sent: seq<Packet>, answered: nat, mark: int)
    requires !m.d.alarm && |sent| == RingSystem.SendCount(m, t, w, |queue|)
    requires sent == RingSystem.Number(m.d.id, Max(m.d.highest, t.seqNo), queue[..|sent|])
    requires forall i :: 0 <= i < |sent| ==> sent[i].seqNo !in m.d.packets
    requires forall r :: r in t.requests ==> r >= m.d.stable
    requires answered == RingSystem.Answered(m.d.packets, t.requests)
    requires var e := RingSystem.Extend(m.d, t, sent);
             var takesOver := t.aru > e.received || t.lastId == m.d.id || t.aru == t.seqNo;
             out == RingSystem.Token(if takesOver then e.received else t.aru, if takesOver then m.d.id else t.lastId,
               e.highest, t.flow - m.retrans - m.numSent + answered + |sent|,
               RingSystem.Missing(e.packets, e.received, if w.accelerated then m.lastSeq else e.highest, RingSystem.MAX_REQUESTS))
    requires mark == if out.aru > m.lastAru then m.lastAru else out.aru
    ensures var v := RingSystem.HandleToken(m, t, queue, w);
            && v.t == out && v.sent == sent
            && (mark < m.d.stable ==> v.m.d.alarm)
            && (mark >= m.d.stable ==>
                  var e := RingSystem.Extend(m.d, t, sent);
                  var f := Delivery.DeliverAgreed(Delivery.Discard(e.(stable := mark)));
                  v.m == RingSystem.Member(Delivery.DeliverReliable(f, e.highest - |sent| + 1, |sent|),
                                           out.aru, e.highest, answered, |sent|, m.snapshot))
  {
    hide RingSystem.Number, RingSystem.SendCount, RingSystem.Missing, RingSystem.Answered, RingSystem.Extend,
      RingSystem.TokenAlarm, Delivery.Discard, Delivery.DeliverAgreed, Delivery.DeliverReliable;
    TokenAlarmSticks(m, t, queue, w);
    AlarmOnlyIfLowered(m.d, t, sent, mark);
    var e := RingSystem.Extend(m.d, t, sent);
    assert mark >= m.d.stable ==> e.(stable := mark) == e.(stable := mark, alarm := e.alarm || RingSystem.TokenAlarm(m.d, t, sent, mark));
  }

  lemma AlarmOnlyIfLowered(d: Delivery.Daemon, t: RingSystem.Token, sent: seq<Packet>, mark: int)
    requires forall i :: 0 <= i < |sent| ==> sent[i].seqNo !in d.packets
    requires forall r :: r in t.requests ==> r >= d.stable
    ensures RingSystem.TokenAlarm(d, t, sent, mark) <==> mark < d.stable
    ensures RingSystem.Extend(d, t, sent).alarm == d.alarm
  {}

  class ProtocolState {
    const id: int
    const slots: array<Option<Slot>>
    var received: int
    var stable: int
    var highest: int
    var discarded: int
    var delivered: int
    var threshold: nat
    var evs: bool
    var log: seq<Event>
    var alarm: bool
    // what the daemon remembers of the token it passed on last
    var lastAru: int
    var lastSeq: int
    var lastRetrans: nat
    var lastSent: nat

    /** What holds of the table at all times; during recovery `received` may be a number above everything real. */
    ghost predicate Windowed()
      reads this, slots
    {
      && slots.Length == SLOTS
      && discarded <= delivered && discarded <= highest <= discarded + SLOTS
      && forall s :: s in Table() ==> s <= highest
    }

    ghost predicate Valid()
      reads this, slots
    {
      Windowed() && discarded <= received <= highest
    }

    ghost function Table(): map<int, Slot>
      requires slots.Length == SLOTS
      reads this, slots
    {
      View(slots[..], discarded)
    }

    /** The daemon as a value. */
    ghost function Model(): Delivery.Daemon
      requires slots.Length == SLOTS
      reads this, slots
    {
      Delivery.Daemon(id, Table(), received, stable, highest, discarded, delivered, threshold, evs, log, alarm)
    }

    /** The state is the one the specification asks for; after a fatal branch the daemon has exited. */
    ghost predicate Is(d: Delivery.Daemon)
      reads this, slots
    {
      alarm == d.alarm && (!alarm ==> Valid() && Model() == d)
    }

    /** The same during recovery. */
    ghost predicate IsInRecovery(d: Delivery.Daemon)
      reads this, slots
    {
      alarm == d.alarm && (!alarm ==> Windowed() && Model() == d)
    }

    constructor (id: int)
      ensures Valid() && Model() == Delivery.Init(id) && fresh(slots)
      ensures lastAru == 0 && lastSeq == 0 && lastRetrans == 0 && lastSent == 0
    {
      this.id := id;
      slots := new Option<Slot>[SLOTS](_ => None);
      received, stable, highest, discarded, delivered := 0, 0, 0, 0, 0;
      threshold, evs, log, alarm := BLOCK_REGULAR_DELIVERY, false, [], false;
      lastAru, lastSeq, lastRetrans, lastSent := 0, 0, 0, 0;
      new;
      ViewEmpty(slots[..], 0);
    }

    /** The slot for a number in the window. */
    function Entry(s: int): (x: Option<Slot>)
      requires slots.Length == SLOTS && discarded < s <= discarded + SLOTS
      reads this, slots
      ensures x.Some? <==> s in Table()
      ensures x.Some? ==> x.value == Table()[s]
    {
      slots[s % SLOTS]
    }

    method Put(s: int, x: Slot)
      requires slots.Length == SLOTS && discarded < s <= discarded + SLOTS
      modifies slots
      ensures Table() == old(Table())[s := x]
    {
      ViewPut(slots[..], discarded, s, x);
      ghost var before := slots[..];
      slots[s % SLOTS] := Some(x);
      assert slots[..] == before[s % SLOTS := Some(x)];
    }

    method Clear(s: int)
      requires slots.Length == SLOTS && discarded < s <= discarded + SLOTS
      modifies slots
      ensures Table() == old(Table()) - {s}
    {
      ViewClear(slots[..], discarded, s);
      ghost var before := slots[..];
      slots[s % SLOTS] := None;
      assert slots[..] == before[s % SLOTS := None];
    }

    method MoveWindow(next: int)
      requires slots.Length == SLOTS && discarded <= next <= discarded + SLOTS
      requires forall s :: discarded < s <= next ==> s !in Table()
      modifies this`discarded
      ensures discarded == next && Table() == old(Table())
    {
      assert Table() == View(slots[..], discarded);
      ViewShift(slots[..], discarded, next);
      discarded := next;
    }

    method Pass(s: int)
      requires slots.Length == SLOTS && discarded < s <= discarded + SLOTS && s in Table() && Table()[s].Pending?
      modifies slots, this`log
      ensures Model() == Delivery.DeliverPacket(old(Model()), s)
    {
      var p := Entry(s).value.p;
      Put(s, Delivered(p));
      log := log + [Message(p)];
    }

    method AdvanceReceived()
      requires Windowed() && discarded <= received
      modifies this`received
      ensures Windowed() && received == Delivery.Advance(Table(), old(received), highest)
      ensures old(Valid()) ==> Valid()
    {
      while received + 1 <= highest
        invariant old(received) <= received && (received <= highest || received == old(received))
        invariant Delivery.Advance(Table(), received, highest) == Delivery.Advance(Table(), old(received), highest)
      {
        if Entry(received + 1).None? { break; }
        received := received + 1;
      }
    }

    /** One turn of the agreed loop; false when it ends here. */
    method DeliverNext() returns (more: bool)
      requires Windowed() && !alarm && delivered < received <= highest
      modifies this`delivered, this`alarm, slots, this`log
      ensures more ==> Windowed() && !alarm && delivered == old(delivered) + 1
      ensures more ==> Delivery.AgreedLoop(Model()) == Delivery.AgreedLoop(old(Model()))
      ensures !more ==> IsInRecovery(Delivery.AgreedLoop(old(Model())))
    {
      hide View;
      var s := delivered + 1;
      var x := Entry(s);
      if x.None? || x.value.Hole? {
        alarm := true;
        return false;
      }
      if x.value.Pending? {
        if x.value.p.service == Safe { return false; }
        Pass(s);
      } else if ServiceBit(x.value.p.service) >= ServiceBit(Agreed) {
        alarm := true;
        return false;
      }
      delivered := s;
      more := true;
    }

    method DeliverAgreed()
      requires Windowed() && !alarm && (evs || received <= highest)
      modifies this`delivered, this`alarm, slots, this`log
      ensures IsInRecovery(Delivery.DeliverAgreed(old(Model())))
      ensures old(Valid()) ==> Is(Delivery.DeliverAgreed(old(Model())))
    {
      if received <= delivered || evs || threshold > ServiceBit(Agreed) { return; }
      hide View;
      while delivered < received
        invariant Windowed() && !alarm && received <= highest
        invariant Delivery.AgreedLoop(Model()) == Delivery.AgreedLoop(old(Model()))
        decreases received - delivered
      {
        var more := DeliverNext();
        if !more { return; }
      }
    }

    method DeliverReliable(start: int, num: int)
      requires Windowed() && !alarm && start + num - 1 <= highest
      modifies this`alarm, slots, this`log
      ensures IsInRecovery(Delivery.DeliverReliable(old(Model()), start, num))
      ensures old(Valid()) ==> Is(Delivery.DeliverReliable(old(Model()), start, num))
    {
      if evs || threshold > ServiceBit(Reliable) { return; }
      var s := Max(start, delivered + 1);
      var end := start + num - 1;
      while s <= end
        invariant Windowed() && !alarm && s > discarded && highest == old(highest)
        invariant Delivery.ReliableLoop(Model(), s, end) ==
                  Delivery.ReliableLoop(old(Model()), Max(start, old(delivered) + 1), end)
      {
        var x := Entry(s);
        if x.Some? && x.value.Pending? && IsFloating(x.value.p) {
          Pass(s);
        }
        s := s + 1;
      }
    }

    /** Empties a slot, passing its packet up first if it has to be. */
    method Free(s: int, pass: bool)
      requires Valid() && discarded < s <= highest && s in Table() && (pass ==> Table()[s].Pending?)
      modifies slots, this`log
      ensures Valid() && Table() == old(Table()) - {s}
      ensures log == old(log) + if pass then [Message(old(Table())[s].p)] else []
    {
      if pass {
        Pass(s);
      }
      Clear(s);
    }

    /** The table while discarding: the slots up to `done` are free, the discarded mark has not moved yet. */
    ghost predicate Freed(done: int)
      reads this, slots
    {
      Valid() && discarded <= done <= received && forall s :: discarded < s <= done ==> s !in Table()
    }

    /** The value the discarded mark will make of it. */
    ghost function Ahead(done: int): Delivery.Daemon
      requires slots.Length == SLOTS
      reads this, slots
    {
      Model().(discarded := done, delivered := Max(delivered, done))
    }

    method DiscardNext(done: int)
      requires Freed(done) && !alarm && done < received
      modifies this`alarm, slots, this`log
      ensures alarm <==> done + 1 !in old(Table())
      ensures !alarm ==> Freed(done + 1)
      ensures !alarm ==> forall upTo :: done < upTo ==>
                Delivery.DiscardLoop(old(Ahead(done)), upTo) == Delivery.DiscardLoop(Ahead(done + 1), upTo)
    {
      var x := Entry(done + 1);
      if x.None? {
        alarm := true;
        return;
      }
      ghost var view := Ahead(done);
      Free(done + 1, x.value.Pending?);
      forall upTo | done < upTo
        ensures Delivery.DiscardLoop(view, upTo) == Delivery.DiscardLoop(Ahead(done + 1), upTo)
      {
        DiscardStep(view, upTo);
      }
    }

    /** Delivers what everybody has received and frees its slots, outside recovery. */
    method Discard()
      requires Valid() && !alarm && stable <= received
      modifies this`discarded, this`delivered, this`alarm, slots, this`log
      ensures Is(Delivery.Discard(old(Model())))
      ensures !alarm ==> discarded == Max(old(discarded), stable)
    {
      hide View, Delivery.DiscardOne;
      if stable <= discarded { return; }
      var done := discarded;
      assert Ahead(done) == Model();
      while done < stable
        modifies this`alarm, slots, this`log
        invariant !alarm && done <= stable && Freed(done)
        invariant Delivery.DiscardLoop(Ahead(done), stable) == Delivery.DiscardLoop(old(Model()), stable)
      {
        DiscardNext(done);
        if alarm { return; }
        done := done + 1;
      }
      MoveWindow(stable);
      if delivered < discarded {
        delivered := discarded;
      }
    }

    /** A regular packet of the daemon's own ring arrives, in operation or in recovery, before or after the daemon
        took its prefix for complete. */
    method HandleBcast(p: Packet)
      requires Windowed() && !alarm && (evs || received <= highest) && p.seqNo <= discarded + SLOTS
      modifies this`received, this`highest, this`delivered, this`alarm, slots, this`log
      ensures IsInRecovery(Delivery.HandleBcast(old(Model()), p))
      ensures old(Valid()) ==> Is(Delivery.HandleBcast(old(Model()), p))
    {
      if p.seqNo <= discarded { return; }
      var x := Entry(p.seqNo);
      if x.Some? { return; }
      Put(p.seqNo, Pending(p));
      if highest < p.seqNo {
        highest := p.seqNo;
      }
      if p.seqNo == received + 1 {
        AdvanceReceived();
        DeliverAgreed();
      } else {
        DeliverReliable(p.seqNo, 1);
      }
    }

    // ---- The token ----

    ghost function AsMember(): RingSystem.Member
      requires slots.Length == SLOTS
      reads this, slots
    {
      RingSystem.Member(Model(), lastAru, lastSeq, lastRetrans, lastSent, None)
    }

    /** Answers the requests it can; a request below the stable mark is fatal. */
    method AnswerRequests(requests: seq<int>) returns (answered: nat)
      requires Valid() && !alarm
      requires forall r :: r in requests ==> r < stable || discarded < r <= discarded + SLOTS
      modifies this`alarm
      ensures alarm <==> exists r :: r in requests && r < stable
      ensures !alarm ==> answered == RingSystem.Answered(Table(), requests)
    {
      answered := 0;
      for i := 0 to |requests|
        invariant !alarm && forall r :: r in requests[..i] ==> r >= stable
        invariant answered + RingSystem.Answered(Table(), requests[i..]) == RingSystem.Answered(Table(), requests)
      {
        var r := requests[i];
        assert r in requests;
        if r < stable {
          alarm := true;
          return;
        }
        var x := Entry(r);
        if x.Some? {
          answered := answered + 1;
        }
        assert requests[i..][0] == r && requests[i..][1..] == requests[i + 1..];
        assert requests[..i + 1] == requests[..i] + [r];
      }
      assert requests[..|requests|] == requests;
    }

    /** Gives a packet the next number. No number above `highest` has a slot, so the fatal branch for a
        slot that is taken cannot be reached. */
    method SendOne(load: RingSystem.Payload) returns (p: Packet)
      requires Valid() && highest < discarded + SLOTS
      modifies slots, this`highest
      ensures Valid() && highest == old(highest) + 1 && highest !in old(Table())
      ensures p == Packet(highest, id, load.service, load.first, load.rest)
      ensures Table() == old(Table())[highest := Pending(p)]
    {
      p := Packet(highest + 1, id, load.service, load.first, load.rest);
      assert Entry(highest + 1).None?;
      Put(highest + 1, Pending(p));
      highest := highest + 1;
    }

    /** Numbers packets for the front of the queue. */
    method SendNew(queue: seq<RingSystem.Payload>, num: nat) returns (ps: seq<Packet>)
      requires Valid() && num <= |queue| && highest + num <= discarded + SLOTS
      modifies slots, this`highest
      ensures Valid() && ps == RingSystem.Number(id, old(highest), queue[..num])
      ensures highest == old(highest) + num && Table() == RingSystem.AddPending(old(Table()), old(highest), ps)
      ensures forall i :: 0 <= i < num ==> ps[i].seqNo !in old(Table())
    {
      hide View, RingSystem.AddPending;
      ps := [];
      AddNone(Table(), highest);
      while |ps| < num
        invariant Valid() && |ps| <= num && highest == old(highest) + |ps|
        invariant ps == RingSystem.Number(id, old(highest), queue[..|ps|])
        invariant Table() == RingSystem.AddPending(old(Table()), old(highest), ps)
      {
        var load := queue[|ps|];
        var p := SendOne(load);
        AddOne(old(Table()), old(highest), ps, p);
        NumberOne(id, old(highest), queue, |ps|);
        ps := ps + [p];
      }
    }

    /** The numbers it misses, as many as fit on the token. */
    method Request(limit: int) returns (ms: seq<int>)
      requires Valid() && limit <= highest
      ensures ms == RingSystem.Missing(Table(), received, limit, RingSystem.MAX_REQUESTS)
    {
      ms := [];
      var room: nat := RingSystem.MAX_REQUESTS;
      var i := received + 1;
      assert [] + RingSystem.Missing(Table(), received, limit, room) == RingSystem.Missing(Table(), received, limit, room);
      while i <= limit && room > 0
        invariant received < i
        invariant ms + RingSystem.Missing(Table(), i - 1, limit, room)
               == RingSystem.Missing(Table(), received, limit, RingSystem.MAX_REQUESTS)
        decreases limit - i
      {
        var x := Entry(i);
        if x.None? {
          assert ms + ([i] + RingSystem.Missing(Table(), i, limit, room - 1))
              == ms + [i] + RingSystem.Missing(Table(), i, limit, room - 1);
          ms := ms + [i];
          room := room - 1;
        }
        i := i + 1;
      }
    }

    /** Raises the highest number to the token's, sends what flow control allows, extends the prefix. */
    method SendAllowed(t: RingSystem.Token, queue: seq<RingSystem.Payload>, w: FlowControl.Windows)
      returns (sent: seq<Packet>)
      requires Valid() && !alarm && stable == discarded && t.seqNo <= discarded + SLOTS
      requires MAX_SEQ_GAP + (if w.window <= w.personal then w.window else w.personal) <= SLOTS
      modifies this`received, this`highest, slots
      ensures Valid() && highest >= old(highest)
      ensures |sent| == RingSystem.SendCount(old(AsMember()), t, w, |queue|)
      ensures sent == RingSystem.Number(id, Max(old(highest), t.seqNo), queue[..|sent|])
      ensures Model() == RingSystem.Extend(old(Model()), t, sent)
      ensures forall i :: 0 <= i < |sent| ==> sent[i].seqNo !in old(Table())
    {
      hide View, RingSystem.Number, RingSystem.AddPending, Delivery.Advance;
      if highest < t.seqNo {
        highest := t.seqNo;
      }
      var allowed := FlowControl.Allowed(w, evs, t.flow, highest, stable);
      var n: nat := if allowed <= 0 then 0 else if allowed <= |queue| then allowed else |queue|;
      sent := SendNew(queue, n);
      AdvanceReceived();
    }

    /** The marks that the daemon writes on the token. */
    method Rewrite(t: RingSystem.Token, w: FlowControl.Windows, answered: nat, num: nat) returns (out: RingSystem.Token)
      requires Valid() && lastSeq <= highest
      ensures var takesOver := t.aru > received || t.lastId == id || t.aru == t.seqNo;
              out == RingSystem.Token(if takesOver then received else t.aru, if takesOver then id else t.lastId,
                highest, t.flow - lastRetrans - lastSent + answered + num,
                RingSystem.Missing(Table(), received, if w.accelerated then lastSeq else highest, RingSystem.MAX_REQUESTS))
      ensures out.aru <= received
    {
      hide View, RingSystem.Missing;
      var requests := Request(if w.accelerated then lastSeq else highest);
      var takesOver := t.aru > received || t.lastId == id || t.aru == t.seqNo;
      out := RingSystem.Token(
        if takesOver then received else t.aru, if takesOver then id else t.lastId, highest,
        t.flow - lastRetrans - lastSent + answered + num, requests);
    }

    /** What the daemon does with the token in the operational state. */
    method HandleToken(t: RingSystem.Token, queue: seq<RingSystem.Payload>, w: FlowControl.Windows)
      returns (out: RingSystem.Token, sent: seq<Packet>)
      requires Valid() && !alarm && !evs && stable == discarded && lastSeq <= highest
      requires t.seqNo <= discarded + SLOTS
      requires MAX_SEQ_GAP + (if w.window <= w.personal then w.window else w.personal) <= SLOTS
      requires forall r :: r in t.requests ==> r < stable || discarded < r <= discarded + SLOTS
      modifies this, slots
      ensures var v := RingSystem.HandleToken(old(AsMember()), t, queue, w);
              && alarm == v.m.d.alarm
              && (!alarm ==> Valid() && AsMember() == v.m && out == v.t && sent == v.sent)
    {
      hide View, RingSystem.Number, RingSystem.SendCount, RingSystem.Extend, RingSystem.Missing, RingSystem.Answered,
        RingSystem.HandleToken, RingSystem.TokenAlarm, Delivery.Discard, Delivery.DeliverAgreed, Delivery.DeliverReliable;
      ghost var m := AsMember();
      var answered := AnswerRequests(t.requests);
      out, sent := t, [];
      if alarm {
        RequestAlarm(m, t, queue, w);
        return;
      }
      sent := SendAllowed(t, queue, w);
      out := Rewrite(t, w, answered, |sent|);
      var mark := if out.aru > lastAru then lastAru else out.aru;
      TokenVisit(m, t, queue, w, out, sent, answered, mark);
      hide RingSystem.AddPending;
      if mark < stable {
        alarm := true;
        return;
      }
      lastAru, lastSeq, lastRetrans, lastSent := out.aru, highest, answered, |sent|;
      Settle(mark, |sent|);
    }

    /** The new stable mark and the deliveries at the end of a token visit. */
    method Settle(mark: int, num: nat)
      requires Valid() && !alarm && mark <= received
      modifies this`stable, this`discarded, this`delivered, this`alarm, slots, this`log
      ensures var d := Delivery.Discard(old(Model()).(stable := mark));
              Is(Delivery.DeliverReliable(Delivery.DeliverAgreed(d), highest - num + 1, num))
    {
      hide View, Delivery.Discard, Delivery.DeliverAgreed, Delivery.DeliverReliable;
      ghost var d := Delivery.Discard(Model().(stable := mark));
      SettleAlarmSticks(d, highest - num + 1, num);
      SettleAlarmSticks(Delivery.DeliverAgreed(d), highest - num + 1, num);
      stable := mark;
      Discard();
      if alarm { return; }
      DeliverAgreed();
      if alarm { return; }
      DeliverReliable(highest - num + 1, num);
    }
  }

  lemma AddNone(packets: map<int, Slot>, from: int)
    ensures RingSystem.AddPending(packets, from, []) == packets
  {}

  lemma NumberOne(id: int, from: int, queue: seq<RingSystem.Payload>, k: nat)
    requires k < |queue|
    ensures RingSystem.Number(id, from, queue[..k + 1]) == RingSystem.Number(id, from, queue[..k]) +
              [Packet(from + k + 1, id, queue[k].service, queue[k].first, queue[k].rest)]
  {}

  lemma AddOne(packets: map<int, Slot>, from: int, ps: seq<Packet>, p: Packet)
    ensures RingSystem.AddPending(packets, from, ps + [p])
         == RingSystem.AddPending(packets, from, ps)[from + |ps| + 1 := Pending(p)]
  {
    var more := ps + [p];
    forall s | from < s <= from + |more| ensures RingSystem.Fresh(from, more, s) ==
      if s <= from + |ps| then RingSystem.Fresh(from, ps, s) else p {}
  }

  /** What the methods ask of their callers holds of every daemon in every run: numbers that arrive, the
      token's number and the requests on it all lie in the daemon's window. */
  lemma RunsStayInWindow(sys: RingSystem.System, maxAllowed: nat, i: nat)
    requires RingTheorems.Reachable(sys, maxAllowed) && i < |sys.ring|
    requires MAX_SEQ_GAP + maxAllowed <= SLOTS
    ensures var m := sys.ring[i]; var d := m.d;
            && !d.alarm && !d.evs && d.stable == d.discarded <= d.delivered <= d.received <= d.highest <= d.discarded + SLOTS
            && (forall s :: s in d.packets ==> d.discarded < s <= d.highest)
            && |sys.sent| <= d.discarded + SLOTS && sys.token.seqNo <= d.discarded + SLOTS && m.lastSeq <= d.highest
            && (forall r :: r in sys.token.requests ==> d.discarded < r <= d.discarded + SLOTS)
  {
    RingTheorems.ReachableInv(sys, maxAllowed);
    RingTheorems.MarksOf(sys, maxAllowed, i, i);
    hide RingTheorems.Reachable, TokenAru.Inv, Delivery.LogExact, Delivery.LogOrdered, Delivery.DeliveryMarks;
  }
}
