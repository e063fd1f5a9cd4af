/** The membership protocol's work on the packet table, in place: what a daemon writes on the FORM1
token, what it does to its table when FORM2 comes back, and how it backs off or installs the new ring.

Each method is proved against the function of the same name in FormToken or Recovery. */
module MembershipTable {
  import opened SpreadTypes
  import opened PacketTable
  import Delivery
  import FormToken
  import Recovery
  import EvsBarrier
  import Formations
  import RingSystem
  import RingTheorems
  import TokenAru
  import VirtualSynchrony

  // ---- FORM1 ----

  /** The numbers above `from` that have no slot. */
  method Gaps(s: ProtocolState, from: int) returns (gaps: seq<int>)
    requires s.Valid() && s.discarded <= from
    ensures gaps == FormToken.Gaps(s.Table(), from, s.highest)
  {
    hide View, FormToken.Ascending;
    gaps := [];
    var i := from + 1;
    while i <= s.highest
      invariant from < i && (i <= s.highest + 1 || i == from + 1)
      invariant gaps == FormToken.Gaps(s.Table(), from, i - 1)
    {
      var x := s.Entry(i);
      if x.None? {
        gaps := gaps + [i];
      }
      i := i + 1;
    }
  }

  method Without(procs: seq<int>, id: int) returns (r: seq<int>)
    ensures r == FormToken.Without(procs, id)
  {
    hide FormToken.Without;
    r := [];
    for i := 0 to |procs|
      invariant r + FormToken.Without(procs[i..], id) == FormToken.Without(procs, id)
    {
      WithoutNext(procs[i..], id);
      assert procs[i..][1..] == procs[i + 1..];
      if procs[i] != id {
        r := r + [procs[i]];
      }
    }
    WithoutNext([], id);
  }

  lemma WithoutNext(procs: seq<int>, id: int)
    ensures procs == [] ==> FormToken.Without(procs, id) == []
    ensures procs != [] ==>
              FormToken.Without(procs, id) == (if procs[0] == id then [] else [procs[0]]) + FormToken.Without(procs[1..], id)
  {}

  ghost function AsContributor(s: ProtocolState, commit: seq<int>): FormToken.Contributor
    requires s.slots.Length == SLOTS
    reads s, s.slots
  {
    FormToken.Contributor(s.Model(), commit)
  }

  method Create(s: ProtocolState, commit: seq<int>) returns (rg: FormToken.RingInfo)
    requires s.Valid()
    ensures rg == FormToken.Create(AsContributor(s, commit))
  {
    var gaps := Gaps(s, s.received);
    var others := Without(commit, s.id);
    rg := FormToken.RingInfo(s.stable, s.highest, gaps, [s.id] + others, 1);
  }

  method InsertMember(procs: seq<int>, id: int) returns (r: seq<int>)
    ensures r == FormToken.InsertMember(procs, id)
  {
    for i := 0 to |procs|
      invariant id !in procs[..i]
    {
      if procs[i] == id {
        return procs;
      }
    }
    assert procs[..|procs|] == procs;
    r := if |procs| == MAX_PROCS_RING then procs else procs + [id];
  }

  method InsertAll(procs: seq<int>, ids: seq<int>) returns (r: seq<int>)
    ensures r == FormToken.InsertAll(procs, ids)
  {
    r := procs;
    for i := 0 to |ids|
      invariant FormToken.InsertAll(r, ids[i..]) == FormToken.InsertAll(procs, ids)
    {
      assert ids[i..][0] == ids[i] && ids[i..][1..] == ids[i + 1..];
      r := InsertMember(r, ids[i]);
    }
  }

  /** The holes of the entry that this daemon cannot fill either. A hole at or below its discarded mark
      it has seen, so the caller leaves those out. */
  method StillMissing(s: ProtocolState, holes: seq<int>) returns (r: seq<int>)
    requires s.Valid() && forall h :: h in holes ==> s.discarded < h <= s.discarded + SLOTS
    ensures r == FormToken.StillMissing(s.Table(), holes)
  {
    r := [];
    assert holes[..0] == [];
    for i := 0 to |holes|
      invariant r == FormToken.StillMissing(s.Table(), holes[..i])
    {
      assert holes[i] in holes;
      var x := s.Entry(holes[i]);
      if x.None? {
        r := r + [holes[i]];
      }
      assert holes[..i + 1] == holes[..i] + [holes[i]];
      assert holes[..i + 1][..i] == holes[..i];
    }
    assert holes[..|holes|] == holes;
  }

  /** In a ring the requirements of `Fill` hold of every daemon that the token visits next. */
  lemma HolesAboveDiscarded(before: seq<FormToken.Contributor>, c: FormToken.Contributor, rg: FormToken.RingInfo,
                            sent: seq<Packet>)
    requires before != [] && FormToken.Comparable(before + [c], sent) && FormToken.Exact(rg, before)
    ensures c.d.discarded <= rg.highest <= |sent| && forall h :: h in rg.holes ==> c.d.discarded < h <= |sent|
  {
    hide Delivery.LogExact, Delivery.LogOrdered, Delivery.DeliveryMarks;
    var cs := before + [c];
    assert cs[|before|] == c && cs[0] == before[0];
    assert forall k :: 0 <= k < |before| ==> cs[k] == before[k] && Delivery.Good(cs[k].d, sent);
    forall h | h in rg.holes ensures c.d.discarded < h {
      assert !Delivery.Held(before[0].d, h);
      FormToken.HeldIsSlot(before[0].d, sent, h);
    }
  }

  method Fill(s: ProtocolState, rg: FormToken.RingInfo, commit: seq<int>) returns (out: Option<FormToken.RingInfo>)
    requires s.Valid() && rg.numTrans <= |rg.procs| && s.discarded <= rg.highest
    requires forall h :: h in rg.holes ==> s.discarded < h <= s.discarded + SLOTS
    ensures out == FormToken.Fill(rg, AsContributor(s, commit))
  {
    hide View, FormToken.StillMissing, FormToken.Gaps, FormToken.InsertAll, FormToken.InsertMember;
    var aru := if rg.aru > s.stable then rg.aru else s.stable;
    var highest := if rg.highest > s.highest then rg.highest else s.highest;
    var missing := StillMissing(s, rg.holes);
    var gaps := Gaps(s, rg.highest);
    var trans := InsertAll([], rg.procs[..rg.numTrans]);
    trans := InsertMember(trans, s.id);
    if |trans| != rg.numTrans + 1 {
      return None;
    }
    var procs := InsertAll(trans, rg.procs[rg.numTrans..]);
    procs := InsertAll(procs, commit);
    out := Some(FormToken.RingInfo(aru, highest, missing + gaps, procs, rg.numTrans + 1));
  }

  // ---- FORM2 ----

  /** Counts `highest` down to the agreed number, throwing away what lies above it. */
  method DropAbove(s: ProtocolState, rg: FormToken.RingInfo, conf: Recovery.Conf) returns (ok: bool)
    requires s.Valid() && s.discarded <= rg.highest <= s.discarded + SLOTS
    modifies s, s.slots
    ensures var r := Recovery.DropAbove(old(s.Model()), rg, conf);
            ok == r.Some? && (ok ==> s.Valid() && s.Model() == r.value)
  {
    hide View, Recovery.DropAbove, Recovery.FatalToDrop;
    ok := true;
    ghost var d := s.Model();
    while s.highest > rg.highest
      invariant s.slots.Length == SLOTS && s.discarded <= rg.highest && s.highest <= s.discarded + SLOTS
      invariant s.highest >= rg.highest || s.highest == d.highest
      invariant s.Model() == d.(packets := s.Table(), highest := s.highest)
      invariant s.Table() == map n | n in d.packets && n <= s.highest :: d.packets[n]
      invariant forall n :: n in d.packets && n > s.highest ==> !Recovery.FatalToDrop(n, d.packets[n], conf)
    {
      var x := s.Entry(s.highest);
      if x.Some? {
        if Recovery.FatalToDrop(s.highest, x.value, conf) {
          DroppedFatally(d, rg, conf, s.highest);
          return false;
        }
        s.Clear(s.highest);
      }
      s.highest := s.highest - 1;
    }
    if s.received > rg.highest {
      s.received := rg.highest;
    }
    s.highest := rg.highest;
    s.stable := rg.aru;
    Dropped(d, rg, conf, s.Table());
  }

  lemma Dropped(d: Delivery.Daemon, rg: FormToken.RingInfo, conf: Recovery.Conf, rest: map<int, Slot>)
    requires forall n :: n in d.packets && n > rg.highest ==> !Recovery.FatalToDrop(n, d.packets[n], conf)
    requires rest == map n | n in d.packets && n <= rg.highest :: d.packets[n]
    ensures Recovery.DropAbove(d, rg, conf) ==
      Some(d.(packets := rest, highest := rg.highest, stable := rg.aru,
              received := if d.received > rg.highest then rg.highest else d.received))
  {
    var late := set n | n in d.packets && n > rg.highest;
    assert d.packets - late == rest;
  }

  lemma DroppedFatally(d: Delivery.Daemon, rg: FormToken.RingInfo, conf: Recovery.Conf, n: int)
    requires n in d.packets && n > rg.highest && Recovery.FatalToDrop(n, d.packets[n], conf)
    ensures Recovery.DropAbove(d, rg, conf).None?
  {
    assert n in set k | k in d.packets && k > rg.highest;
  }

  /** Marks every hole with a dummy. */
  method MarkHoles(s: ProtocolState, holes: seq<int>, conf: Recovery.Conf) returns (ok: bool)
    requires s.Valid() && forall h :: h in holes ==> s.discarded < h <= s.highest
    modifies s.slots
    ensures var r := Recovery.MarkHoles(old(s.Model()), holes, conf);
            ok == r.Some? && (ok ==> s.Valid() && s.Model() == r.value)
  {
    hide View, Recovery.FatalToDrop;
    ok := true;
    for i := 0 to |holes|
      invariant s.Valid()
      invariant Recovery.MarkHoles(s.Model(), holes[i..], conf) == Recovery.MarkHoles(old(s.Model()), holes, conf)
    {
      assert holes[i..][0] == holes[i] && holes[i..][1..] == holes[i + 1..] && holes[i] in holes;
      var x := s.Entry(holes[i]);
      if x.Some? && Recovery.FatalToDrop(holes[i], x.value, conf) {
        return false;
      }
      s.Put(holes[i], Hole);
    }
  }

  /** Counts the prefix in both ways at once. */
  method Recount(s: ProtocolState) returns (up: int, down: int)
    requires s.Valid()
    ensures var filled := Recovery.NonHoles(s.Table());
            && up == Recovery.CountUp(filled, s.discarded + 1, s.highest, s.discarded)
            && down == Recovery.CountDown(filled, s.discarded + 1, s.highest, s.received)
    ensures s.discarded <= up <= s.highest
  {
    hide View;
    ghost var filled := Recovery.NonHoles(s.Table());
    up, down := s.discarded, s.received;
    var i := s.discarded + 1;
    while i <= s.highest
      invariant s.discarded <= up < i <= s.highest + 1
      invariant Recovery.CountUp(filled, i, s.highest, up)
             == Recovery.CountUp(filled, s.discarded + 1, s.highest, s.discarded)
      invariant Recovery.CountDown(filled, i, s.highest, down)
             == Recovery.CountDown(filled, s.discarded + 1, s.highest, s.received)
    {
      var x := s.Entry(i);
      assert i in filled <==> x.Some? && !x.value.Hole?;
      if x.Some? && !x.value.Hole? {
        if i == up + 1 {
          up := i;
        }
      } else if down >= i {
        down := i - 1;
      }
      i := i + 1;
    }
  }

  /** Read_form2; `ok` is false when one of its fatal branches ended the daemon. */
  method ReadForm2(s: ProtocolState, rg: FormToken.RingInfo, conf: Recovery.Conf) returns (ok: bool)
    requires s.Valid() && !s.alarm && s.discarded <= rg.aru <= rg.highest <= s.discarded + SLOTS
    requires rg.aru <= s.received && forall h :: h in rg.holes ==> rg.aru < h <= rg.highest
    modifies s, s.slots
    ensures var r := Recovery.ReadForm2(old(s.Model()), rg, conf);
            ok == r.Some? && (ok ==> s.Valid() && s.Model() == r.value)
  {
    hide View, Recovery.DropAbove, Recovery.MarkHoles, Delivery.Discard, Recovery.CountUp, Recovery.CountDown;
    ok := DropAbove(s, rg, conf);
    if !ok { return; }
    DropKeeps(old(s.Model()), rg, conf);
    s.Discard();
    if s.alarm { return false; }
    ghost var c := s.Model();
    ok := MarkHoles(s, rg.holes, conf);
    if !ok { return; }
    MarkKeeps(c, rg.holes, conf);
    var up, down := Recount(s);
    if up != down { return false; }
    s.received, s.stable, s.evs := up, 0, true;
  }

  lemma DropKeeps(d: Delivery.Daemon, rg: FormToken.RingInfo, conf: Recovery.Conf)
    requires Recovery.DropAbove(d, rg, conf).Some?
    ensures var e := Recovery.DropAbove(d, rg, conf).value;
            && e.discarded == d.discarded && e.stable == rg.aru && e.highest == rg.highest && e.alarm == d.alarm
            && e.received == if d.received > rg.highest then rg.highest else d.received
  {}

  lemma {:induction false} MarkKeeps(d: Delivery.Daemon, holes: seq<int>, conf: Recovery.Conf)
    requires Recovery.MarkHoles(d, holes, conf).Some?
    ensures Recovery.MarkHoles(d, holes, conf).value.(packets := d.packets) == d
    decreases |holes|
  {
    if holes != [] {
      MarkKeeps(d.(packets := d.packets[holes[0] := Hole]), holes[1..], conf);
    }
  }

  /** Backoff_membership: dummies become empty slots, the marks are recomputed. */
  method Backoff(s: ProtocolState)
    requires s.Windowed()
    modifies s, s.slots
    ensures s.Valid() && s.Model() == Recovery.Backoff(old(s.Model()))
  {
    hide View;
    ghost var d := s.Model();
    var i := s.discarded + 1;
    while i <= s.highest
      modifies s.slots
      invariant s.Windowed() && s.discarded < i <= s.highest + 1
      invariant s.Table() == map n | n in d.packets && (n >= i || !d.packets[n].Hole?) :: d.packets[n]
    {
      var x := s.Entry(i);
      if x.Some? && x.value.Hole? {
        s.Clear(i);
      }
      i := i + 1;
    }
    assert s.Table() == Recovery.NonHoles(d.packets);
    s.evs := false;
    s.stable := s.discarded;
    s.received := s.discarded;
    s.AdvanceReceived();
  }

  // ---- Installing the new ring ----

  /** Delivers up to the first hole or SAFE packet. */
  method BeforeSignal(s: ProtocolState)
    requires s.Windowed() && !s.alarm
    modifies s`discarded, s`alarm, s`log, s.slots
    ensures var r := Recovery.BeforeSignal(old(s.Model()));
            s.alarm == r.alarm && (!s.alarm ==> s.Model().(delivered := r.delivered) == r)
    ensures !s.alarm ==> old(s.discarded) <= s.discarded <= s.highest <= s.discarded + SLOTS
  {
    hide View, Delivery.DiscardOne, Recovery.BeforeSignal;
    ghost var view := s.Model();
    while s.discarded < s.highest
      invariant s.discarded <= s.highest <= s.discarded + SLOTS && old(s.discarded) <= s.discarded && !s.alarm
      invariant view == s.Model().(delivered := view.delivered)
      invariant Recovery.BeforeSignal(view) == Recovery.BeforeSignal(old(s.Model()))
      decreases s.highest - s.discarded
    {
      Recovery.SignalTurn(view);
      var x := s.Entry(s.discarded + 1);
      if x.None? {
        s.alarm := true;
        return;
      }
      if x.value.Hole? || x.value.p.service == Safe {
        return;
      }
      DiscardStep(view, view.discarded + 1);
      if x.value.Pending? {
        s.Pass(s.discarded + 1);
      }
      s.Clear(s.discarded + 1);
      s.MoveWindow(s.discarded + 1);
      view := Delivery.DiscardOne(view);
    }
    Recovery.SignalTurn(view);
  }

  /** One slot after the signal. */
  method AfterOne(s: ProtocolState, commit: seq<int>, n: int, foundHole: bool)
    requires s.slots.Length == SLOTS && s.discarded < n <= s.discarded + SLOTS
    requires n in s.Table() && !s.Table()[n].Hole?
    modifies s`log, s.slots
    ensures s.Model() == Recovery.AfterOne(old(s.Model()), commit, n, foundHole)
  {
    hide View;
    var x := s.Entry(n).value;
    if (!foundHole || IndexOf(commit, x.p.sender) != -1) && x.Pending? {
      s.Pass(n);
    }
    s.Clear(n);
  }

  /** Delivers what is left; after a hole only packets of senders in the commit set. */
  method AfterSignal(s: ProtocolState, commit: seq<int>)
    requires s.slots.Length == SLOTS && s.discarded <= s.highest <= s.discarded + SLOTS && !s.alarm
    modifies s`alarm, s`log, s.slots
    ensures var r := Recovery.AfterSignal(old(s.Model()), commit, s.discarded + 1, false);
            s.alarm == r.alarm && (!s.alarm ==> s.Model() == r)
  {
    hide View, Recovery.AfterOne;
    var foundHole := false;
    var i := s.discarded + 1;
    while i <= s.highest
      invariant s.discarded < i && !s.alarm
      invariant Recovery.AfterSignal(s.Model(), commit, i, foundHole)
             == Recovery.AfterSignal(old(s.Model()), commit, s.discarded + 1, false)
    {
      var x := s.Entry(i);
      if x.None? {
        s.alarm := true;
        return;
      }
      if x.value.Hole? {
        s.Clear(i);
        foundHole := true;
      } else {
        AfterOneAlarm(s.Model(), commit, i, foundHole);
        AfterOne(s, commit, i, foundHole);
      }
      i := i + 1;
    }
  }

  lemma AfterOneAlarm(d: Delivery.Daemon, commit: seq<int>, n: int, foundHole: bool)
    requires n in d.packets && !d.packets[n].Hole?
    ensures Recovery.AfterOne(d, commit, n, foundHole).alarm == d.alarm
  {}

  lemma {:induction false} DeliveredIgnored(d: Delivery.Daemon, commit: seq<int>, n: int, foundHole: bool, delivered: int)
    ensures Recovery.AfterSignal(d.(delivered := delivered), commit, n, foundHole)
         == Recovery.AfterSignal(d, commit, n, foundHole).(delivered := delivered)
    decreases d.highest - n
  {
    if n <= d.highest && n in d.packets {
      if d.packets[n].Hole? {
        DeliveredIgnored(d.(packets := d.packets - {n}), commit, n + 1, true, delivered);
      } else {
        DeliveredIgnored(Recovery.AfterOne(d, commit, n, foundHole), commit, n + 1, foundHole, delivered);
        assert Recovery.AfterOne(d.(delivered := delivered), commit, n, foundHole)
            == Recovery.AfterOne(d, commit, n, foundHole).(delivered := delivered);
      }
    }
  }

  /** Whether the table is empty, by looking at every slot. */
  method IsEmpty(s: ProtocolState) returns (empty: bool)
    requires s.slots.Length == SLOTS
    ensures empty <==> s.Table() == map[]
  {
    ViewEmpty(s.slots[..], s.discarded);
    hide View;
    for i := 0 to SLOTS
      invariant forall k :: 0 <= k < i ==> s.slots[..][k].None?
    {
      if s.slots[i].Some? {
        assert s.slots[..][i].Some?;
        return false;
      }
    }
    return true;
  }

  lemma EmptyAnywhere(slots: seq<Option<Slot>>, a: int, b: int)
    requires |slots| == SLOTS && View(slots, a) == map[]
    ensures View(slots, b) == map[]
  {
    ViewEmpty(slots, a);
    ViewEmpty(slots, b);
  }

  /** The recovery branch of Discard_packets, once the barrier is passed. */
  method EvsDeliver(s: ProtocolState, commit: seq<int>)
    requires s.Windowed() && !s.alarm
    modifies s, s.slots
    ensures s.Is(Recovery.EvsDeliver(old(s.Model()), commit))
  {
    hide View, Recovery.BeforeSignal, Recovery.AfterSignal;
    ghost var b := Recovery.BeforeSignal(s.Model());
    ghost var t := b.(log := b.log + [TransitionalSignal]);
    if b.alarm {
      Recovery.AfterAlarmSticks(t, commit, t.discarded + 1, false);
    }
    BeforeSignal(s);
    if s.alarm { return; }
    s.log := s.log + [TransitionalSignal];
    assert t == s.Model().(delivered := b.delivered);
    DeliveredIgnored(s.Model(), commit, s.discarded + 1, false, b.delivered);
    AfterSignal(s, commit);
    if s.alarm { return; }
    var empty := IsEmpty(s);
    if !empty {
      s.alarm := true;
      return;
    }
    EmptyAnywhere(s.slots[..], s.discarded, 0);
    s.log := s.log + [RegularView];
    s.received, s.stable, s.highest, s.discarded, s.delivered, s.evs := 0, 0, 0, 0, 0, false;
  }

  // ---- The recovery token ----

  /** A token during recovery: the prefix is recounted and, when nothing is missing, raised to `lastSeq`; then the marks
      on the token and the stable mark follow as in operation. A stable mark that would go down is fatal. */
  method RecoveryToken(s: ProtocolState, tokenAru: int, lastId: int, lastSeq: int)
    returns (aru: int, last: int, complete: bool, install: bool)
    requires s.Windowed() && !s.alarm && s.discarded <= s.received
    modifies s`received, s`stable, s`lastAru, s`alarm
    ensures var d := old(s.Model());
            var received := EvsBarrier.Recount(d, lastSeq);
            var stable := TokenAru.StableMark(aru, old(s.lastAru));
            && aru == TokenAru.NextAru(tokenAru, lastId, 0, false, d.id, received)
            && last == TokenAru.NextLastId(tokenAru, lastId, 0, false, d.id, received)
            && complete == (Delivery.Advance(d.packets, d.received, d.highest) == d.highest)
            && (s.alarm <==> stable < d.stable)
            && (!s.alarm ==>
                  && s.Windowed() && s.Model() == d.(received := received, stable := stable) && s.lastAru == aru
                  && install == (stable > d.discarded && stable == lastSeq))
  {
    hide View;
    s.AdvanceReceived();
    complete := s.received == s.highest;
    if complete {
      s.received := lastSeq;
    }
    aru, last := tokenAru, lastId;
    if tokenAru > s.received || lastId == s.id {
      aru, last := s.received, s.id;
    }
    var mark := if aru > s.lastAru then s.lastAru else aru;
    install := mark > s.discarded && mark == lastSeq;
    if mark < s.stable {
      s.alarm := true;
      return;
    }
    s.stable, s.lastAru := mark, aru;
  }

  // ---- What the methods ask of their callers holds ----

  /** What `Windowed` and the methods for packets that arrive, for backing off and for delivering demand. */
  ghost predicate InWindow(d: Delivery.Daemon, sent: seq<Packet>) {
    && !d.alarm && d.discarded <= d.delivered && d.discarded <= d.received && d.discarded <= d.highest <= d.discarded + SLOTS
    && (forall n :: n in d.packets ==> d.discarded < n <= d.highest)
    && (d.evs || d.received <= d.highest)
    && |sent| <= d.discarded + SLOTS
  }

  lemma OriginInWindow(base: RingSystem.System, maxAllowed: nat, i: nat)
    requires RingTheorems.Reachable(base, maxAllowed) && MAX_SEQ_GAP + maxAllowed <= SLOTS && Formations.Frozen(base, i)
    ensures |base.sent| <= Formations.Origin(base, i).discarded + SLOTS
  {
    RunsStayInWindow(base, maxAllowed, i);
    RingTheorems.ReachableInv(base, maxAllowed);
    RingTheorems.MarksOf(base, maxAllowed, i, i);
    hide RingTheorems.Reachable, RingSystem.Inv, Delivery.Good;
  }

  /** In every state of any number of attempts, and if no recovery is under way with the prefix within the table. */
  lemma AttemptsStayInWindow(w: Formations.World, base: RingSystem.System, maxAllowed: nat, i: nat)
    requires Formations.Reachable(w, base, maxAllowed) && MAX_SEQ_GAP + maxAllowed <= SLOTS && i < |w.members|
    requires !w.members[i].phase.Operating? && !w.members[i].phase.Dead?
    ensures InWindow(w.members[i].d, w.sent)
    ensures !w.members[i].phase.Recovering? ==> w.members[i].d.received <= w.members[i].d.highest
  {
    var x := Formations.ReachableInv(w, base, maxAllowed);
    hide Formations.Floor, RingTheorems.Reachable, Formations.Info, Formations.HoldsAll;
    assert Formations.MemberInv(w, base, x, i);
    OriginInWindow(base, maxAllowed, i);
    var m := w.members[i];
    if m.phase.Recovering? {
      RecoveryBounds(EvsBarrier.Member(m.d, Formations.Info(w.entries[m.phase.entry]).value, w.sent, 0, false), m.phase.lastSeq);
    } else {
      SettledBounds(m.d, w.sent);
    }
  }

  lemma RecoveryBounds(m: EvsBarrier.Member, lastSeq: int)
    requires EvsBarrier.MemberOk(m, lastSeq)
    ensures var d := m.d;
            && !d.alarm && d.evs && d.discarded == m.rg.aru <= d.delivered <= d.highest == m.rg.highest <= |m.sent|
            && d.discarded <= d.received && forall n :: n in d.packets ==> d.discarded < n <= d.highest
  {
    hide Delivery.LogExact, Delivery.LogOrdered, Delivery.DeliveryMarks;
  }

  lemma SettledBounds(d: Delivery.Daemon, sent: seq<Packet>)
    requires Formations.Settled(d, sent)
    ensures !d.alarm && d.discarded <= d.delivered <= d.received <= d.highest <= |sent|
    ensures forall n :: n in d.packets ==> d.discarded < n <= d.highest
  {
    hide Delivery.LogExact, Delivery.LogOrdered, Delivery.DeliveryMarks;
  }

  /** Where a daemon answers a FORM1 token that has an entry of its ring, or reads FORM2, the entry's numbers lie in its
      window too. */
  lemma EntriesInWindow(w: Formations.World, base: RingSystem.System, maxAllowed: nat, i: nat, k: nat)
    requires Formations.Reachable(w, base, maxAllowed) && MAX_SEQ_GAP + maxAllowed <= SLOTS
    requires i < |w.members| && k < |w.entries| && (w.members[i].phase.Idle? || w.members[i].phase.Answered?)
    ensures Formations.Info(w.entries[k]).Some?
    ensures var d, rg := w.members[i].d, Formations.Info(w.entries[k]).value;
            && d.discarded <= rg.highest <= d.discarded + SLOTS
            && forall h :: h in rg.holes ==> d.discarded < h <= d.discarded + SLOTS
    ensures var d, rg := w.members[i].d, Formations.Info(w.entries[k]).value;
            w.members[i].phase == Formations.Answered(w.entries[k].token) && i in w.entries[k].who ==>
              && d.discarded <= rg.aru <= rg.highest && rg.aru <= d.received
              && forall h :: h in rg.holes ==> rg.aru < h <= rg.highest
  {
    AttemptsStayInWindow(w, base, maxAllowed, i);
    var x := Formations.ReachableInv(w, base, maxAllowed);
    hide Formations.Reachable, Formations.Info, Formations.HoldsAll, Formations.Kept, Delivery.Good;
    assert Formations.MemberInv(w, base, x, i) && Formations.EntryInv(w, base, x, w.entries[k]);
    HolesAboveFloor(w, base, x, k);
    if w.members[i].phase == Formations.Answered(w.entries[k].token) && i in w.entries[k].who {
      Formations.EntryFits(w, base, x, i, k);
    }
  }

  lemma HolesAboveFloor(w: Formations.World, base: RingSystem.System, x: int, k: nat)
    requires Formations.Floor(base, x) && Formations.Inv(w, base, x) && k < |w.entries|
    ensures Formations.Info(w.entries[k]).Some?
    ensures var rg := Formations.Info(w.entries[k]).value;
            x <= rg.highest <= |w.sent| && forall h :: h in rg.holes ==> x < h <= |w.sent|
  {
    var e := w.entries[k];
    assert Formations.EntryInv(w, base, x, e);
    hide Formations.Floor, Formations.MemberInv, Formations.ContributorInv, Formations.Info, FormToken.Exact;
    Formations.EntryExact(w, base, x, e);
    ContributorReaches(base, x, e.who[0], e.cs[0]);
    hide Formations.EntryInv;
    HolesAbove(Formations.Info(e).value, e.cs, w.sent, x);
  }

  lemma ContributorReaches(base: RingSystem.System, x: int, i: nat, c: FormToken.Contributor)
    requires Formations.Floor(base, x) && Formations.ContributorInv(base, x, i, c)
    ensures Delivery.Good(c.d, base.sent) && x <= c.d.received
  {
    hide Delivery.Good, Formations.Kept, Formations.HoldsAll, RingSystem.HoldsOwn;
    Formations.PrefixReaches(Formations.Origin(base, i), c.d, base.sent, x);
  }

  lemma HolesAbove(rg: FormToken.RingInfo, cs: seq<FormToken.Contributor>, sent: seq<Packet>, x: int)
    requires cs != [] && FormToken.Exact(rg, cs) && rg.highest <= |sent|
    requires Delivery.Good(cs[0].d, sent) && x <= cs[0].d.received
    ensures x <= rg.highest && forall h :: h in rg.holes ==> x < h <= |sent|
  {
    hide Delivery.Good, Delivery.Held;
    Delivery.HighestKnown(cs[0].d, sent);
    forall h | h in rg.holes ensures x < h <= |sent| {
      assert !Delivery.Held(cs[0].d, h);
      VirtualSynchrony.HoleAbove(cs[0].d, sent, h);
    }
  }

  /** In every run of the barrier, up to and including the moment in which a member installs, when its prefix has long
      been raised above its table. */
  lemma BarrierStaysInWindow(olds: seq<Formations.Old>, places: seq<Formations.Place>, start: EvsBarrier.System,
                             steps: seq<EvsBarrier.Step>, p: nat)
    requires Formations.Assembled(olds, places, start) && EvsBarrier.ValidRun(start, steps)
    requires p < |EvsBarrier.Run(start, steps).ring|
    requires forall r :: 0 <= r < |olds| ==> MAX_SEQ_GAP + olds[r].maxAllowed <= SLOTS
    ensures var m := EvsBarrier.Run(start, steps).ring[p]; InWindow(m.d, m.sent) && m.d.evs
  {
    hide Formations.Assembled, EvsBarrier.Run, EvsBarrier.Start, EvsBarrier.MemberOk, EvsBarrier.ValidRun, Formations.Info;
    Formations.AssembledStarts(olds, places, start);
    EvsBarrier.StartInv(start);
    EvsBarrier.RunInv(start, steps);
    Formations.BarrierKeeps(start, steps, p);
    var sys := EvsBarrier.Run(start, steps);
    var m := sys.ring[p];
    var q: nat :| q < |start.ring| && start.ring[q].d.id == m.d.id && start.ring[q].rg == m.rg && start.ring[q].sent == m.sent;
    assert EvsBarrier.MemberOk(m, sys.lastSeq) && EvsBarrier.MemberOk(start.ring[q], start.lastSeq);
    hide EvsBarrier.Inv, EvsBarrier.MemberOk;
    RecoveryBounds(m, sys.lastSeq);
    RecoveryBounds(start.ring[q], start.lastSeq);
    PlaceInWindow(olds, places, start, q);
  }

  lemma PlaceInWindow(olds: seq<Formations.Old>, places: seq<Formations.Place>, start: EvsBarrier.System, q: nat)
    requires Formations.Assembled(olds, places, start) && q < |start.ring|
    requires forall r :: 0 <= r < |olds| ==> MAX_SEQ_GAP + olds[r].maxAllowed <= SLOTS
    ensures |start.ring[q].sent| <= start.ring[q].d.discarded + SLOTS
  {
    hide Formations.Reachable, Formations.Info;
    var old_ := olds[places[q].ring];
    AttemptsStayInWindow(old_.w, old_.base, old_.maxAllowed, places[q].i);
  }
}
