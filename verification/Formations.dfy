/** Attempts to form a new ring, any number of them, seen from one old ring.

Its members stopped operating when they answered their first FORM1 token. From then on each of them answers
tokens, reads FORM2 tokens, recovers, and backs off when an attempt fails, until one succeeds; packets of
the old ring go on arriving meanwhile. Tokens may be lost, duplicated and delayed: every entry that was ever
written remains available to be carried on. */
module Formations {
  import opened SpreadTypes
  import opened Delivery
  import opened FormToken
  import opened Recovery
  import EvsBarrier
  import RingSystem
  import RingTheorems
  import VirtualSynchrony

  /** The last number of a recovery lies this far above everything its members know. */
  const SEQ_MARGIN := 3333

  /** `Idle`: no attempt under way. `Answered`: waiting for the FORM2 token that belongs to a FORM1 token.
      `Recovering`: FORM2 was read. `Dead`: a fatal branch was taken. */
  datatype Phase = Operating | Idle | Answered(token: int) | Recovering(entry: nat, lastSeq: int) | Dead

  /** `commit` is Commit_set; `answered` the FORM1 tokens answered so far. */
  datatype Member = Member(d: Daemon, commit: seq<int>, answered: set<int>, phase: Phase)

  /** The old ring's entry on a FORM1 token: which members answered, in order, and with what state. */
  datatype Entry = Entry(token: int, created: bool, who: seq<nat>, cs: seq<Contributor>)

  datatype World = World(sent: seq<Packet>, members: seq<Member>, entries: seq<Entry>)

  function Info(e: Entry): Option<RingInfo> {
    if e.cs == [] then None else Gather(e.cs, e.created)
  }

  /** What takes part are the members that answered a FORM1 token while the ring operated, as they were then. */
  function Begin(base: RingSystem.System): (w: World)
    ensures |w.members| == |base.ring|
  {
    World(base.sent,
          seq(|base.ring|, i requires 0 <= i < |base.ring| =>
            var m := base.ring[i];
            if m.snapshot.Some? then Member(m.snapshot.value, [m.d.id], {}, Idle) else Member(m.d, [m.d.id], {}, Operating)),
          [])
  }

  datatype Step =
    | Receive(i: nat, s: int)
    | Answer(i: nat, token: int, from: Option<nat>, created: bool)  // the entry it finds on the token, if any
    | Read(i: nat, entry: nat, conf: Conf, lastSeq: int)
    | TokenVisit(i: nat, stable: int)                               // a token of the recovery
    | Fail(i: nat)                                                  // the token is lost

  /** Every sender of the old ring is configured. */
  predicate Configured(conf: Conf, sent: seq<Packet>) {
    forall s :: 1 <= s <= |sent| ==> At(sent, s).sender in conf.allProcs
  }

  /** During recovery no packet above the agreed number arrives; see `VirtualSynchrony.PacketsAboveAgreed`. */
  predicate Hears(w: World, i: nat, s: int)
    requires i < |w.members|
  {
    match w.members[i].phase
    case Operating => false
    case Idle => true
    case Answered(_) => true
    case Recovering(k, _) => k < |w.entries| && Info(w.entries[k]).Some? && s <= Info(w.entries[k]).value.highest
    case Dead => false
  }

  /** A daemon answers no FORM1 token twice and reads only a FORM2 token that belongs to its last answer. */
  predicate Enabled(w: World, step: Step) {
    step.i < |w.members| &&
    var m := w.members[step.i];
    match step
    case Receive(i, s) => 1 <= s <= |w.sent| && Hears(w, i, s)
    case Answer(_, token, from, _) =>
      && m.phase.Idle? && token !in m.answered
      && (from.Some? ==> from.value < |w.entries| && w.entries[from.value].token == token)
    case Read(i, k, conf, lastSeq) =>
      && k < |w.entries| && m.phase == Answered(w.entries[k].token) && i in w.entries[k].who && Configured(conf, w.sent)
      && (forall c :: c in w.entries[k].cs ==> c.d.highest + SEQ_MARGIN <= lastSeq)
    case TokenVisit(_, _) => m.phase.Recovering? && m.phase.entry < |w.entries| && Info(w.entries[m.phase.entry]).Some?
    case Fail(_) => m.phase.Answered? || m.phase.Recovering?
  }

  function Answering(w: World, i: nat, token: int, from: Option<nat>, created: bool): (e: Entry)
    requires i < |w.members| && (from.Some? ==> from.value < |w.entries|)
    ensures e.cs != []
  {
    var c := Contributor(w.members[i].d, w.members[i].commit);
    if from.None? then Entry(token, created, [i], [c])
    else
      var old_ := w.entries[from.value];
      Entry(token, old_.created, old_.who + [i], old_.cs + [c])
  }

  /** A visit of the recovery token: the prefix is recounted; when nothing is missing the commit set is taken over. */
  function Visited(m: Member, info: RingInfo, stable: int): Member
    requires m.phase.Recovering?
  {
    var received := EvsBarrier.Recount(m.d, m.phase.lastSeq);
    m.(d := m.d.(received := received, stable := stable),
       commit := if received == m.phase.lastSeq then info.procs else m.commit)
  }

  function Put(w: World, i: nat, m: Member): World
    requires i < |w.members|
  {
    w.(members := w.members[i := m])
  }

  /** The world after an answer, the new entry on its way. */
  function AfterAnswer(w: World, i: nat, token: int, from: Option<nat>, created: bool): World
    requires i < |w.members| && (from.Some? ==> from.value < |w.entries|)
  {
    var m := w.members[i];
    var e := Answering(w, i, token, from, created);
    Put(w, i, m.(answered := m.answered + {token}, phase := Answered(token))).(entries := w.entries + [e])
  }

  function Next(w: World, step: Step): World
    requires Enabled(w, step)
  {
    var m := w.members[step.i];
    match step
    case Receive(i, s) => Put(w, i, m.(d := HandleBcast(m.d, At(w.sent, s))))
    case Answer(i, token, from, created) =>
      if Info(Answering(w, i, token, from, created)).None? then Put(w, i, m.(phase := Dead))
      else AfterAnswer(w, i, token, from, created)
    case Read(i, k, conf, lastSeq) =>
      var info := Info(w.entries[k]);
      var e := if info.None? then None else ReadForm2(m.d, info.value, conf);
      Put(w, i, if e.None? then m.(phase := Dead) else m.(d := e.value, phase := Recovering(k, lastSeq)))
    case TokenVisit(i, stable) => Put(w, i, Visited(m, Info(w.entries[m.phase.entry]).value, stable))
    case Fail(i) => Put(w, i, m.(d := if m.phase.Recovering? then Backoff(m.d) else m.d, phase := Idle))
  }

  predicate ValidRun(w: World, steps: seq<Step>)
    decreases |steps|
  {
    steps == [] || (Enabled(w, steps[0]) && ValidRun(Next(w, steps[0]), steps[1..]))
  }

  function Run(w: World, steps: seq<Step>): World
    requires ValidRun(w, steps)
    decreases |steps|
  {
    if steps == [] then w else Run(Next(w, steps[0]), steps[1..])
  }

  // ---- The invariant ----

  predicate Frozen(base: RingSystem.System, i: int) {
    0 <= i < |base.ring| && base.ring[i].snapshot.Some?
  }

  /** The state in which member i stopped operating. */
  function Origin(base: RingSystem.System, i: int): Daemon
    requires Frozen(base, i)
  {
    base.ring[i].snapshot.value
  }

  /** A number that separates all stable marks from all prefixes at the end of operation. */
  ghost predicate Floor(base: RingSystem.System, x: int) {
    && (forall i :: Frozen(base, i) ==> Origin(base, i).discarded <= x <= Origin(base, i).received)
    && (forall i :: Frozen(base, i) ==>
          && Good(Origin(base, i), base.sent) && RingSystem.HoldsOwn(Origin(base, i), base.sent)
          && Origin(base, i).stable == Origin(base, i).discarded && !Origin(base, i).evs
          && Origin(base, i).threshold == BLOCK_REGULAR_DELIVERY && Origin(base, i).id == base.ring[i].d.id)
    && (forall i, j :: Frozen(base, i) && Frozen(base, j) && i != j ==> Origin(base, i).id != Origin(base, j).id)
    && Numbered(base.sent) && |base.ring| <= MAX_PROCS_RING
  }

  /** Nothing the daemon had is lost and nothing it passed up is taken back. */
  ghost predicate Kept(from: Daemon, d: Daemon) {
    && d.id == from.id && from.log <= d.log && from.discarded <= d.discarded
    && forall s :: Held(from, s) ==> Held(d, s)
  }

  /** The daemon has every packet of every daemon of the commit set, itself among them. */
  ghost predicate HoldsAll(d: Daemon, commit: seq<int>, sent: seq<Packet>) {
    d.id in commit && forall s :: 1 <= s <= |sent| && At(sent, s).sender in commit ==> Held(d, s)
  }

  /** An old-ring state between attempts. */
  ghost predicate Settled(d: Daemon, sent: seq<Packet>) {
    Good(d, sent) && d.stable == d.discarded && !d.evs && d.threshold == BLOCK_REGULAR_DELIVERY
  }

  ghost predicate MemberInv(w: World, base: RingSystem.System, x: int, i: nat)
    requires i < |w.members|
  {
    var m := w.members[i];
    m.phase.Operating? || m.phase.Dead? ||
    (&& Frozen(base, i) && Kept(Origin(base, i), m.d) && m.d.discarded <= x && HoldsAll(m.d, m.commit, w.sent)
     && (m.phase.Recovering? || Settled(m.d, w.sent))
     && (m.phase.Answered? ==> forall k :: 0 <= k < |w.entries| ==> CollectsSince(w.entries[k], m.phase.token, i, m.d))
     && (m.phase.Recovering? ==> InRecovery(w, m)))
  }

  /** Since its answer to the token the member only collected packets. */
  ghost predicate CollectsSince(e: Entry, token: int, i: nat, d: Daemon) {
    e.token == token ==>
      forall p :: 0 <= p < |e.who| && p < |e.cs| && e.who[p] == i ==> RingSystem.OnlyCollects(e.cs[p].d, d)
  }

  ghost predicate InRecovery(w: World, m: Member)
    requires m.phase.Recovering?
  {
    && m.phase.entry < |w.entries| && Info(w.entries[m.phase.entry]).Some?
    && m.d.id in Info(w.entries[m.phase.entry]).value.procs
    && EvsBarrier.MemberOk(
         EvsBarrier.Member(m.d, Info(w.entries[m.phase.entry]).value, w.sent, 0, false), m.phase.lastSeq)
  }

  ghost predicate ContributorInv(base: RingSystem.System, x: int, i: nat, c: Contributor) {
    && Frozen(base, i) && Kept(Origin(base, i), c.d) && c.d.discarded <= x
    && HoldsAll(c.d, c.commit, base.sent) && Settled(c.d, base.sent)
  }

  ghost predicate EntryInv(w: World, base: RingSystem.System, x: int, e: Entry) {
    && 1 <= |e.who| == |e.cs|
    && (forall p :: 0 <= p < |e.who| ==> e.who[p] < |w.members| && e.token in w.members[e.who[p]].answered)
    && (forall p :: 0 <= p < |e.who| ==> ContributorInv(base, x, e.who[p], e.cs[p]))
    && (forall p, q :: 0 <= p < q < |e.who| ==> e.who[p] != e.who[q])
  }

  ghost predicate Inv(w: World, base: RingSystem.System, x: int) {
    && w.sent == base.sent && |w.members| == |base.ring|
    && (forall i :: 0 <= i < |w.members| ==> MemberInv(w, base, x, i))
    && (forall k :: 0 <= k < |w.entries| ==> EntryInv(w, base, x, w.entries[k]))
  }

  // ---- It holds at the end of operation ----

  function TopStable(ring: seq<RingSystem.Member>): (x: int)
    ensures forall i :: 0 <= i < |ring| && ring[i].snapshot.Some? ==> ring[i].snapshot.value.stable <= x
    ensures x == 0 || exists i :: 0 <= i < |ring| && ring[i].snapshot.Some? && ring[i].snapshot.value.stable == x
  {
    if ring == [] then 0
    else
      var n := |ring| - 1;
      var x := TopStable(ring[..n]);
      if ring[n].snapshot.Some? && ring[n].snapshot.value.stable > x then ring[n].snapshot.value.stable else x
  }

  lemma OriginMarks(base: RingSystem.System, maxAllowed: nat, i: nat, j: nat)
    requires RingSystem.Inv(base, maxAllowed) && Frozen(base, i) && Frozen(base, j)
    ensures var o := Origin(base, i);
            && 0 <= o.stable == o.discarded <= Origin(base, j).received
            && Good(o, base.sent) && RingSystem.HoldsOwn(o, base.sent) && !o.evs
            && o.threshold == BLOCK_REGULAR_DELIVERY && o.id == base.ring[i].d.id
            && (i != j ==> o.id != Origin(base, j).id)
  {
    RingTheorems.MarksOf(base, maxAllowed, i, j);
    RingTheorems.MarksOf(base, maxAllowed, j, i);
    hide Table, LogExact, LogOrdered, DeliveryMarks;
    if i != j {
      assert RingSystem.AruView(base).members[i].id == base.ring[i].d.id;
      assert RingSystem.AruView(base).members[j].id == base.ring[j].d.id;
    }
  }

  /** Stability of the operational ring: the largest stable mark anybody stopped with is in everybody's prefix. */
  lemma FloorExists(base: RingSystem.System, maxAllowed: nat)
    requires RingSystem.Inv(base, maxAllowed) && |base.ring| <= MAX_PROCS_RING
    ensures Floor(base, TopStable(base.ring))
  {
    var x := TopStable(base.ring);
    assert Numbered(base.sent);
    hide Good, RingSystem.Inv, RingSystem.HoldsOwn, Numbered;
    forall i, j | Frozen(base, i) && Frozen(base, j)
      ensures Origin(base, i).discarded <= x
      ensures Good(Origin(base, i), base.sent) && RingSystem.HoldsOwn(Origin(base, i), base.sent)
      ensures Origin(base, i).stable == Origin(base, i).discarded <= Origin(base, j).received
      ensures 0 <= Origin(base, i).stable && !Origin(base, i).evs
      ensures Origin(base, i).threshold == BLOCK_REGULAR_DELIVERY && Origin(base, i).id == base.ring[i].d.id
      ensures i != j ==> Origin(base, i).id != Origin(base, j).id
    {
      OriginMarks(base, maxAllowed, i, j);
    }
    forall j | Frozen(base, j) ensures x <= Origin(base, j).received {
      if x > 0 {
        var i :| 0 <= i < |base.ring| && base.ring[i].snapshot.Some? && base.ring[i].snapshot.value.stable == x;
        assert Frozen(base, i);
      }
    }
  }

  lemma BeginInv(base: RingSystem.System, x: int)
    requires Floor(base, x)
    ensures Inv(Begin(base), base, x)
  {
    var w := Begin(base);
    hide Good;
    forall i | 0 <= i < |w.members| ensures MemberInv(w, base, x, i) {
      if base.ring[i].snapshot.Some? {
        assert Frozen(base, i);
        assert w.members[i].d == Origin(base, i);
      }
    }
  }

  // ---- Entries ----

  lemma PrefixReaches(origin: Daemon, d: Daemon, sent: seq<Packet>, x: int)
    requires Good(origin, sent) && x <= origin.received && Kept(origin, d) && Good(d, sent)
    ensures x <= d.received
  {
    hide LogExact, LogOrdered, DeliveryMarks;
    assert d.received < origin.received ==> Held(origin, d.received + 1);
  }

  lemma {:induction false} DistinctBelow(who: seq<nat>, n: nat)
    requires forall p :: 0 <= p < |who| ==> who[p] < n
    requires forall p, q :: 0 <= p < q < |who| ==> who[p] != who[q]
    ensures |who| <= n
    decreases n
  {
    assert who != [] ==> who[0] < n;
    if p :| 0 <= p < |who| && who[p] == n - 1 {
      var rest := who[..p] + who[p + 1..];
      forall a, b | 0 <= a < b < |rest| ensures rest[a] != rest[b] {
        assert rest[a] == who[if a < p then a else a + 1] && rest[b] == who[if b < p then b else b + 1];
      }
      forall a | 0 <= a < |rest| ensures rest[a] < n - 1 {
        assert rest[a] == who[if a < p then a else a + 1];
      }
      DistinctBelow(rest, n - 1);
    } else if n > 0 {
      DistinctBelow(who, n - 1);
    }
  }

  /** Whatever happened between the answers, they are comparable: no stable mark passes anyone's prefix. */
  lemma EntryComparable(w: World, base: RingSystem.System, x: int, e: Entry)
    requires Floor(base, x) && w.sent == base.sent && |w.members| == |base.ring| && EntryInv(w, base, x, e)
    ensures 1 <= |e.cs| <= MAX_PROCS_RING && Comparable(e.cs, w.sent)
  {
    DistinctBelow(e.who, |w.members|);
    hide Good, HoldsAll, RingSystem.HoldsOwn;
    forall k, l | 0 <= k < |e.cs| && 0 <= l < |e.cs|
      ensures Good(e.cs[k].d, w.sent) && e.cs[k].d.stable == e.cs[k].d.discarded <= e.cs[l].d.received
      ensures k < l ==> e.cs[k].d.id != e.cs[l].d.id
    {
      assert ContributorInv(base, x, e.who[k], e.cs[k]) && ContributorInv(base, x, e.who[l], e.cs[l]);
      PrefixReaches(Origin(base, e.who[l]), e.cs[l].d, w.sent, x);
      hide Kept;
      assert Kept(Origin(base, e.who[k]), e.cs[k].d) && Kept(Origin(base, e.who[l]), e.cs[l].d);
      SameId(Origin(base, e.who[k]), e.cs[k].d);
      SameId(Origin(base, e.who[l]), e.cs[l].d);
    }
  }

  lemma SameId(from: Daemon, d: Daemon)
    requires Kept(from, d)
    ensures d.id == from.id
  {}

  /** So every entry is exact, and the branch "incorrect trans set" is not taken. */
  lemma EntryExact(w: World, base: RingSystem.System, x: int, e: Entry)
    requires Floor(base, x) && w.sent == base.sent && |w.members| == |base.ring| && EntryInv(w, base, x, e)
    ensures Info(e).Some? && Exact(Info(e).value, e.cs)
    ensures var rg := Info(e).value; 0 <= rg.aru <= x && rg.aru <= rg.highest <= |w.sent|
  {
    EntryComparable(w, base, x, e);
    hide Good, Gather;
    GatherExact(e.cs, w.sent, e.created);
    EntryBounds(w, base, x, e);
  }

  lemma EntryBounds(w: World, base: RingSystem.System, x: int, e: Entry)
    requires EntryInv(w, base, x, e) && Comparable(e.cs, w.sent) && Info(e).Some? && Exact(Info(e).value, e.cs)
    ensures var rg := Info(e).value; 0 <= rg.aru <= x && rg.aru <= rg.highest <= |w.sent|
  {
    hide Good, Gather, HoldsAll, Kept;
    var rg := Info(e).value;
    var k :| 0 <= k < |e.cs| && e.cs[k].d.stable == rg.aru;
    var l :| 0 <= l < |e.cs| && e.cs[l].d.highest == rg.highest;
    assert ContributorInv(base, x, e.who[k], e.cs[k]);
    HighestKnown(e.cs[k].d, w.sent);
    HighestKnown(e.cs[l].d, w.sent);
    assert e.cs[k].d.highest <= rg.highest;
  }

  // ---- The commit set ----

  /** No packet of a daemon in the commit set is a hole or above the agreed number, although that daemon need not
      have answered: whoever committed together with it has all its packets. */
  lemma CommitNeverHole(w: World, base: RingSystem.System, x: int, e: Entry, s: int)
    requires Floor(base, x) && w.sent == base.sent && |w.members| == |base.ring| && EntryInv(w, base, x, e)
    requires 1 <= s <= |w.sent| && Info(e).Some? && At(w.sent, s).sender in Info(e).value.procs
    ensures s <= Info(e).value.highest && s !in Info(e).value.holes
  {
    EntryExact(w, base, x, e);
    hide Good, Gather, Floor;
    var rg := Info(e).value;
    var y := At(w.sent, s).sender;
    forall k | 0 <= k < |e.cs| ensures HoldsAll(e.cs[k].d, e.cs[k].commit, w.sent) && Good(e.cs[k].d, w.sent) {
      assert ContributorInv(base, x, e.who[k], e.cs[k]);
    }
    CommitFrom(e.cs, e.created, y);
    var k :| 0 <= k < |e.cs| && y in e.cs[k].commit;
    assert Held(e.cs[k].d, s);
    VirtualSynchrony.HeldUpToHighest(e.cs[k].d, w.sent, s);
    assert !HeldByNone(e.cs, s);
  }

  /** A daemon that recovered completely has all packets of the commit set it takes over. */
  lemma CommitHolds(w: World, base: RingSystem.System, x: int, e: Entry, d: Daemon)
    requires Floor(base, x) && w.sent == base.sent && |w.members| == |base.ring| && EntryInv(w, base, x, e)
    requires Info(e).Some? && EvsGood(d, Info(e).value, w.sent) && VirtualSynchrony.Complete(d)
    requires d.id in Info(e).value.procs
    ensures HoldsAll(d, Info(e).value.procs, w.sent)
  {
    var rg := Info(e).value;
    forall s | 1 <= s <= |w.sent| && At(w.sent, s).sender in rg.procs ensures Held(d, s) {
      CommitNeverHole(w, base, x, e, s);
      HeldIfComplete(d, rg, w.sent, s);
    }
  }

  lemma HeldIfComplete(d: Daemon, rg: RingInfo, sent: seq<Packet>, s: int)
    requires EvsGood(d, rg, sent) && VirtualSynchrony.Complete(d) && s <= rg.highest && s !in rg.holes
    ensures Held(d, s)
  {
    hide LogExact, LogOrdered, DeliveryMarks;
  }

  // ---- Every step keeps the invariant ----

  lemma PutInv(w: World, base: RingSystem.System, x: int, i: nat, m: Member)
    requires Inv(w, base, x) && i < |w.members| && w.members[i].answered <= m.answered
    requires MemberInv(Put(w, i, m), base, x, i)
    ensures Inv(Put(w, i, m), base, x)
  {
    hide Kept, HoldsAll, Settled, CollectsSince, ContributorInv, EvsBarrier.MemberOk, Info;
    var v := Put(w, i, m);
    forall j | 0 <= j < |v.members| ensures MemberInv(v, base, x, j) {
      if j != i {
        assert MemberInv(w, base, x, j);
      }
    }
    forall k | 0 <= k < |v.entries| ensures EntryInv(v, base, x, v.entries[k]) {
      assert EntryInv(w, base, x, w.entries[k]);
    }
  }

  lemma KeptOn(from: Daemon, d: Daemon, e: Daemon)
    requires Kept(from, d) && Kept(d, e)
    ensures Kept(from, e)
  {}

  lemma HoldsOn(d: Daemon, e: Daemon, commit: seq<int>, sent: seq<Packet>)
    requires HoldsAll(d, commit, sent) && Kept(d, e)
    ensures HoldsAll(e, commit, sent)
  {}

  /** A packet arrives between attempts: it is stored, nothing is delivered. */
  lemma SettledReceives(d: Daemon, sent: seq<Packet>, s: int)
    requires Settled(d, sent) && Numbered(sent) && 1 <= s <= |sent|
    ensures var e := HandleBcast(d, At(sent, s)); Settled(e, sent) && Kept(d, e) && e.discarded == d.discarded
  {
    hide Good, Held;
    HandleBcastGood(d, sent, At(sent, s));
    HandleBcastHeld(d, sent, At(sent, s));
    RingTheorems.BcastLog(d, At(sent, s));
  }

  lemma ReceiveInv(w: World, base: RingSystem.System, x: int, i: nat, s: int)
    requires Floor(base, x) && Inv(w, base, x) && Enabled(w, Receive(i, s))
    ensures Inv(Next(w, Receive(i, s)), base, x)
  {
    hide Good, HandleBcast, EvsBarrier.MemberOk;
    var m := w.members[i];
    var e := HandleBcast(m.d, At(w.sent, s));
    assert MemberInv(w, base, x, i);
    if m.phase.Recovering? {
      RecoveringReceives(w, base, x, i, s);
    } else {
      SettledReceives(m.d, w.sent, s);
      forall k | 0 <= k < |w.entries| && m.phase.Answered? ensures CollectsSince(w.entries[k], m.phase.token, i, e) {
        CollectsOn(w.entries[k], m.phase.token, i, m.d, w.sent, s);
      }
    }
    hide Held;
    KeptOn(Origin(base, i), m.d, e);
    HoldsOn(m.d, e, m.commit, w.sent);
    PutInv(w, base, x, i, m.(d := e));
  }

  lemma CollectsOn(e: Entry, token: int, i: nat, d: Daemon, sent: seq<Packet>, s: int)
    requires CollectsSince(e, token, i, d) && Settled(d, sent) && Numbered(sent) && 1 <= s <= |sent|
    ensures CollectsSince(e, token, i, HandleBcast(d, At(sent, s)))
  {
    hide Good, HandleBcast, RingSystem.OnlyCollects;
    if e.token == token {
      forall p | 0 <= p < |e.who| && p < |e.cs| && e.who[p] == i
        ensures RingSystem.OnlyCollects(e.cs[p].d, HandleBcast(d, At(sent, s)))
      {
        RingSystem.CollectOne(e.cs[p].d, d, sent, At(sent, s));
      }
    }
  }

  lemma RecoveringReceives(w: World, base: RingSystem.System, x: int, i: nat, s: int)
    requires Floor(base, x) && Inv(w, base, x) && Enabled(w, Receive(i, s)) && w.members[i].phase.Recovering?
    ensures var m := w.members[i];
            var e := HandleBcast(m.d, At(w.sent, s));
            && InRecovery(Put(w, i, m.(d := e)), m.(d := e)) && Kept(m.d, e) && e.discarded == m.d.discarded
  {
    var m := w.members[i];
    assert MemberInv(w, base, x, i);
    var entry := w.entries[m.phase.entry];
    EntryExact(w, base, x, entry);
    hide Good, HandleBcast, EvsGood, Gather, Held, Info;
    var rg := Info(entry).value;
    EvsBarrier.ReceiveOk(EvsBarrier.Member(m.d, rg, w.sent, 0, false), m.phase.lastSeq, s);
    EvsReceive(m.d, rg, w.sent, s);
    EvsDiscarded(m.d, rg, w.sent);
    EvsDiscarded(HandleBcast(m.d, At(w.sent, s)), rg, w.sent);
  }

  lemma EvsDiscarded(d: Daemon, rg: RingInfo, sent: seq<Packet>)
    requires EvsGood(d, rg, sent)
    ensures d.discarded == rg.aru && d.highest == rg.highest
  {}

  lemma FailInv(w: World, base: RingSystem.System, x: int, i: nat)
    requires Floor(base, x) && Inv(w, base, x) && Enabled(w, Fail(i))
    ensures Inv(Next(w, Fail(i)), base, x)
  {
    hide Good, EvsGood, Held, Backoff, Info;
    var m := w.members[i];
    assert MemberInv(w, base, x, i);
    if m.phase.Recovering? {
      var rg := Info(w.entries[m.phase.entry]).value;
      BackoffGood(m.d, rg, w.sent);
      BackoffKeeps(m.d);
      KeptOn(Origin(base, i), m.d, Backoff(m.d));
      HoldsOn(m.d, Backoff(m.d), m.commit, w.sent);
    }
    PutInv(w, base, x, i, m.(d := if m.phase.Recovering? then Backoff(m.d) else m.d, phase := Idle));
  }

  lemma BackoffKeeps(d: Daemon)
    ensures Backoff(d).discarded == d.discarded && Backoff(d).log == d.log
  {}

  lemma TokenVisitInv(w: World, base: RingSystem.System, x: int, i: nat, stable: int)
    requires Floor(base, x) && Inv(w, base, x) && Enabled(w, TokenVisit(i, stable))
    ensures Inv(Next(w, TokenVisit(i, stable)), base, x)
  {
    hide Good, EvsGood, EvsBarrier.Recount, Gather;
    var m := w.members[i];
    assert MemberInv(w, base, x, i);
    var entry := w.entries[m.phase.entry];
    var rg := Info(entry).value;
    var before := EvsBarrier.Member(m.d, rg, w.sent, 0, false);
    var n := Visited(m, rg, stable);
    EvsBarrier.RecountOk(before, m.phase.lastSeq, stable);
    assert EvsBarrier.MemberOk(before.(d := n.d, lastAru := 0, installed := false), m.phase.lastSeq);
    assert before.(d := n.d, lastAru := 0, installed := false) == EvsBarrier.Member(n.d, rg, w.sent, 0, false);
    if n.d.received == m.phase.lastSeq {
      EvsBarrier.MarksOk(EvsBarrier.Member(n.d, rg, w.sent, 0, false), m.phase.lastSeq);
      CommitHolds(w, base, x, entry, n.d);
    } else {
      HoldsOn(m.d, n.d, m.commit, w.sent);
    }
    hide EvsBarrier.MemberOk, Info;
    KeptOn(Origin(base, i), m.d, n.d);
    PutInv(w, base, x, i, n);
  }

  // Reading FORM2

  lemma {:induction false} MarkHolesLog(d: Daemon, holes: seq<int>, conf: Conf)
    requires MarkHoles(d, holes, conf).Some?
    ensures MarkHoles(d, holes, conf).value.log == d.log
    decreases |holes|
  {
    if holes != [] {
      MarkHolesLog(d.(packets := d.packets[holes[0] := Hole]), holes[1..], conf);
    }
  }

  /** Reading FORM2 takes nothing back. */
  lemma ReadForm2Log(d: Daemon, rg: RingInfo, conf: Conf)
    requires ReadForm2(d, rg, conf).Some?
    ensures d.log <= ReadForm2(d, rg, conf).value.log
  {
    var dropped := DropAbove(d, rg, conf).value;
    RingTheorems.DiscardLog(dropped, dropped.stable);
    MarkHolesLog(Discard(dropped), rg.holes, conf);
  }

  lemma SendersConfigured(d: Daemon, sent: seq<Packet>, conf: Conf)
    requires Good(d, sent) && Configured(conf, sent)
    ensures AllConfigured(d, conf)
  {
    hide LogExact, LogOrdered, DeliveryMarks;
  }

  /** The entry fits every member that may read it: what the failed attempts before it did makes no difference. */
  lemma EntryFits(w: World, base: RingSystem.System, x: int, i: nat, k: nat)
    requires Floor(base, x) && Inv(w, base, x) && i < |w.members| && k < |w.entries|
    requires w.members[i].phase == Answered(w.entries[k].token) && i in w.entries[k].who
    ensures Info(w.entries[k]).Some? && Fits(w.members[i].d, Info(w.entries[k]).value, w.sent)
    ensures w.members[i].d.id in Info(w.entries[k]).value.procs
  {
    hide Good, Kept, HoldsAll, Fits, Gather;
    var e := w.entries[k];
    assert MemberInv(w, base, x, i) && EntryInv(w, base, x, e);
    EntryExact(w, base, x, e);
    EntryComparable(w, base, x, e);
    var p: nat :| p < |e.who| && e.who[p] == i;
    assert CollectsSince(e, e.token, i, w.members[i].d);
    VirtualSynchrony.GatheredFits(e.cs, w.sent, e.created, p, w.members[i].d);
    assert Info(e).value.procs[p] == e.cs[p].d.id == w.members[i].d.id;
  }

  lemma ReadInv(w: World, base: RingSystem.System, x: int, i: nat, k: nat, conf: Conf, lastSeq: int)
    requires Floor(base, x) && Inv(w, base, x) && Enabled(w, Read(i, k, conf, lastSeq))
    ensures Inv(Next(w, Read(i, k, conf, lastSeq)), base, x)
  {
    hide Good, Fits, Gather, ReadForm2, EvsBarrier.MemberOk, Late, AllConfigured, EvsGood;
    var m := w.members[i];
    assert MemberInv(w, base, x, i);
    EntryFits(w, base, x, i, k);
    EntryExact(w, base, x, w.entries[k]);
    var rg := Info(w.entries[k]).value;
    if ReadForm2(m.d, rg, conf).Some? {
      var e := ReadForm2(m.d, rg, conf).value;
      SendersConfigured(m.d, w.sent, conf);
      ReadForm2Outcome(m.d, rg, conf, w.sent);
      ReadForm2Succeeds(m.d, rg, conf, w.sent);
      ReadForm2Log(m.d, rg, conf);
      EvsDiscarded(e, rg, w.sent);
      BelowLastSeq(w.entries[k], lastSeq);
      EvsBarrier.ReadForm2Starts(m.d, rg, conf, w.sent, lastSeq);
      hide Held, Info;
      assert Kept(m.d, e);
      KeptOn(Origin(base, i), m.d, e);
      HoldsOn(m.d, e, m.commit, w.sent);
      PutInv(w, base, x, i, m.(d := e, phase := Recovering(k, lastSeq)));
    } else {
      PutInv(w, base, x, i, m.(phase := Dead));
    }
  }

  lemma BelowLastSeq(e: Entry, lastSeq: int)
    requires Info(e).Some? && Exact(Info(e).value, e.cs)
    requires forall c :: c in e.cs ==> c.d.highest + SEQ_MARGIN <= lastSeq
    ensures Info(e).value.highest < lastSeq
  {
    hide Gather;
    var k :| 0 <= k < |e.cs| && e.cs[k].d.highest == Info(e).value.highest;
    assert e.cs[k] in e.cs;
  }

  // Answering FORM1

  lemma AnswerEntry(w: World, base: RingSystem.System, x: int, i: nat, token: int, from: Option<nat>, created: bool)
    requires Inv(w, base, x) && Enabled(w, Answer(i, token, from, created))
    ensures EntryInv(AfterAnswer(w, i, token, from, created), base, x, Answering(w, i, token, from, created))
  {
    hide Good, Kept, HoldsAll;
    var m := w.members[i];
    assert MemberInv(w, base, x, i);
    assert ContributorInv(base, x, i, Contributor(m.d, m.commit));
    if from.Some? {
      assert EntryInv(w, base, x, w.entries[from.value]);
    }
  }

  lemma SelfCollects(d: Daemon)
    requires d.threshold == BLOCK_REGULAR_DELIVERY
    ensures RingSystem.OnlyCollects(d, d)
  {}

  lemma AnswerMember(w: World, base: RingSystem.System, x: int, i: nat, token: int, from: Option<nat>, created: bool, j: nat)
    requires Inv(w, base, x) && Enabled(w, Answer(i, token, from, created)) && j < |w.members|
    ensures MemberInv(AfterAnswer(w, i, token, from, created), base, x, j)
  {
    hide Good, Kept, HoldsAll, Settled, RingSystem.OnlyCollects, EvsBarrier.MemberOk, Info;
    var v := AfterAnswer(w, i, token, from, created);
    assert MemberInv(w, base, x, j);
    assert MemberInv(w, base, x, i);
    forall k | 0 <= k < |v.entries| && v.members[j].phase.Answered?
      ensures CollectsSince(v.entries[k], v.members[j].phase.token, j, v.members[j].d)
    {
      if k < |w.entries| {
        assert EntryInv(w, base, x, w.entries[k]);
      } else {
        AnswerCollects(w, base, x, i, token, from, created, j);
      }
    }
  }

  lemma AnswerCollects(w: World, base: RingSystem.System, x: int, i: nat, token: int, from: Option<nat>, created: bool, j: nat)
    requires Inv(w, base, x) && Enabled(w, Answer(i, token, from, created)) && j < |w.members|
    ensures (j == i || w.members[j].phase == Answered(token)) ==>
              CollectsSince(Answering(w, i, token, from, created), token, j, w.members[j].d)
  {
    hide Good, Kept, HoldsAll, RingSystem.OnlyCollects, EvsBarrier.MemberOk, Info;
    var e := Answering(w, i, token, from, created);
    assert MemberInv(w, base, x, j);
    if j == i {
      SelfCollects(w.members[i].d);
      if from.Some? {
        assert EntryInv(w, base, x, w.entries[from.value]);
      }
    } else if from.Some? && w.members[j].phase == Answered(token) {
      assert CollectsSince(w.entries[from.value], token, j, w.members[j].d);
      assert EntryInv(w, base, x, w.entries[from.value]);
    }
  }

  lemma AnswerIs(w: World, base: RingSystem.System, x: int, i: nat, token: int, from: Option<nat>, created: bool)
    requires Floor(base, x) && Inv(w, base, x) && Enabled(w, Answer(i, token, from, created))
    ensures Info(Answering(w, i, token, from, created)).Some?
    ensures Next(w, Answer(i, token, from, created)) == AfterAnswer(w, i, token, from, created)
  {
    AnswerEntry(w, base, x, i, token, from, created);
    hide ContributorInv, MemberInv, Floor, EntryInv, Answering, Info;
    EntryExact(AfterAnswer(w, i, token, from, created), base, x, Answering(w, i, token, from, created));
  }

  lemma OldEntry(w: World, v: World, base: RingSystem.System, x: int, e: Entry)
    requires EntryInv(w, base, x, e) && |v.members| == |w.members|
    requires forall j :: 0 <= j < |w.members| ==> w.members[j].answered <= v.members[j].answered
    ensures EntryInv(v, base, x, e)
  {
    hide ContributorInv;
  }

  lemma AnswerInv(w: World, base: RingSystem.System, x: int, i: nat, token: int, from: Option<nat>, created: bool)
    requires Floor(base, x) && Inv(w, base, x) && Enabled(w, Answer(i, token, from, created))
    ensures Inv(Next(w, Answer(i, token, from, created)), base, x)
  {
    hide ContributorInv, MemberInv, EntryInv, Info, Answering, Floor;
    AnswerIs(w, base, x, i, token, from, created);
    AnswerEntry(w, base, x, i, token, from, created);
    hide Next;
    var v := AfterAnswer(w, i, token, from, created);
    forall j: nat | j < |v.members| ensures MemberInv(v, base, x, j) {
      AnswerMember(w, base, x, i, token, from, created, j);
    }
    forall k | 0 <= k < |v.entries| ensures EntryInv(v, base, x, v.entries[k]) {
      if k < |w.entries| {
        OldEntry(w, v, base, x, v.entries[k]);
      }
    }
  }

  lemma NextInv(w: World, base: RingSystem.System, x: int, step: Step)
    requires Floor(base, x) && Inv(w, base, x) && Enabled(w, step)
    ensures Inv(Next(w, step), base, x)
  {
    hide Floor, Inv, Enabled;
    match step
    case Receive(i, s) => ReceiveInv(w, base, x, i, s);
    case Answer(i, token, from, created) => AnswerInv(w, base, x, i, token, from, created);
    case Read(i, k, conf, lastSeq) => ReadInv(w, base, x, i, k, conf, lastSeq);
    case TokenVisit(i, stable) => TokenVisitInv(w, base, x, i, stable);
    case Fail(i) => FailInv(w, base, x, i);
  }

  lemma {:induction false} RunInv(w: World, base: RingSystem.System, x: int, steps: seq<Step>)
    requires Floor(base, x) && Inv(w, base, x) && ValidRun(w, steps)
    ensures Inv(Run(w, steps), base, x)
    decreases |steps|
  {
    hide Floor, Inv, Enabled, Next;
    if steps != [] {
      NextInv(w, base, x, steps[0]);
      RunInv(Next(w, steps[0]), base, x, steps[1..]);
    }
  }

  // ---- What holds after any number of attempts ----

  /** A ring operated, its members stopped, and attempts followed. */
  ghost predicate Reachable(w: World, base: RingSystem.System, maxAllowed: nat) {
    && RingTheorems.Reachable(base, maxAllowed) && |base.ring| <= MAX_PROCS_RING
    && exists steps :: ValidRun(Begin(base), steps) && w == Run(Begin(base), steps)
  }

  lemma {:induction false} RunAppend(w: World, steps: seq<Step>, step: Step)
    requires ValidRun(w, steps) && Enabled(Run(w, steps), step)
    ensures ValidRun(w, steps + [step]) && Run(w, steps + [step]) == Next(Run(w, steps), step)
    decreases |steps|
  {
    hide Enabled, Next;
    if steps == [] {
      assert [step][1..] == [];
    } else {
      assert (steps + [step])[1..] == steps[1..] + [step];
      RunAppend(Next(w, steps[0]), steps[1..], step);
    }
  }

  lemma BeginReachable(base: RingSystem.System, maxAllowed: nat)
    requires RingTheorems.Reachable(base, maxAllowed) && |base.ring| <= MAX_PROCS_RING
    ensures Reachable(Begin(base), base, maxAllowed)
  {
    assert ValidRun(Begin(base), []) && Run(Begin(base), []) == Begin(base);
  }

  lemma NextReachable(w: World, base: RingSystem.System, maxAllowed: nat, step: Step)
    requires Reachable(w, base, maxAllowed) && Enabled(w, step)
    ensures Reachable(Next(w, step), base, maxAllowed)
  {
    hide RingTheorems.Reachable, Enabled, Next, Run;
    var steps :| ValidRun(Begin(base), steps) && w == Run(Begin(base), steps);
    RunAppend(Begin(base), steps, step);
  }

  lemma ReachableInv(w: World, base: RingSystem.System, maxAllowed: nat) returns (x: int)
    requires Reachable(w, base, maxAllowed)
    ensures Floor(base, x) && Inv(w, base, x) && x == TopStable(base.ring)
  {
    hide RingTheorems.Reachable, Run, Floor, Inv;
    RingTheorems.ReachableInv(base, maxAllowed);
    x := TopStable(base.ring);
    FloorExists(base, maxAllowed);
    BeginInv(base, x);
    var steps :| ValidRun(Begin(base), steps) && w == Run(Begin(base), steps);
    RunInv(Begin(base), base, x, steps);
  }

  /** Failed attempts are undone: a member between attempts is in a proper old-ring state (no dummy, the stable
      mark is the discarded mark, the prefix is the longest one above it), has every packet it had when the ring
      stopped operating, and took back no delivery. */
  lemma FailedAttemptsUndone(w: World, base: RingSystem.System, maxAllowed: nat, i: nat)
    requires Reachable(w, base, maxAllowed) && i < |w.members|
    requires w.members[i].phase.Idle? || w.members[i].phase.Answered?
    ensures var d := w.members[i].d;
            && Frozen(base, i) && Good(d, base.sent) && d.stable == d.discarded && !d.evs
            && (forall s :: s in d.packets ==> !d.packets[s].Hole?)
            && (forall s :: Held(Origin(base, i), s) ==> Held(d, s))
            && Origin(base, i).log <= d.log
  {
    hide Reachable;
    var x := ReachableInv(w, base, maxAllowed);
    assert MemberInv(w, base, x, i);
    hide Good, Held;
    NoHoles(w.members[i].d, base.sent);
  }

  /** In every attempt, whatever went before: the entry carries the largest stable mark, the largest number and
      exactly the packets that no contributor has; and no packet of any daemon in its commit set is a hole. */
  lemma EveryEntryExact(w: World, base: RingSystem.System, maxAllowed: nat, k: nat)
    requires Reachable(w, base, maxAllowed) && k < |w.entries|
    ensures Info(w.entries[k]).Some? && Exact(Info(w.entries[k]).value, w.entries[k].cs)
    ensures forall s :: 1 <= s <= |w.sent| && At(w.sent, s).sender in Info(w.entries[k]).value.procs ==>
              s <= Info(w.entries[k]).value.highest && s !in Info(w.entries[k]).value.holes
  {
    hide Reachable, Floor, Gather, Exact, ContributorInv;
    var x := ReachableInv(w, base, maxAllowed);
    var e := w.entries[k];
    assert EntryInv(w, base, x, e);
    EntryExact(w, base, x, e);
    forall s | 1 <= s <= |w.sent| && At(w.sent, s).sender in Info(e).value.procs
      ensures s <= Info(e).value.highest && s !in Info(e).value.holes
    {
      CommitNeverHole(w, base, x, e, s);
    }
  }

  /** In every attempt, reading FORM2 is fatal if and only if a packet arrived that the token does not know. */
  lemma ReadIsFatal(w: World, base: RingSystem.System, maxAllowed: nat, i: nat, k: nat, conf: Conf, lastSeq: int)
    requires Reachable(w, base, maxAllowed) && Enabled(w, Read(i, k, conf, lastSeq))
    ensures Info(w.entries[k]).Some?
    ensures Next(w, Read(i, k, conf, lastSeq)).members[i].phase.Dead? <==> Late(w.members[i].d, Info(w.entries[k]).value)
  {
    hide Reachable, Floor, Gather, Good, Fits, ReadForm2, Late;
    var x := ReachableInv(w, base, maxAllowed);
    assert MemberInv(w, base, x, i);
    EntryFits(w, base, x, i, k);
    SendersConfigured(w.members[i].d, w.sent, conf);
    ReadForm2Outcome(w.members[i].d, Info(w.entries[k]).value, conf, w.sent);
  }

  /** Every ordered packet of every daemon in the commit set of an attempt, whether that daemon answered or only
      committed earlier with one that did, is delivered by all who come through. */
  lemma SurvivorsPacketsDelivered(w: World, base: RingSystem.System, maxAllowed: nat, k: nat, s: int)
    requires Reachable(w, base, maxAllowed) && k < |w.entries|
    requires 1 <= s <= |w.sent| && !IsFloating(At(w.sent, s))
    requires Info(w.entries[k]).Some? && At(w.sent, s).sender in Info(w.entries[k]).value.procs
    ensures var rg := Info(w.entries[k]).value;
            0 <= rg.aru <= rg.highest <= |w.sent| && Message(At(w.sent, s)) in VirtualSynchrony.Prescribed(w.sent, rg)
  {
    hide Reachable, Floor, Gather, Exact, ContributorInv;
    var x := ReachableInv(w, base, maxAllowed);
    var e := w.entries[k];
    assert EntryInv(w, base, x, e);
    EntryExact(w, base, x, e);
    CommitNeverHole(w, base, x, e, s);
    VirtualSynchrony.PrescribedContains(w.sent, Info(e).value, s);
  }

  lemma RecoveringState(w: World, base: RingSystem.System, maxAllowed: nat, i: nat)
    requires Reachable(w, base, maxAllowed) && i < |w.members| && w.members[i].phase.Recovering?
    ensures w.members[i].phase.entry < |w.entries| && Info(w.entries[w.members[i].phase.entry]).Some?
    ensures EvsGood(w.members[i].d, Info(w.entries[w.members[i].phase.entry]).value, w.sent) && Numbered(w.sent)
    ensures InRecovery(w, w.members[i])
  {
    hide Reachable, EvsGood, Info;
    var x := ReachableInv(w, base, maxAllowed);
    assert MemberInv(w, base, x, i);
  }

  /** Whoever recovered completely in an attempt delivers exactly the events that the attempt's entry prescribes,
      and takes no fatal branch. */
  lemma RecoveryPrescribed(w: World, base: RingSystem.System, maxAllowed: nat, i: nat)
    requires Reachable(w, base, maxAllowed) && i < |w.members| && w.members[i].phase.Recovering?
    requires VirtualSynchrony.Complete(w.members[i].d)
    ensures w.members[i].phase.entry < |w.entries| && Info(w.entries[w.members[i].phase.entry]).Some?
    ensures var rg := Info(w.entries[w.members[i].phase.entry]).value;
            && 0 <= rg.aru <= rg.highest <= |w.sent|
            && Ordered(EvsDeliver(w.members[i].d, rg.procs).log) == VirtualSynchrony.Prescribed(w.sent, rg)
            && !EvsDeliver(w.members[i].d, rg.procs).alarm
  {
    hide Reachable, Floor, Gather, EvsGood, Good;
    var x := ReachableInv(w, base, maxAllowed);
    assert MemberInv(w, base, x, i);
    VirtualSynchrony.EvsDeliverPrescribed(w.members[i].d, Info(w.entries[w.members[i].phase.entry]).value, w.sent);
  }

  // ---- From the recoveries of several old rings to the new ring ----

  /** An old ring, how it ended, and the attempts since. */
  datatype Old = Old(base: RingSystem.System, maxAllowed: nat, w: World)

  /** A member of the new ring: an old ring and a position in it. */
  datatype Place = Place(ring: nat, i: nat)

  ghost predicate Separate(olds: seq<Old>) {
    forall r, q, i, j :: 0 <= r < q < |olds| && 0 <= i < |olds[r].base.ring| && 0 <= j < |olds[q].base.ring| ==>
      olds[r].base.ring[i].d.id != olds[q].base.ring[j].d.id
  }

  ghost predicate ReadyAt(olds: seq<Old>, place: Place, lastSeq: int, m: EvsBarrier.Member) {
    && place.ring < |olds| && place.i < |olds[place.ring].w.members|
    && var w := olds[place.ring].w;
    && w.members[place.i].phase.Recovering? && w.members[place.i].phase.lastSeq == lastSeq
    && w.members[place.i].phase.entry < |w.entries|
    && Info(w.entries[w.members[place.i].phase.entry]).Some?
    && w.members[place.i].d.stable == 0
    && m == EvsBarrier.Member(w.members[place.i].d, Info(w.entries[w.members[place.i].phase.entry]).value, w.sent, 0, false)
  }

  /** All daemons of the new ring have read FORM2, whatever each of them went through before, and no recovery
      token has come by yet. */
  ghost predicate Assembled(olds: seq<Old>, places: seq<Place>, start: EvsBarrier.System) {
    && (forall r :: 0 <= r < |olds| ==> Reachable(olds[r].w, olds[r].base, olds[r].maxAllowed))
    && Separate(olds)
    && |places| == |start.ring| && start.aru >= 0
    && (forall p :: 0 <= p < |places| ==> ReadyAt(olds, places[p], start.lastSeq, start.ring[p]))
    && (forall p, q :: 0 <= p < q < |places| ==> places[p] != places[q])
  }

  lemma PlaceIds(old_: Old, i: nat)
    requires Reachable(old_.w, old_.base, old_.maxAllowed) && i < |old_.w.members| && old_.w.members[i].phase.Recovering?
    ensures |old_.w.members| == |old_.base.ring| && Frozen(old_.base, i)
    ensures old_.w.members[i].d.id == old_.base.ring[i].d.id
    ensures InRecovery(old_.w, old_.w.members[i])
    ensures forall j :: Frozen(old_.base, j) && j != i ==> old_.base.ring[j].d.id != old_.base.ring[i].d.id
  {
    hide Reachable, Good, EvsBarrier.MemberOk, Info, HoldsAll;
    var x := ReachableInv(old_.w, old_.base, old_.maxAllowed);
    assert MemberInv(old_.w, old_.base, x, i);
  }

  /** What the barrier presupposes of its members is what reading FORM2 leaves behind. */
  lemma AssembledStarts(olds: seq<Old>, places: seq<Place>, start: EvsBarrier.System)
    requires Assembled(olds, places, start)
    ensures EvsBarrier.Start(start)
  {
    hide Reachable, EvsBarrier.MemberOk, Info;
    forall p | 0 <= p < |start.ring|
      ensures EvsBarrier.MemberOk(start.ring[p], start.lastSeq) && start.ring[p].lastAru == 0
      ensures start.ring[p].d.stable == 0 && !start.ring[p].installed
    {
      PlaceIds(olds[places[p].ring], places[p].i);
    }
    forall p, q | 0 <= p < q < |start.ring| ensures start.ring[p].d.id != start.ring[q].d.id {
      PlaceIds(olds[places[p].ring], places[p].i);
      PlaceIds(olds[places[q].ring], places[q].i);
    }
  }

  /** A daemon keeps its id and what it read, wherever the token moves it. */
  lemma {:induction false} BarrierKeeps(start: EvsBarrier.System, steps: seq<EvsBarrier.Step>, p: nat)
    requires EvsBarrier.Inv(start) && EvsBarrier.ValidRun(start, steps) && p < |EvsBarrier.Run(start, steps).ring|
    ensures var m := EvsBarrier.Run(start, steps).ring[p];
            exists q :: 0 <= q < |start.ring| && start.ring[q].d.id == m.d.id && start.ring[q].rg == m.rg && start.ring[q].sent == m.sent
    decreases |steps|
  {
    if steps == [] {
      assert start.ring[p].d.id == EvsBarrier.Run(start, steps).ring[p].d.id;
    } else {
      hide EvsBarrier.Run, EvsBarrier.Inv, EvsBarrier.Next;
      var next := EvsBarrier.Next(start, steps[0]);
      RunUnfolds(start, steps);
      EvsBarrier.NextInv(start, steps[0]);
      BarrierKeeps(next, steps[1..], p);
      var m := EvsBarrier.Run(next, steps[1..]).ring[p];
      var q: nat :| q < |next.ring| && next.ring[q].d.id == m.d.id && next.ring[q].rg == m.rg && next.ring[q].sent == m.sent;
      BarrierStepKeeps(start, steps[0], q);
    }
  }

  lemma BarrierStepKeeps(sys: EvsBarrier.System, step: EvsBarrier.Step, q: nat)
    requires EvsBarrier.Inv(sys) && EvsBarrier.Enabled(sys, step) && q < |EvsBarrier.Next(sys, step).ring|
    ensures var m := EvsBarrier.Next(sys, step).ring[q];
            exists o :: 0 <= o < |sys.ring| && sys.ring[o].d.id == m.d.id && sys.ring[o].rg == m.rg && sys.ring[o].sent == m.sent
  {
    hide EvsBarrier.MemberOk, HandleBcast, EvsBarrier.Recount;
    var m := EvsBarrier.Next(sys, step).ring[q];
    if step.Receive? {
      EvsBarrier.ReceiveOk(sys.ring[step.i], sys.lastSeq, step.s);
      assert sys.ring[q].d.id == m.d.id;
    } else {
      assert sys.ring[if q == |sys.ring| - 1 then 0 else q + 1].d.id == m.d.id;
    }
  }

  lemma RunUnfolds(start: EvsBarrier.System, steps: seq<EvsBarrier.Step>)
    requires EvsBarrier.ValidRun(start, steps) && steps != []
    ensures EvsBarrier.Run(start, steps) == EvsBarrier.Run(EvsBarrier.Next(start, steps[0]), steps[1..])
  {}

  /** The member of the new ring that was member i of old ring r. */
  ghost predicate Became(olds: seq<Old>, r: nat, i: nat, sys: EvsBarrier.System, p: nat) {
    r < |olds| && i < |olds[r].w.members| && p < |sys.ring| && sys.ring[p].d.id == olds[r].w.members[i].d.id
  }

  lemma SamePlace(olds: seq<Old>, places: seq<Place>, start: EvsBarrier.System, r: nat, i: nat, q: nat)
    requires Assembled(olds, places, start) && q < |start.ring|
    requires r < |olds| && i < |olds[r].w.members| && olds[r].w.members[i].phase.Recovering?
    requires start.ring[q].d.id == olds[r].w.members[i].d.id
    ensures var w := olds[r].w;
            && w.members[i].phase.entry < |w.entries| && Info(w.entries[w.members[i].phase.entry]).Some?
            && start.ring[q].rg == Info(w.entries[w.members[i].phase.entry]).value && start.ring[q].sent == w.sent
  {
    hide Reachable, EvsBarrier.MemberOk, Info;
    PlaceIds(olds[r], i);
    PlaceIds(olds[places[q].ring], places[q].i);
    assert places[q] == Place(r, i);
  }

  /** Once any daemon has installed the new ring, everyone delivers what the entry that it read prescribes. */
  lemma Installed(olds: seq<Old>, places: seq<Place>, start: EvsBarrier.System, steps: seq<EvsBarrier.Step>, first: nat,
                  r: nat, i: nat, p: nat)
    requires Assembled(olds, places, start) && EvsBarrier.ValidRun(start, steps)
    requires var sys := EvsBarrier.Run(start, steps);
             first < |sys.ring| && sys.ring[first].installed && Became(olds, r, i, sys, p)
    requires olds[r].w.members[i].phase.Recovering?
    ensures var w := olds[r].w;
            w.members[i].phase.entry < |w.entries| && Info(w.entries[w.members[i].phase.entry]).Some?
    ensures var w := olds[r].w;
            var rg := Info(w.entries[w.members[i].phase.entry]).value;
            var d := EvsBarrier.Run(start, steps).ring[p].d;
            && 0 <= rg.aru <= rg.highest <= |w.sent|
            && Ordered(EvsDeliver(d, rg.procs).log) == VirtualSynchrony.Prescribed(w.sent, rg)
            && !EvsDeliver(d, rg.procs).alarm && EvsBarrier.Run(start, steps).ring[p].rg == rg
  {
    hide Assembled, Info, EvsBarrier.Run, EvsBarrier.Start, EvsBarrier.Inv, EvsDeliver, Ordered, VirtualSynchrony.Prescribed;
    AssembledStarts(olds, places, start);
    EvsBarrier.Barrier(start, steps, first, p);
    EvsBarrier.StartInv(start);
    BarrierKeeps(start, steps, p);
    var m := EvsBarrier.Run(start, steps).ring[p];
    var q: nat :| q < |start.ring| && start.ring[q].d.id == m.d.id && start.ring[q].rg == m.rg && start.ring[q].sent == m.sent;
    SamePlace(olds, places, start, r, i, q);
  }

  /** What such a member's state is, for use elsewhere. */
  lemma MemberOf(olds: seq<Old>, places: seq<Place>, start: EvsBarrier.System, steps: seq<EvsBarrier.Step>, first: nat,
                 r: nat, i: nat, p: nat)
    requires Assembled(olds, places, start) && EvsBarrier.ValidRun(start, steps)
    requires var sys := EvsBarrier.Run(start, steps);
             first < |sys.ring| && sys.ring[first].installed && Became(olds, r, i, sys, p)
    requires olds[r].w.members[i].phase.Recovering?
    ensures var w := olds[r].w;
            w.members[i].phase.entry < |w.entries| && Info(w.entries[w.members[i].phase.entry]).Some?
    ensures var w, m := olds[r].w, EvsBarrier.Run(start, steps).ring[p];
            && m.sent == w.sent && m.rg == Info(w.entries[w.members[i].phase.entry]).value
            && EvsGood(m.d, m.rg, m.sent) && VirtualSynchrony.Complete(m.d)
  {
    hide Assembled, Info, EvsBarrier.Run, EvsBarrier.Start, EvsBarrier.Inv, EvsDeliver, Ordered, VirtualSynchrony.Prescribed;
    AssembledStarts(olds, places, start);
    EvsBarrier.Barrier(start, steps, first, p);
    EvsBarrier.StartInv(start);
    BarrierKeeps(start, steps, p);
    var m := EvsBarrier.Run(start, steps).ring[p];
    var q: nat :| q < |start.ring| && start.ring[q].d.id == m.d.id && start.ring[q].rg == m.rg && start.ring[q].sent == m.sent;
    SamePlace(olds, places, start, r, i, q);
  }

  /** Virtual synchrony: two daemons of an old ring that come into the new ring together, after however many failed
      attempts each, deliver the same ordered packets of the old ring in the same order, with the transitional
      signal and the new view at the same point. */
  lemma SameDeliveries(olds: seq<Old>, places: seq<Place>, start: EvsBarrier.System, steps: seq<EvsBarrier.Step>, first: nat,
                       r: nat, i: nat, p: nat, j: nat, q: nat)
    requires Assembled(olds, places, start) && EvsBarrier.ValidRun(start, steps)
    requires var sys := EvsBarrier.Run(start, steps);
             first < |sys.ring| && sys.ring[first].installed && Became(olds, r, i, sys, p) && Became(olds, r, j, sys, q)
    requires olds[r].w.members[i].phase.Recovering? && olds[r].w.members[j].phase == olds[r].w.members[i].phase
    ensures var sys := EvsBarrier.Run(start, steps);
            Ordered(EvsDeliver(sys.ring[p].d, sys.ring[p].rg.procs).log) == Ordered(EvsDeliver(sys.ring[q].d, sys.ring[q].rg.procs).log)
  {
    hide Assembled, EvsBarrier.Run, Info, EvsDeliver, VirtualSynchrony.Prescribed;
    Installed(olds, places, start, steps, first, r, i, p);
    Installed(olds, places, start, steps, first, r, j, q);
  }

  // ---- SAFE packets ----

  lemma SafeIsDiscarded(d: Daemon, rg: RingInfo, sent: seq<Packet>, p: Packet)
    requires EvsGood(d, rg, sent) && p.service == Safe && Message(p) in d.log
    ensures p.seqNo <= d.discarded
  {
    hide LogOrdered;
    var k :| 0 <= k < |d.log| && d.log[k] == Message(p);
    assert Genuine(d.log[k], sent) && Passed(d, d.log[k].p.seqNo);
  }

  /** No member's prefix, whether it stopped or not, ends below the largest stable mark that anybody stopped with. */
  lemma TopReached(base: RingSystem.System, maxAllowed: nat, j: nat)
    requires RingSystem.Inv(base, maxAllowed) && j < |base.ring|
    ensures TopStable(base.ring) <= base.ring[j].d.received && Good(base.ring[j].d, base.sent)
  {
    RingTheorems.MarksOf(base, maxAllowed, j, j);
    var x := TopStable(base.ring);
    hide Good, TopStable;
    if x > 0 {
      var i :| 0 <= i < |base.ring| && base.ring[i].snapshot.Some? && base.ring[i].snapshot.value.stable == x;
      RingTheorems.MarksOf(base, maxAllowed, i, j);
    } else {
      MarksPositive(base.ring[j].d, base.sent);
    }
  }

  lemma MarksPositive(d: Daemon, sent: seq<Packet>)
    requires Good(d, sent)
    ensures 0 <= d.received && forall s :: s <= d.received ==> Held(d, s)
  {
    hide LogExact, LogOrdered, DeliveryMarks;
  }

  /** A SAFE packet that a member has passed up, in operation or between or during attempts, before it delivers the
      transitional signal, is held by every member of the old ring, also by those that do not come along. */
  lemma SafeMeansEverywhere(w: World, base: RingSystem.System, maxAllowed: nat, i: nat, p: Packet, j: nat)
    requires Reachable(w, base, maxAllowed) && i < |w.members| && j < |base.ring|
    requires !w.members[i].phase.Operating? && !w.members[i].phase.Dead?
    requires p.service == Safe && Message(p) in w.members[i].d.log
    ensures p.seqNo <= base.ring[j].d.received && Held(base.ring[j].d, p.seqNo)
  {
    var x := ReachableInv(w, base, maxAllowed);
    RingTheorems.ReachableInv(base, maxAllowed);
    hide RingTheorems.Reachable, Floor, Info, HoldsAll, Good, EvsGood, RingSystem.Inv, Held;
    assert MemberInv(w, base, x, i);
    TopReached(base, maxAllowed, j);
    MarksPositive(base.ring[j].d, base.sent);
    var m := w.members[i];
    if m.phase.Recovering? {
      SafeIsDiscarded(m.d, Info(w.entries[m.phase.entry]).value, w.sent, p);
    } else {
      RingTheorems.SafeIsDiscarded(m.d, w.sent, p);
    }
  }

  lemma {:induction false} BeforeSignalAdds(d: Daemon) returns (more: seq<Event>)
    ensures BeforeSignal(d).log == d.log + more
    ensures forall k :: 0 <= k < |more| ==> more[k].Message? && more[k].p.service != Safe
    decreases d.highest - d.discarded
  {
    SignalTurn(d);
    var s := d.discarded + 1;
    if s <= d.highest && s in d.packets && !d.packets[s].Hole? && d.packets[s].p.service != Safe {
      var rest := BeforeSignalAdds(DiscardOne(d));
      var first := if d.packets[s].Pending? then [Message(d.packets[s].p)] else [];
      more := first + rest;
      assert d.log + first + rest == d.log + more;
    } else {
      more := [];
    }
  }

  lemma {:induction false} AfterSignalAdds(d: Daemon, commit: seq<int>, s: int, foundHole: bool) returns (more: seq<Event>)
    ensures AfterSignal(d, commit, s, foundHole).log == d.log + more
    ensures forall k :: 0 <= k < |more| ==> more[k].Message?
    decreases d.highest - s
  {
    more := [];
    if s <= d.highest && s in d.packets {
      if d.packets[s].Hole? {
        more := AfterSignalAdds(d.(packets := d.packets - {s}), commit, s + 1, true);
      } else {
        var e := AfterOne(d, commit, s, foundHole);
        var rest := AfterSignalAdds(e, commit, s + 1, foundHole);
        var first := e.log[|d.log|..];
        assert e.log == d.log + first;
        more := first + rest;
        assert d.log + first + rest == d.log + more;
      }
    }
  }

  /** What is delivered ahead of the transitional signal is what had been delivered before, and packets that are not
      SAFE. */
  lemma AheadOfSignal(d: Daemon, commit: seq<int>, a: int, b: int)
    requires forall k :: 0 <= k < |d.log| ==> d.log[k].Message?
    requires 0 <= a < b < |EvsDeliver(d, commit).log| && EvsDeliver(d, commit).log[b] == TransitionalSignal
    ensures var e := EvsDeliver(d, commit).log[a]; e.Message? && (e.p.service == Safe ==> e in d.log)
  {
    var ahead := BeforeSignalAdds(d);
    var t := BeforeSignal(d).(log := BeforeSignal(d).log + [TransitionalSignal]);
    var behind := AfterSignalAdds(t, commit, t.discarded + 1, false);
    hide BeforeSignal, AfterSignal;
    var log := EvsDeliver(d, commit).log;
    assert log == d.log + ahead + [TransitionalSignal] + behind + [RegularView];
    var n := |d.log| + |ahead|;
    assert b == n by {
      assert forall k :: n < k < |log| - 1 ==> log[k] == behind[k - n - 1];
    }
    assert a < |d.log| ==> log[a] == d.log[a] && d.log[a] in d.log;
    assert a >= |d.log| ==> log[a] == ahead[a - |d.log|];
  }

  /** The same for the whole delivery: ahead of the transitional signal a SAFE packet is passed up only if every member of
      the old ring holds it. */
  lemma SafeAheadOfSignal(w: World, base: RingSystem.System, maxAllowed: nat, i: nat, a: int, b: int, j: nat)
    requires Reachable(w, base, maxAllowed) && i < |w.members| && j < |base.ring| && w.members[i].phase.Recovering?
    requires w.members[i].phase.entry < |w.entries| && Info(w.entries[w.members[i].phase.entry]).Some?
    requires var log := EvsDeliver(w.members[i].d, Info(w.entries[w.members[i].phase.entry]).value.procs).log;
             && 0 <= a < b < |log| && log[b] == TransitionalSignal
             && log[a].Message? && log[a].p.service == Safe
    ensures var p := EvsDeliver(w.members[i].d, Info(w.entries[w.members[i].phase.entry]).value.procs).log[a].p;
            p.seqNo <= base.ring[j].d.received && Held(base.ring[j].d, p.seqNo)
  {
    hide Reachable, Info, EvsDeliver, EvsGood, Held;
    RecoveringState(w, base, maxAllowed, i);
    var d, rg := w.members[i].d, Info(w.entries[w.members[i].phase.entry]).value;
    OnlyMessages(d, rg, w.sent);
    AheadOfSignal(d, rg.procs, a, b);
    SafeMeansEverywhere(w, base, maxAllowed, i, EvsDeliver(d, rg.procs).log[a].p, j);
  }

  lemma OnlyMessages(d: Daemon, rg: RingInfo, sent: seq<Packet>)
    requires EvsGood(d, rg, sent)
    ensures forall k :: 0 <= k < |d.log| ==> d.log[k].Message?
  {
    hide EvsTable, DeliveryMarks, LogOrdered;
    forall k | 0 <= k < |d.log| ensures d.log[k].Message? {
      assert Genuine(d.log[k], sent);
    }
  }

  // ---- Commit sets over attempts ----

  /** A daemon's commit set is carried from attempt to attempt, into every entry it contributes to, and becomes an entry's
      commit set when it has finished recovering with that entry. */
  lemma CommitsCarried(w: World, step: Step, i: nat)
    requires Enabled(w, step) && i < |w.members|
    ensures i < |Next(w, step).members|
    ensures var m, n := w.members[i], Next(w, step).members[i];
            n.commit == if step.TokenVisit? && step.i == i && EvsBarrier.Recount(m.d, m.phase.lastSeq) == m.phase.lastSeq
                        then Info(w.entries[m.phase.entry]).value.procs else m.commit
    ensures step.Answer? && !Next(w, step).members[step.i].phase.Dead? ==>
              var e := Next(w, step).entries; var c := w.members[step.i];
              |e| == |w.entries| + 1 && e[|w.entries|].cs[|e[|w.entries|].cs| - 1] == Contributor(c.d, c.commit)
              && (step.from.Some? ==> w.entries[step.from.value].cs <= e[|w.entries|].cs)
  {
    hide Info, HandleBcast, ReadForm2, Backoff, EvsBarrier.Recount;
  }
}
