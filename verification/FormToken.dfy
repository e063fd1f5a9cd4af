/** What the FORM1 token collects about one old ring.

Each daemon of the ring that the token visits folds its own view into the ring's entry: the
largest stable mark, the largest sequence number, the packets nobody so far has, and the daemons
that come through the change together. */
module FormToken {
  import opened SpreadTypes
  import opened Delivery

  /** `procs` starts with the `numTrans` daemons visited so far, in visiting order; the rest of the
      commit set follows. */
  datatype RingInfo = RingInfo(aru: int, highest: int, holes: seq<int>, procs: seq<int>, numTrans: nat)

  datatype Contributor = Contributor(d: Daemon, commit: seq<int>)

  /** The numbers in (from, last] without a slot, ascending. */
  function Gaps(packets: map<int, Slot>, from: int, last: int): (gaps: seq<int>)
    ensures forall s :: s in gaps <==> from < s <= last && s !in packets
    ensures Ascending(gaps)
    decreases last - from
  {
    if from >= last then []
    else
      var before := Gaps(packets, from, last - 1);
      assert forall i :: 0 <= i < |before| ==> before[i] in before;
      if last in packets then before else before + [last]
  }

  predicate Ascending(holes: seq<int>) {
    forall i, j :: 0 <= i < j < |holes| ==> holes[i] < holes[j]
  }

  function Without(procs: seq<int>, id: int): (r: seq<int>)
    ensures forall p :: p in r <==> p in procs && p != id
  {
    if procs == [] then []
    else (if procs[0] == id then [] else [procs[0]]) + Without(procs[1..], id)
  }

  /** The daemon that creates the token looks for gaps above its own prefix only. */
  function Create(c: Contributor): RingInfo {
    RingInfo(c.d.stable, c.d.highest, Gaps(c.d.packets, c.d.received, c.d.highest),
             [c.d.id] + Without(c.commit, c.d.id), 1)
  }

  /** A later daemon that is the first of its ring looks at everything above its discarded mark. */
  function First(c: Contributor): RingInfo {
    Create(c).(holes := Gaps(c.d.packets, c.d.discarded, c.d.highest))
  }

  function InsertMember(procs: seq<int>, id: int): (r: seq<int>)
    ensures procs <= r
    ensures |r| <= |procs| + 1
  {
    if id in procs || |procs| == MAX_PROCS_RING then procs else procs + [id]
  }

  function InsertAll(procs: seq<int>, ids: seq<int>): (r: seq<int>)
    ensures procs <= r
    decreases |ids|
  {
    if ids == [] then procs else InsertAll(InsertMember(procs, ids[0]), ids[1..])
  }

  /** The holes of the entry that this daemon cannot fill either. */
  function StillMissing(packets: map<int, Slot>, holes: seq<int>): (r: seq<int>)
    ensures forall s :: s in r <==> s in holes && s !in packets
  {
    if holes == [] then []
    else
      var rest := holes[..|holes| - 1];
      assert holes == rest + [holes[|rest|]];
      if holes[|rest|] in packets then StillMissing(packets, rest)
      else StillMissing(packets, rest) + [holes[|rest|]]
  }

  lemma {:induction false} StillMissingAscending(packets: map<int, Slot>, holes: seq<int>)
    requires Ascending(holes)
    ensures Ascending(StillMissing(packets, holes))
  {
    if holes != [] {
      var rest := holes[..|holes| - 1];
      StillMissingAscending(packets, rest);
      var before := StillMissing(packets, rest);
      forall i | 0 <= i < |before| ensures before[i] < holes[|rest|] {
        assert before[i] in before && before[i] in rest;
      }
    }
  }

  /** A daemon whose ring already has an entry. `None` is the fatal branch "incorrect trans set". */
  function Fill(rg: RingInfo, c: Contributor): Option<RingInfo>
    requires rg.numTrans <= |rg.procs|
  {
    var d := c.d;
    var trans := InsertMember(InsertAll([], rg.procs[..rg.numTrans]), d.id);
    if |trans| != rg.numTrans + 1 then None
    else Some(RingInfo(
      Max(rg.aru, d.stable), Max(rg.highest, d.highest),
      StillMissing(d.packets, rg.holes) + Gaps(d.packets, rg.highest, d.highest),
      InsertAll(InsertAll(trans, rg.procs[rg.numTrans..]), c.commit), rg.numTrans + 1))
  }

  /** The entry after the token has visited the contributors in order. */
  function Gather(cs: seq<Contributor>, created: bool): (r: Option<RingInfo>)
    requires cs != []
    ensures r.Some? ==> r.value.numTrans <= |r.value.procs|
  {
    if |cs| == 1 then Some(if created then Create(cs[0]) else First(cs[0]))
    else
      var before := Gather(cs[..|cs| - 1], created);
      if before.None? then None else Fill(before.value, cs[|cs| - 1])
  }

  // ---- Exactness ----

  /** The contributors are daemons of one ring whose stable marks nobody's prefix falls behind. */
  ghost predicate Comparable(cs: seq<Contributor>, sent: seq<Packet>) {
    && (forall k :: 0 <= k < |cs| ==> Good(cs[k].d, sent) && cs[k].d.stable == cs[k].d.discarded)
    && (forall k, l :: 0 <= k < |cs| && 0 <= l < |cs| ==> cs[k].d.stable <= cs[l].d.received)
    && (forall k, l :: 0 <= k < l < |cs| ==> cs[k].d.id != cs[l].d.id)
  }

  ghost predicate HeldByNone(cs: seq<Contributor>, s: int) {
    forall k :: 0 <= k < |cs| ==> !Held(cs[k].d, s)
  }

  /** The entry carries the maximum stable mark, the maximum sequence number, and exactly the
      numbers up to it that no visited daemon has. */
  ghost predicate Exact(rg: RingInfo, cs: seq<Contributor>) {
    && (forall k :: 0 <= k < |cs| ==> cs[k].d.stable <= rg.aru && cs[k].d.highest <= rg.highest)
    && (exists k :: 0 <= k < |cs| && cs[k].d.stable == rg.aru)
    && (exists k :: 0 <= k < |cs| && cs[k].d.highest == rg.highest)
    && (forall s :: s in rg.holes <==> 1 <= s <= rg.highest && HeldByNone(cs, s))
    && Ascending(rg.holes)
    && |cs| == rg.numTrans <= |rg.procs|
    && (forall k :: 0 <= k < |cs| ==> rg.procs[k] == cs[k].d.id)
  }

  /** For a daemon without dummy holes, a number above its prefix is held exactly if it has a slot. */
  lemma HeldIsSlot(d: Daemon, sent: seq<Packet>, s: int)
    requires Good(d, sent) && d.discarded < s
    ensures Held(d, s) <==> s in d.packets
    ensures s <= d.received || s > d.highest ==> (Held(d, s) <==> s <= d.received)
  {
    hide LogExact, LogOrdered, DeliveryMarks;
  }

  lemma FirstExact(cs: seq<Contributor>, sent: seq<Packet>, created: bool)
    requires |cs| == 1 && Comparable(cs, sent)
    ensures Gather(cs, created).Some? && Exact(Gather(cs, created).value, cs)
  {
    var rg := Gather(cs, created).value;
    var d := cs[0].d;
    HighestKnown(d, sent);
    forall s ensures s in rg.holes <==> 1 <= s <= rg.highest && HeldByNone(cs, s) {
      if s > d.discarded {
        HeldIsSlot(d, sent, s);
      }
      assert HeldByNone(cs, s) <==> !Held(d, s);
    }
    assert cs[0].d.stable == rg.aru && cs[0].d.highest == rg.highest;
  }

  lemma {:induction false} InsertDistinct(procs: seq<int>, ids: seq<int>)
    requires |procs| + |ids| <= MAX_PROCS_RING
    requires forall i, j :: 0 <= i < j < |ids| ==> ids[i] != ids[j]
    requires forall p :: p in ids ==> p !in procs
    ensures InsertAll(procs, ids) == procs + ids
    decreases |ids|
  {
    if ids != [] {
      assert InsertMember(procs, ids[0]) == procs + [ids[0]];
      InsertDistinct(procs + [ids[0]], ids[1..]);
      assert procs + [ids[0]] + ids[1..] == procs + ids;
    }
  }

  lemma FillHoles(rg: RingInfo, c: Contributor, before: seq<Contributor>, sent: seq<Packet>, s: int)
    requires before != [] && Comparable(before + [c], sent)
    requires Exact(rg, before) && 1 <= s
    ensures (s in StillMissing(c.d.packets, rg.holes) || s in Gaps(c.d.packets, rg.highest, c.d.highest))
       <==> s <= Max(rg.highest, c.d.highest) && HeldByNone(before + [c], s)
  {
    var cs := before + [c];
    assert cs[|before|] == c && forall k :: 0 <= k < |before| ==> cs[k] == before[k];
    assert HeldByNone(cs, s) <==> HeldByNone(before, s) && !Held(c.d, s);
    HighestKnown(c.d, sent);
    if s > rg.highest {
      NoneAbove(rg, c, before, sent, s);
      HeldIsSlot(c.d, sent, s);
    } else if HeldByNone(before, s) {
      assert !Held(cs[0].d, s);
      HeldIsSlot(cs[0].d, sent, s);
      assert cs[|before|].d.stable <= cs[0].d.received;
      HeldIsSlot(c.d, sent, s);
    }
  }

  /** Nobody visited before holds a number above the entry's, and the next daemon has not discarded it. */
  lemma NoneAbove(rg: RingInfo, c: Contributor, before: seq<Contributor>, sent: seq<Packet>, s: int)
    requires before != [] && Comparable(before + [c], sent)
    requires Exact(rg, before) && rg.highest < s
    ensures HeldByNone(before, s) && c.d.discarded < s
  {
    var cs := before + [c];
    assert cs[|before|] == c && forall k :: 0 <= k < |before| ==> cs[k] == before[k];
    forall k | 0 <= k < |before| ensures !Held(before[k].d, s) {
      assert Good(cs[k].d, sent);
      HighestKnown(cs[k].d, sent);
      HeldIsSlot(cs[k].d, sent, s);
    }
    assert cs[|before|].d.stable <= cs[0].d.received;
    HighestKnown(cs[0].d, sent);
  }

  lemma FillProcs(rg: RingInfo, c: Contributor, before: seq<Contributor>)
    requires |before| == rg.numTrans <= |rg.procs| && |before| < MAX_PROCS_RING
    requires forall k :: 0 <= k < |before| ==> rg.procs[k] == before[k].d.id && before[k].d.id != c.d.id
    requires forall k, l :: 0 <= k < l < |before| ==> before[k].d.id != before[l].d.id
    ensures Fill(rg, c).Some?
    ensures var out := Fill(rg, c).value;
            && out.aru == Max(rg.aru, c.d.stable) && out.highest == Max(rg.highest, c.d.highest)
            && out.holes == StillMissing(c.d.packets, rg.holes) + Gaps(c.d.packets, rg.highest, c.d.highest)
            && |before| + 1 == out.numTrans <= |out.procs|
            && out.procs[|before|] == c.d.id
            && forall k :: 0 <= k < |before| ==> out.procs[k] == before[k].d.id
  {
    var ids := rg.procs[..rg.numTrans];
    InsertDistinct([], ids);
    assert [] + ids == ids;
    assert c.d.id !in ids;
    assert InsertMember(ids, c.d.id) == ids + [c.d.id];
    assert ids + [c.d.id] <= Fill(rg, c).value.procs;
    assert (ids + [c.d.id])[|before|] == c.d.id;
  }

  lemma FillAscending(rg: RingInfo, d: Daemon)
    requires Ascending(rg.holes) && forall s :: s in rg.holes ==> s <= rg.highest
    ensures Ascending(StillMissing(d.packets, rg.holes) + Gaps(d.packets, rg.highest, d.highest))
  {
    StillMissingAscending(d.packets, rg.holes);
    var low := StillMissing(d.packets, rg.holes);
    var high := Gaps(d.packets, rg.highest, d.highest);
    forall i, j | 0 <= i < j < |low + high| ensures (low + high)[i] < (low + high)[j] {
      if i < |low| {
        assert low[i] in low;
        if j >= |low| {
          assert high[j - |low|] in high;
        }
      }
    }
  }

  lemma FillMaxima(rg: RingInfo, c: Contributor, before: seq<Contributor>)
    requires exists k :: 0 <= k < |before| && before[k].d.stable == rg.aru
    requires exists k :: 0 <= k < |before| && before[k].d.highest == rg.highest
    ensures exists k :: 0 <= k < |before + [c]| && (before + [c])[k].d.stable == Max(rg.aru, c.d.stable)
    ensures exists k :: 0 <= k < |before + [c]| && (before + [c])[k].d.highest == Max(rg.highest, c.d.highest)
  {
    var cs := before + [c];
    var k :| 0 <= k < |before| && before[k].d.stable == rg.aru;
    assert cs[if c.d.stable > rg.aru then |before| else k].d.stable == Max(rg.aru, c.d.stable);
    var l :| 0 <= l < |before| && before[l].d.highest == rg.highest;
    assert cs[if c.d.highest > rg.highest then |before| else l].d.highest == Max(rg.highest, c.d.highest);
  }

  lemma FillAllHoles(rg: RingInfo, c: Contributor, before: seq<Contributor>, sent: seq<Packet>)
    requires before != [] && Comparable(before + [c], sent)
    requires Exact(rg, before)
    ensures forall s :: s in StillMissing(c.d.packets, rg.holes) + Gaps(c.d.packets, rg.highest, c.d.highest)
                   <==> 1 <= s <= Max(rg.highest, c.d.highest) && HeldByNone(before + [c], s)
  {
    hide Good, HeldByNone, Held;
    assert (before + [c])[0] == before[0];
    HighestKnown(before[0].d, sent);
    assert rg.highest >= 0;
    forall s
      ensures s in StillMissing(c.d.packets, rg.holes) + Gaps(c.d.packets, rg.highest, c.d.highest)
         <==> 1 <= s <= Max(rg.highest, c.d.highest) && HeldByNone(before + [c], s)
    {
      if s >= 1 {
        FillHoles(rg, c, before, sent, s);
      }
    }
  }

  lemma FillExact(rg: RingInfo, c: Contributor, before: seq<Contributor>, sent: seq<Packet>)
    requires before != [] && |before| < MAX_PROCS_RING && Comparable(before + [c], sent)
    requires Exact(rg, before)
    ensures Fill(rg, c).Some? && Exact(Fill(rg, c).value, before + [c])
  {
    hide Good, HeldByNone, Held, Ascending, Fill;
    var cs := before + [c];
    assert cs[|before|] == c && forall k :: 0 <= k < |before| ==> cs[k] == before[k];
    FillProcs(rg, c, before);
    FillMaxima(rg, c, before);
    FillAscending(rg, c.d);
    FillAllHoles(rg, c, before, sent);
  }

  /** However many daemons of the ring the token visits, and in whatever order, the entry is exact
      and no fatal branch is taken. */
  lemma {:induction false} GatherExact(cs: seq<Contributor>, sent: seq<Packet>, created: bool)
    requires 1 <= |cs| <= MAX_PROCS_RING && Comparable(cs, sent)
    ensures Gather(cs, created).Some? && Exact(Gather(cs, created).value, cs)
  {
    hide Good, Exact, Fill;
    if |cs| == 1 {
      FirstExact(cs, sent, created);
    } else {
      var before := cs[..|cs| - 1];
      assert before + [cs[|cs| - 1]] == cs;
      assert Comparable(before, sent);
      GatherExact(before, sent, created);
      FillExact(Gather(before, created).value, cs[|cs| - 1], before, sent);
    }
  }

  /** A packet sent by a daemon that the token visited is never listed as a hole. */
  lemma OwnPacketNeverHole(cs: seq<Contributor>, sent: seq<Packet>, created: bool, k: nat, s: int)
    requires 1 <= |cs| <= MAX_PROCS_RING && Comparable(cs, sent) && k < |cs|
    requires 1 <= s <= |sent| && At(sent, s).sender == cs[k].d.id && Held(cs[k].d, s)
    ensures Gather(cs, created).Some? && s !in Gather(cs, created).value.holes
  {
    hide Good, Gather;
    GatherExact(cs, sent, created);
  }

  // ---- The commit set ----

  lemma {:induction false} InsertedFrom(procs: seq<int>, ids: seq<int>, y: int)
    ensures y in InsertAll(procs, ids) ==> y in procs || y in ids
    decreases |ids|
  {
    if ids != [] {
      InsertedFrom(InsertMember(procs, ids[0]), ids[1..], y);
    }
  }

  /** Everybody in an entry's commit set was in the commit set of a contributor. */
  lemma {:induction false} CommitFrom(cs: seq<Contributor>, created: bool, y: int)
    requires cs != [] && Gather(cs, created).Some? && y in Gather(cs, created).value.procs
    requires forall k :: 0 <= k < |cs| ==> cs[k].d.id in cs[k].commit
    ensures exists k :: 0 <= k < |cs| && y in cs[k].commit
  {
    var c := cs[|cs| - 1];
    if |cs| == 1 {
      assert y in cs[0].commit;
    } else {
      var before := cs[..|cs| - 1];
      var rg := Gather(before, created).value;
      var trans := InsertMember(InsertAll([], rg.procs[..rg.numTrans]), c.d.id);
      InsertedFrom([], rg.procs[..rg.numTrans], y);
      InsertedFrom(trans, rg.procs[rg.numTrans..], y);
      InsertedFrom(InsertAll(trans, rg.procs[rg.numTrans..]), c.commit, y);
      if y !in c.commit {
        assert y in rg.procs;
        CommitFrom(before, created, y);
        var k :| 0 <= k < |before| && y in before[k].commit;
        assert cs[k] == before[k];
      } else {
        assert y in cs[|cs| - 1].commit;
      }
    }
  }

  /** An id that belongs to at most as many daemons as a list can hold finds room. */
  lemma InsertedMember(procs: seq<int>, id: int, all: set<int>)
    requires Distinct(procs) && |all| <= MAX_PROCS_RING && id in all && forall p :: p in procs ==> p in all
    ensures var r := InsertMember(procs, id);
            id in r && Distinct(r) && forall p :: p in r ==> p in all
  {
    if id !in procs {
      Fewer(procs, all - {id});
    }
  }

  lemma {:induction false} Fewer(procs: seq<int>, all: set<int>)
    requires Distinct(procs) && forall p :: p in procs ==> p in all
    ensures |procs| <= |all|
  {
    if procs != [] {
      var init, last := procs[..|procs| - 1], procs[|procs| - 1];
      forall p | p in init ensures p in all - {last} {
        var i :| 0 <= i < |init| && init[i] == p;
        assert procs[i] != procs[|init|];
      }
      Fewer(init, all - {last});
    }
  }

  lemma {:induction false} InsertedAll(procs: seq<int>, ids: seq<int>, all: set<int>)
    requires Distinct(procs) && |all| <= MAX_PROCS_RING && (forall p :: p in procs ==> p in all) && forall p :: p in ids ==> p in all
    ensures var r := InsertAll(procs, ids);
            Distinct(r) && (forall p :: p in r ==> p in all) && forall p :: p in procs || p in ids ==> p in r
    decreases |ids|
  {
    if ids != [] {
      InsertedMember(procs, ids[0], all);
      InsertedAll(InsertMember(procs, ids[0]), ids[1..], all);
    }
  }

  /** The commit set of an entry is exactly what its contributors' commit sets contain together. */
  lemma GatherCommits(cs: seq<Contributor>, created: bool, all: set<int>)
    requires cs != [] && Gather(cs, created).Some? && |all| <= MAX_PROCS_RING && AllWithin(cs, all)
    ensures forall y :: y in Gather(cs, created).value.procs <==> exists k :: 0 <= k < |cs| && y in cs[k].commit
  {
    CommitsListed(cs, created, all);
    hide Gather;
    forall y | y in Gather(cs, created).value.procs ensures exists k :: 0 <= k < |cs| && y in cs[k].commit {
      CommitFrom(cs, created, y);
    }
  }

  lemma {:induction false} CommitsListed(cs: seq<Contributor>, created: bool, all: set<int>)
    requires cs != [] && Gather(cs, created).Some? && |all| <= MAX_PROCS_RING && AllWithin(cs, all)
    ensures forall k, y :: 0 <= k < |cs| && y in cs[k].commit ==> y in Gather(cs, created).value.procs
    ensures forall y :: y in Gather(cs, created).value.procs ==> y in all
  {
    hide Fill, Gather, AllWithin;
    if |cs| == 1 {
      CommitsFirst(cs, created, all);
    } else {
      var before, c := cs[..|cs| - 1], cs[|cs| - 1];
      GatherLast(cs, created);
      var old_, rg := Gather(before, created).value, Gather(cs, created).value;
      WithinLast(cs, all);
      CommitsListed(before, created, all);
      FilledCommits(old_, c, all);
      forall k, y | 0 <= k < |cs| && y in cs[k].commit ensures y in rg.procs {
        assert k < |before| ==> y in before[k].commit;
      }
      forall y | y in rg.procs ensures y in all {
        InAll(cs, created, all, y);
      }
    }
  }

  lemma CommitsFirst(cs: seq<Contributor>, created: bool, all: set<int>)
    requires |cs| == 1 && AllWithin(cs, all)
    ensures Gather(cs, created).Some?
    ensures forall k, y :: 0 <= k < |cs| && y in cs[k].commit ==> y in Gather(cs, created).value.procs
    ensures forall y :: y in Gather(cs, created).value.procs ==> y in all
  {
    hide Gaps;
    var procs := [cs[0].d.id] + Without(cs[0].commit, cs[0].d.id);
    assert Gather(cs, created).value.procs == procs;
  }

  lemma GatherLast(cs: seq<Contributor>, created: bool)
    requires |cs| > 1 && Gather(cs, created).Some?
    ensures var before := Gather(cs[..|cs| - 1], created);
            && before.Some? && before.value.numTrans <= |before.value.procs|
            && Fill(before.value, cs[|cs| - 1]) == Gather(cs, created)
  {
    hide Fill;
  }

  lemma WithinLast(cs: seq<Contributor>, all: set<int>)
    requires |cs| > 1 && AllWithin(cs, all)
    ensures AllWithin(cs[..|cs| - 1], all)
    ensures var c := cs[|cs| - 1]; c.d.id in c.commit && forall y :: y in c.commit ==> y in all
  {}

  lemma InAll(cs: seq<Contributor>, created: bool, all: set<int>, y: int)
    requires cs != [] && Gather(cs, created).Some? && AllWithin(cs, all) && y in Gather(cs, created).value.procs
    ensures y in all
  {
    hide Gather;
    CommitFrom(cs, created, y);
  }

  /** Every contributor is in its own commit set, and all of them belong to the given daemons. */
  ghost predicate AllWithin(cs: seq<Contributor>, all: set<int>) {
    forall k :: 0 <= k < |cs| ==> cs[k].d.id in cs[k].commit && forall y :: y in cs[k].commit ==> y in all
  }

  lemma FilledCommits(rg: RingInfo, c: Contributor, all: set<int>)
    requires rg.numTrans <= |rg.procs| && Fill(rg, c).Some? && |all| <= MAX_PROCS_RING && c.d.id in c.commit
    requires (forall y :: y in rg.procs ==> y in all) && forall y :: y in c.commit ==> y in all
    ensures forall y :: y in rg.procs || y in c.commit ==> y in Fill(rg, c).value.procs
  {
    hide InsertAll, InsertMember, Distinct, StillMissing, Gaps;
    var first, rest := rg.procs[..rg.numTrans], rg.procs[rg.numTrans..];
    assert rg.procs == first + rest;
    assert Distinct([]) by { NothingTwice(); }
    InsertedAll([], first, all);
    var firsts := InsertAll([], first);
    InsertedMember(firsts, c.d.id, all);
    var trans := InsertMember(firsts, c.d.id);
    assert forall y :: y in firsts ==> y in trans by { InsertKeeps(firsts, c.d.id); }
    InsertedAll(trans, rest, all);
    InsertedAll(InsertAll(trans, rest), c.commit, all);
  }

  lemma NothingTwice()
    ensures Distinct([])
  {}

  lemma InsertKeeps(procs: seq<int>, id: int)
    ensures forall y :: y in procs ==> y in InsertMember(procs, id)
  {}
}
