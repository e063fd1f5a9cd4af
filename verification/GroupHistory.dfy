/** Synced sets over whole runs, with partitions, merges and cascades.

A membership is put together from parts: daemons that just started, and daemons that came through a
transitional membership from an earlier one.  Between the two memberships the daemons of a part
deliver the same GROUPS messages with the transitional membership at the same point, as virtual
synchrony guarantees; other parts of the same earlier membership may deliver others. */
module GroupHistory {
  import opened SpreadTypes
  import opened SyncedSets
  import opened GroupExchange

  datatype Message = Message(rep: int, last: bool)

  /** `before` and `after`: the messages delivered before and after the transitional membership. */
  datatype Part = Fresh(id: int) | From(earlier: Ring, survivors: set<int>, before: seq<Message>, after: seq<Message>)

  datatype Ring = Ring(parts: seq<Part>)

  function Survivors(p: Part): set<int> {
    match p
    case Fresh(id) => {id}
    case From(_, survivors, _, _) => survivors
  }

  function MembersOf(parts: seq<Part>): (m: set<int>)
    ensures forall k :: 0 <= k < |parts| ==> Survivors(parts[k]) <= m
  {
    if parts == [] then {}
    else
      var rest := MembersOf(parts[1..]);
      assert forall k :: 1 <= k < |parts| ==> parts[k] == parts[1..][k - 1];
      Survivors(parts[0]) + rest
  }

  function Members(ring: Ring): set<int> { MembersOf(ring.parts) }

  function PartIndex(parts: seq<Part>, i: int): (k: nat)
    requires i in MembersOf(parts)
    ensures k < |parts| && i in Survivors(parts[k])
  {
    if i in Survivors(parts[0]) then 0 else 1 + PartIndex(parts[1..], i)
  }

  function HandleAll(conf: seq<int>, e: Exchange, before: seq<Note>, trans: set<int>, after: seq<Note>): Option<Exchange> {
    match HandleNotes(conf, e, before)
    case None => None
    case Some(f) =>
      match HandleTrans(f, trans)
      case None => None
      case Some(g) => HandleNotes(conf, g, after)
  }

  /** Daemon i right after the membership was installed; `None` if it took a fatal branch on the way. */
  function State(conf: seq<int>, ring: Ring, i: int): Option<Exchange>
    requires i in Members(ring)
    decreases ring, 0
  {
    var p := ring.parts[PartIndex(ring.parts, i)];
    var e := match p
      case Fresh(id) => HandleTrans(Init(id), {id})
      case From(earlier, survivors, before, after) =>
        if i !in Members(earlier) then None
        else
          match State(conf, earlier, i)
          case None => None
          case Some(f) => HandleAll(conf, f, Notes(conf, earlier, before), survivors, Notes(conf, earlier, after));
    match e
    case None => None
    case Some(f) => HandleReg(conf, f, Members(ring))
  }

  /** A daemon's synced set when a membership is installed. */
  function Sync(conf: seq<int>, ring: Ring, i: int): seq<int>
    decreases ring, 1
  {
    if i !in Members(ring) then []
    else
      match State(conf, ring, i)
      case None => []
      case Some(e) => e.sync
  }

  function Notes(conf: seq<int>, ring: Ring, ms: seq<Message>): (ns: seq<Note>)
    decreases ring, 2
  {
    seq(|ms|, k requires 0 <= k < |ms| => Note(ms[k].rep, Sync(conf, ring, ms[k].rep), ms[k].last))
  }

  /** The synced sets of all daemons when a membership is installed. */
  function Sets(conf: seq<int>, ring: Ring): map<int, seq<int>> {
    map i | i in Members(ring) :: Sync(conf, ring, i)
  }

  predicate InGop(conf: seq<int>, ring: Ring, i: int) {
    i in Members(ring) && State(conf, ring, i).Some? && State(conf, ring, i).value.state == Gop
  }

  /** What virtual synchrony and the sending rules make sure of: nobody comes along twice, and only
      representatives that have something to exchange send, nothing after their last message. */
  ghost predicate Valid(conf: seq<int>, ring: Ring)
    decreases ring
  {
    && (forall k, l :: 0 <= k < l < |ring.parts| ==> Survivors(ring.parts[k]) !! Survivors(ring.parts[l]))
    && (forall k :: 0 <= k < |ring.parts| ==>
          match ring.parts[k]
          case Fresh(id) => id in conf
          case From(earlier, survivors, before, after) =>
            && Valid(conf, earlier) && survivors <= Members(earlier)
            && Proper(Sets(conf, earlier), Notes(conf, earlier, before) + Notes(conf, earlier, after))
            && (forall m :: m in before + after ==> !InGop(conf, earlier, m.rep)))
  }

  /** All daemons of a membership are in the same state: exchanging, or, when there is nothing to
      exchange, with the whole membership in their synced sets. */
  ghost predicate Uniform(conf: seq<int>, ring: Ring, gop: bool) {
    && Partitioned(conf, Sets(conf, ring))
    && forall i :: i in Members(ring) ==>
         && State(conf, ring, i).Some?
         && Installed(conf, State(conf, ring, i).value, Members(ring), Ids(Sync(conf, ring, i)), gop)
         && (gop ==> Ids(Sync(conf, ring, i)) == Members(ring))
  }

  /** What the messages of a part cover of the earlier membership. */
  function Heard(conf: seq<int>, p: Part): set<int>
    requires p.From?
  {
    Covered(Sets(conf, p.earlier), Notes(conf, p.earlier, p.before) + Notes(conf, p.earlier, p.after))
  }

  /** Who daemon i of a part stays in step with. */
  function Together(conf: seq<int>, p: Part, i: int): set<int>
    requires p.From? ==> i in Members(p.earlier)
  {
    if p.Fresh? then {p.id} else Kept(Sets(conf, p.earlier), i, Heard(conf, p), p.survivors)
  }

  /** The exchange of the earlier membership was finished when the part left it. */
  predicate Settled(conf: seq<int>, p: Part, i: int) {
    p.Fresh? || InGop(conf, p.earlier, i) || Heard(conf, p) == Members(p.earlier)
  }

  lemma StartDuring(conf: seq<int>, sets: map<int, seq<int>>, i: int, e: Exchange)
    requires i in sets && e.sync == sets[i] && Installed(conf, e, sets.Keys, Ids(e.sync), false)
    ensures During(conf, sets, i, e, Covered(sets, []), None)
  {
    assert CompleteUnion([]) == {};
  }

  lemma ProperFront(sets: map<int, seq<int>>, first: seq<Note>, second: seq<Note>)
    requires Proper(sets, first + second)
    ensures Proper(sets, first)
  {
    var all := first + second;
    assert forall k :: 0 <= k < |first| ==> all[k] == first[k];
  }

  /** A daemon's way from an exchanging membership to the next: never a fatal branch. */
  lemma ThroughExchange(conf: seq<int>, sets: map<int, seq<int>>, i: int, e: Exchange, first: seq<Note>, trans: set<int>,
                        second: seq<Note>, memb: set<int>)
    requires Partitioned(conf, sets) && i in sets && Proper(sets, first + second)
    requires e.sync == sets[i] && Installed(conf, e, sets.Keys, Ids(e.sync), false)
    ensures var f := HandleAll(conf, e, first, trans, second); var covered := Covered(sets, first + second);
            && f.Some? && HandleReg(conf, f.value, memb).Some?
            && Installed(conf, HandleReg(conf, f.value, memb).value, memb, Kept(sets, i, covered, trans),
                         covered == sets.Keys && |trans| == |memb|)
  {
    hide *;
    StartDuring(conf, sets, i, e);
    ProperFront(sets, first, second);
    assert [] + first == first;
    NotesRun(conf, sets, i, e, [], first, None);
    var f := HandleNotes(conf, e, first).value;
    TransStep(conf, sets, i, f, Covered(sets, first), trans);
    var g := HandleTrans(f, trans).value;
    NotesRun(conf, sets, i, g, first, second, Some(trans));
    RegStep(conf, sets, i, HandleNotes(conf, g, second).value, Covered(sets, first + second), trans, memb);
    HandleAllIs(conf, e, first, trans, second);
  }

  lemma HandleAllIs(conf: seq<int>, e: Exchange, first: seq<Note>, trans: set<int>, second: seq<Note>)
    requires HandleNotes(conf, e, first).Some? && HandleTrans(HandleNotes(conf, e, first).value, trans).Some?
    ensures HandleAll(conf, e, first, trans, second)
         == HandleNotes(conf, HandleTrans(HandleNotes(conf, e, first).value, trans).value, second)
  {
    hide HandleNotes, HandleTrans;
  }

  /** From a membership without an exchange. */
  lemma ThroughGop(conf: seq<int>, e: Exchange, trans: set<int>, memb: set<int>)
    requires Installed(conf, e, e.reg, Ids(e.sync), true)
    ensures var f := HandleAll(conf, e, [], trans, []);
            && f.Some? && HandleReg(conf, f.value, memb).Some?
            && Installed(conf, HandleReg(conf, f.value, memb).value, memb, Ids(e.sync) * trans, |trans| == |memb|)
  {
    InstantStep(conf, e, trans, memb);
  }

  lemma ThroughStart(conf: seq<int>, id: int, memb: set<int>)
    requires id in conf
    ensures var f := HandleTrans(Init(id), {id});
            && f.Some? && HandleReg(conf, f.value, memb).Some?
            && Installed(conf, HandleReg(conf, f.value, memb).value, memb, {id}, |{id}| == |memb|)
  {
    assert Ids([id]) == {id};
    RestrictLength([id], {id});
  }

  // ---- All daemons of a membership ----

  lemma UniformOf(conf: seq<int>, ring: Ring, gop: bool, i: int)
    requires Uniform(conf, ring, gop) && i in Members(ring)
    ensures State(conf, ring, i).Some? && Sets(conf, ring).Keys == Members(ring)
    ensures var e := State(conf, ring, i).value;
            && e.sync == Sync(conf, ring, i) == Sets(conf, ring)[i]
            && Installed(conf, e, Members(ring), Ids(e.sync), gop) && (gop ==> Ids(e.sync) == Members(ring))
            && (InGop(conf, ring, i) <==> gop)
  {}

  /** The part a daemon came with is found. */
  lemma {:induction false} FindPart(parts: seq<Part>, k: nat, i: int)
    requires forall a, b :: 0 <= a < b < |parts| ==> Survivors(parts[a]) !! Survivors(parts[b])
    requires k < |parts| && i in Survivors(parts[k])
    ensures i in MembersOf(parts) && PartIndex(parts, i) == k
    decreases |parts|
  {
    if k > 0 {
      assert parts[1..][k - 1] == parts[k];
      FindPart(parts[1..], k - 1, i);
    }
  }

  /** In a membership without an exchange there are no messages. */
  lemma NoMessages(conf: seq<int>, p: Part)
    requires p.From? && Uniform(conf, p.earlier, true)
    requires Proper(Sets(conf, p.earlier), Notes(conf, p.earlier, p.before) + Notes(conf, p.earlier, p.after))
    requires forall m :: m in p.before + p.after ==> !InGop(conf, p.earlier, m.rep)
    ensures p.before == [] && p.after == []
  {
    var all := Notes(conf, p.earlier, p.before) + Notes(conf, p.earlier, p.after);
    if p.before != [] {
      assert all[0].rep == p.before[0].rep && p.before[0] in p.before + p.after;
      UniformOf(conf, p.earlier, true, all[0].rep);
    } else if p.after != [] {
      assert all[0].rep == p.after[0].rep && p.after[0] in p.before + p.after;
      UniformOf(conf, p.earlier, true, all[0].rep);
    }
  }

  ghost predicate ValidPart(conf: seq<int>, p: Part) {
    match p
    case Fresh(id) => id in conf
    case From(earlier, survivors, before, after) =>
      && survivors <= Members(earlier)
      && Proper(Sets(conf, earlier), Notes(conf, earlier, before) + Notes(conf, earlier, after))
      && (forall m :: m in before + after ==> !InGop(conf, earlier, m.rep))
      && (Uniform(conf, earlier, true) || Uniform(conf, earlier, false))
  }

  /** One daemon's way into a membership. */
  lemma Outcome(conf: seq<int>, ring: Ring, k: nat, i: int)
    requires k < |ring.parts| && i in Survivors(ring.parts[k]) && i in Members(ring) && PartIndex(ring.parts, i) == k
    requires ValidPart(conf, ring.parts[k])
    ensures State(conf, ring, i).Some?
    ensures var p := ring.parts[k];
            Installed(conf, State(conf, ring, i).value, Members(ring), Together(conf, p, i),
                      Settled(conf, p, i) && |Survivors(p)| == |Members(ring)|)
  {
    var p := ring.parts[k];
    match p
    case Fresh(id) => ThroughStart(conf, id, Members(ring));
    case From(earlier, survivors, before, after) =>
      var gop := Uniform(conf, earlier, true);
      UniformOf(conf, earlier, gop, i);
      var sets, e := Sets(conf, earlier), State(conf, earlier, i).value;
      if gop {
        NoMessages(conf, p);
        ThroughGop(conf, e, survivors, Members(ring));
        assert Notes(conf, earlier, []) == [];
      } else {
        ThroughExchange(conf, sets, i, e, Notes(conf, earlier, before), survivors, Notes(conf, earlier, after), Members(ring));
      }
  }

  /** Two daemons of a part: in the same set or in disjoint ones, and both done or both not. */
  lemma PartPair(conf: seq<int>, p: Part, i: int, j: int)
    requires ValidPart(conf, p) && i in Survivors(p) && j in Survivors(p)
    ensures Together(conf, p, i) == Together(conf, p, j) || Together(conf, p, i) !! Together(conf, p, j)
    ensures i in Together(conf, p, i) && Together(conf, p, i) <= Survivors(p)
    ensures Settled(conf, p, i) <==> Settled(conf, p, j)
    ensures Settled(conf, p, i) ==> Together(conf, p, i) == Survivors(p)
  {
    if p.From? {
      var gop := Uniform(conf, p.earlier, true);
      UniformOf(conf, p.earlier, gop, i);
      UniformOf(conf, p.earlier, gop, j);
      PartitionedOf(conf, p.earlier, gop);
      var sets := Sets(conf, p.earlier);
      var notes := Notes(conf, p.earlier, p.before) + Notes(conf, p.earlier, p.after);
      hide State, Sync, Sets, Notes, Uniform, Partitioned, Proper, Ids, Covered, Kept, InGop, Installed;
      KeptPair(conf, sets, notes, p.survivors, i, j);
      if gop {
        KeptAll(conf, sets, notes, p.survivors, i);
        KeptAll(conf, sets, notes, p.survivors, j);
      }
      WholeKept(sets.Keys, p.survivors);
    }
  }

  lemma WholeKept(all: set<int>, trans: set<int>)
    requires trans <= all
    ensures all * trans == trans
  {}

  /** Where the old set is the whole membership, everybody who came along is kept. */
  lemma KeptAll(conf: seq<int>, sets: map<int, seq<int>>, notes: seq<Note>, trans: set<int>, i: int)
    requires Partitioned(conf, sets) && Proper(sets, notes) && i in sets && Ids(sets[i]) == sets.Keys
    ensures Kept(sets, i, Covered(sets, notes), trans) == sets.Keys * trans
  {
    CoveredWhole(conf, sets, notes, i);
  }

  lemma PartitionedOf(conf: seq<int>, ring: Ring, gop: bool)
    requires Uniform(conf, ring, gop)
    ensures Partitioned(conf, Sets(conf, ring))
  {}

  lemma KeptPair(conf: seq<int>, sets: map<int, seq<int>>, notes: seq<Note>, trans: set<int>, i: int, j: int)
    requires Partitioned(conf, sets) && Proper(sets, notes) && i in sets && j in sets && i in trans && j in trans
    ensures var c := Covered(sets, notes);
            && (Kept(sets, i, c, trans) == Kept(sets, j, c, trans) || Kept(sets, i, c, trans) !! Kept(sets, j, c, trans))
            && i in Kept(sets, i, c, trans) && Kept(sets, i, c, trans) <= trans
            && (c == sets.Keys ==> Kept(sets, i, c, trans) == sets.Keys * trans)
  {
    CoveredWhole(conf, sets, notes, i);
    CoveredWhole(conf, sets, notes, j);
    SetOf(conf, sets, i);
    SetOf(conf, sets, j);
  }

  /** A set in configuration order is determined by its members. */
  lemma {:induction false} SameOrder(conf: seq<int>, a: seq<int>, b: seq<int>)
    requires ByConf(conf, a) && ByConf(conf, b) && Ids(a) == Ids(b)
    ensures a == b
    decreases |a|
  {
    IdsIn(a);
    IdsIn(b);
    if a == [] {
      CountIds(conf, a);
      CountIds(conf, b);
    } else {
      assert a[0] in Ids(b) && b != [] && b[0] in Ids(a);
      HeadLeast(conf, a);
      HeadLeast(conf, b);
      assert a[0] == b[0];
      IdsHead(a);
      IdsHead(b);
      IdsIn(a[1..]);
      IdsIn(b[1..]);
      assert Ids(a[1..]) == Ids(b[1..]);
      SameOrder(conf, a[1..], b[1..]);
      assert a == [a[0]] + a[1..] && b == [b[0]] + b[1..];
    }
  }

  ghost predicate PartsGood(conf: seq<int>, ring: Ring) {
    && (forall k, l :: 0 <= k < l < |ring.parts| ==> Survivors(ring.parts[k]) !! Survivors(ring.parts[l]))
    && (forall k :: 0 <= k < |ring.parts| ==> ValidPart(conf, ring.parts[k]))
  }

  function PartOf(ring: Ring, i: int): Part
    requires i in Members(ring)
  {
    ring.parts[PartIndex(ring.parts, i)]
  }

  lemma Arrival(conf: seq<int>, ring: Ring, i: int)
    requires PartsGood(conf, ring) && i in Members(ring)
    ensures State(conf, ring, i).Some? && Sync(conf, ring, i) == State(conf, ring, i).value.sync
    ensures var p := PartOf(ring, i); var e := State(conf, ring, i).value;
            && i in Survivors(p) && Survivors(p) <= Members(ring) && ValidPart(conf, p)
            && (p.From? ==> i in Members(p.earlier))
            && Installed(conf, e, Members(ring), Together(conf, p, i), Settled(conf, p, i) && |Survivors(p)| == |Members(ring)|)
            && i in Ids(e.sync) && Ids(e.sync) <= Survivors(p)
            && (InGop(conf, ring, i) <==> Settled(conf, p, i) && Survivors(p) == Members(ring))
            && (InGop(conf, ring, i) ==> Ids(e.sync) == Members(ring))
  {
    var k := PartIndex(ring.parts, i);
    FindPart(ring.parts, k, i);
    Outcome(conf, ring, k, i);
    PartPair(conf, ring.parts[k], i, i);
    SubsetCount(Survivors(ring.parts[k]), Members(ring));
    hide State, Together, Settled, Ids;
  }

  lemma ArrivalPair(conf: seq<int>, ring: Ring, i: int, j: int)
    requires PartsGood(conf, ring) && i in Members(ring) && j in Members(ring)
    ensures Sync(conf, ring, i) == Sync(conf, ring, j) || Ids(Sync(conf, ring, i)) !! Ids(Sync(conf, ring, j))
    ensures InGop(conf, ring, i) <==> InGop(conf, ring, j)
  {
    Arrival(conf, ring, i);
    Arrival(conf, ring, j);
    hide State, Together, Settled, Ids, Sync, Members, InGop, ValidPart, Installed;
    var k, l := PartIndex(ring.parts, i), PartIndex(ring.parts, j);
    if k == l {
      SamePart(conf, ring, i, j);
    } else {
      assert Survivors(ring.parts[k]) !! Survivors(ring.parts[l]);
    }
  }

  lemma SamePart(conf: seq<int>, ring: Ring, i: int, j: int)
    requires PartsGood(conf, ring) && i in Members(ring) && j in Members(ring)
    requires PartIndex(ring.parts, i) == PartIndex(ring.parts, j)
    ensures Sync(conf, ring, i) == Sync(conf, ring, j) || Ids(Sync(conf, ring, i)) !! Ids(Sync(conf, ring, j))
    ensures InGop(conf, ring, i) <==> InGop(conf, ring, j)
  {
    Arrival(conf, ring, i);
    Arrival(conf, ring, j);
    hide State, Together, Settled, Ids, Sync, Members, InGop, ValidPart, ByConf;
    PartPair(conf, PartOf(ring, i), i, j);
    if Ids(Sync(conf, ring, i)) == Ids(Sync(conf, ring, j)) {
      SameOrder(conf, Sync(conf, ring, i), Sync(conf, ring, j));
    }
  }

  /** In every run the daemons that install a membership have synced sets in configuration order, each
      daemon in its own, any two equal or disjoint, whatever cascades of changes cut exchanges short; they
      are all in the same state; and none took a fatal branch: no message came out of place, no two sets
      intersected in a merge. */
  lemma {:induction false} EqualOrDisjoint(conf: seq<int>, ring: Ring)
    requires Valid(conf, ring)
    ensures Uniform(conf, ring, true) || Uniform(conf, ring, false)
    decreases ring
  {
    forall k | 0 <= k < |ring.parts| ensures ValidPart(conf, ring.parts[k]) {
      match ring.parts[k]
      case Fresh(id) =>
      case From(earlier, _, _, _) => EqualOrDisjoint(conf, earlier);
    }
    AllUniform(conf, ring);
  }

  lemma AllUniform(conf: seq<int>, ring: Ring)
    requires PartsGood(conf, ring)
    ensures Uniform(conf, ring, true) || Uniform(conf, ring, false)
  {
    hide PartsGood, State, Sync, InGop, Together, Settled, ValidPart, Members, Ids, ByConf;
    var gop := exists i :: i in Members(ring) && InGop(conf, ring, i);
    forall i | i in Members(ring)
      ensures OneUniform(conf, ring, gop, i)
    {
      Arrival(conf, ring, i);
      forall j | j in Members(ring) ensures InGop(conf, ring, i) <==> InGop(conf, ring, j) {
        ArrivalPair(conf, ring, i, j);
      }
      OneArrived(conf, ring, gop, i);
    }
    forall i, j | i in Members(ring) && j in Members(ring)
      ensures Sync(conf, ring, i) == Sync(conf, ring, j) || Ids(Sync(conf, ring, i)) !! Ids(Sync(conf, ring, j))
    {
      ArrivalPair(conf, ring, i, j);
    }
    AreUniform(conf, ring, gop);
  }

  ghost predicate OneUniform(conf: seq<int>, ring: Ring, gop: bool, i: int)
    requires i in Members(ring)
  {
    && State(conf, ring, i).Some? && Sync(conf, ring, i) == State(conf, ring, i).value.sync
    && Installed(conf, State(conf, ring, i).value, Members(ring), Ids(Sync(conf, ring, i)), gop)
    && (gop ==> Ids(Sync(conf, ring, i)) == Members(ring))
    && i in Ids(Sync(conf, ring, i)) && Ids(Sync(conf, ring, i)) <= Members(ring)
  }

  lemma OneArrived(conf: seq<int>, ring: Ring, gop: bool, i: int)
    requires PartsGood(conf, ring) && i in Members(ring) && (gop <==> InGop(conf, ring, i))
    ensures OneUniform(conf, ring, gop, i)
  {
    Arrival(conf, ring, i);
    hide State, Sync, Together, Settled, Ids, ByConf;
  }

  lemma AreUniform(conf: seq<int>, ring: Ring, gop: bool)
    requires forall i :: i in Members(ring) ==> OneUniform(conf, ring, gop, i)
    requires forall i, j :: i in Members(ring) && j in Members(ring) ==>
               Sync(conf, ring, i) == Sync(conf, ring, j) || Ids(Sync(conf, ring, i)) !! Ids(Sync(conf, ring, j))
    ensures Uniform(conf, ring, gop)
  {
    SetsAre(conf, ring);
    hide State, Sync, Sets, Members, Ids, ByConf, Installed, InSet;
    forall i | i in Members(ring) ensures InSet(conf, Sets(conf, ring), i) {
      OneInSet(conf, ring, gop, i);
    }
    hide OneUniform;
    assert Partitioned(conf, Sets(conf, ring));
    forall i | i in Members(ring) ensures OneUniform(conf, ring, gop, i) {}
    UniformFrom(conf, ring, gop);
  }

  lemma UniformFrom(conf: seq<int>, ring: Ring, gop: bool)
    requires Partitioned(conf, Sets(conf, ring)) && forall i :: i in Members(ring) ==> OneUniform(conf, ring, gop, i)
    ensures Uniform(conf, ring, gop)
  {
    hide State, Sync, Sets, Members, Ids, Installed, Partitioned;
  }

  lemma SetsAre(conf: seq<int>, ring: Ring)
    ensures Sets(conf, ring).Keys == Members(ring)
    ensures forall i :: i in Members(ring) ==> Sets(conf, ring)[i] == Sync(conf, ring, i)
  {
    hide State, Sync;
  }

  lemma OneInSet(conf: seq<int>, ring: Ring, gop: bool, i: int)
    requires i in Members(ring) && OneUniform(conf, ring, gop, i)
    requires Sets(conf, ring).Keys == Members(ring) && Sets(conf, ring)[i] == Sync(conf, ring, i)
    ensures InSet(conf, Sets(conf, ring), i)
  {
    hide State, Sync, Sets, Members;
    IdsIn(Sets(conf, ring)[i]);
  }
}
