/** The state exchange with which daemons come to agree on the groups again after a membership change,
as far as it concerns who is in step with whom. */
module GroupExchange {
  import opened SpreadTypes
  import opened SyncedSets

  datatype GState = Gop | Gtrans | Ggather | Ggt

  /** The messages gathered from one representative: whether its last one came, and its synced set,
      which its first one carries. */
  datatype Rep = Rep(id: int, complete: bool, sset: seq<int>)

  /** `own` says that the last message of the daemon's own representative came, `count` how many daemons
      the complete representatives stand for. */
  datatype Exchange = Exchange(
    state: GState, sync: seq<int>, reg: set<int>, trans: set<int>, own: bool, reps: seq<Rep>, count: nat)

  /** A GROUPS message of the current membership; messages of others are thrown away on arrival. */
  datatype Note = Note(rep: int, sset: seq<int>, last: bool)

  function Init(id: int): Exchange {
    Exchange(Gop, [id], {}, {}, false, [], 0)
  }

  /** Marks the first entry of the message's representative. */
  function Mark(reps: seq<Rep>, n: Note): seq<Rep> {
    if reps == [] then []
    else if reps[0].id == n.rep then [reps[0].(complete := reps[0].complete || n.last)] + reps[1..]
    else [reps[0]] + Mark(reps[1..], n)
  }

  function Gather(reps: seq<Rep>, n: Note): seq<Rep> {
    if exists k :: 0 <= k < |reps| && reps[k].id == n.rep then Mark(reps, n) else [Rep(n.rep, n.last, n.sset)] + reps
  }

  /** Adds the synced sets of the representatives, or of the complete ones; `None` is fatal. */
  function MergeAll(conf: seq<int>, sync: seq<int>, reps: seq<Rep>, onlyComplete: bool): Option<seq<int>>
    decreases |reps|
  {
    if reps == [] then Some(sync)
    else if onlyComplete && !reps[0].complete then MergeAll(conf, sync, reps[1..], onlyComplete)
    else if (forall x :: x in sync ==> x in conf) && (forall x :: x in reps[0].sset ==> x in conf) && Ids(sync) !! Ids(reps[0].sset)
    then MergeAll(conf, Merge(conf, sync, reps[0].sset), reps[1..], onlyComplete)
    else None
  }

  function HandleTrans(e: Exchange, memb: set<int>): Option<Exchange> {
    match e.state
    case Gop => Some(e.(state := Gtrans, trans := memb, sync := Restrict(e.sync, memb)))
    case Ggather => Some(e.(state := Ggt, trans := memb))
    case _ => None
  }

  function HandleReg(conf: seq<int>, e: Exchange, memb: set<int>): Option<Exchange> {
    match e.state
    case Gtrans => Some(e.(state := if |e.trans| == |memb| then Gop else Ggather, reg := memb))
    case Ggt =>
      (match if e.own then MergeAll(conf, e.sync, e.reps, true) else Some(e.sync)
       case None => None
       case Some(all) => Some(Exchange(Ggather, Restrict(all, e.trans), memb, e.trans, false, [], 0)))
    case _ => None
  }

  function HandleNote(conf: seq<int>, e: Exchange, n: Note): Option<Exchange> {
    if e.state in {Gop, Gtrans} || e.sync == [] then None
    else
      var own := n.rep == e.sync[0];
      var f := e.(own := e.own || (own && n.last), reps := if own then e.reps else Gather(e.reps, n),
                  count := e.count + if n.last then |n.sset| else 0);
      if f.count != |f.reg| then Some(f)
      else
        match MergeAll(conf, f.sync, f.reps, false)
        case None => None
        case Some(all) =>
          var done := Exchange(Gop, all, f.reg, f.trans, false, [], 0);
          if e.state == Ggather then Some(done) else HandleTrans(done, f.trans)
  }

  function HandleNotes(conf: seq<int>, e: Exchange, notes: seq<Note>): Option<Exchange> {
    if notes == [] then Some(e)
    else
      match HandleNotes(conf, e, notes[..|notes| - 1])
      case None => None
      case Some(f) => HandleNote(conf, f, notes[|notes| - 1])
  }

  // ---- One membership's exchange ----

  /** The synced sets with which the daemons of a membership start: in order, and any two equal or
      disjoint. */
  ghost predicate Partitioned(conf: seq<int>, sets: map<int, seq<int>>) {
    && (forall i :: i in sets ==> InSet(conf, sets, i))
    && (forall i, j :: i in sets && j in sets ==> sets[i] == sets[j] || Ids(sets[i]) !! Ids(sets[j]))
  }

  ghost predicate InSet(conf: seq<int>, sets: map<int, seq<int>>, i: int)
    requires i in sets
  {
    i in sets[i] && Ids(sets[i]) <= sets.Keys && ByConf(conf, sets[i]) && AllIn(conf, sets[i])
  }

  /** The daemons that the complete representatives stand for. */
  function Covered(sets: map<int, seq<int>>, notes: seq<Note>): set<int> {
    if notes == [] then {}
    else
      var n := notes[|notes| - 1];
      Covered(sets, notes[..|notes| - 1]) + if n.last && n.rep in sets then Ids(sets[n.rep]) else {}
  }

  /** Representatives send their synced sets, and nothing after their last message. */
  ghost predicate Proper(sets: map<int, seq<int>>, notes: seq<Note>) {
    && (forall k :: 0 <= k < |notes| ==>
          Leads(sets, notes[k].rep) && notes[k].sset == sets[notes[k].rep])
    && (forall k, l :: 0 <= k < l < |notes| && notes[k].last ==> notes[k].rep != notes[l].rep)
  }

  function CompleteUnion(reps: seq<Rep>): set<int> {
    if reps == [] then {} else (if reps[0].complete then Ids(reps[0].sset) else {}) + CompleteUnion(reps[1..])
  }

  /** Gathered representatives: different ones, none the daemon's own, complete exactly if covered. */
  ghost predicate RepsGood(sets: map<int, seq<int>>, i: int, reps: seq<Rep>, covered: set<int>)
    requires i in sets
  {
    && (forall k :: 0 <= k < |reps| ==> RepGood(sets, i, reps[k], covered))
    && (forall k, l :: 0 <= k < l < |reps| ==> reps[k].id != reps[l].id)
  }

  ghost predicate RepGood(sets: map<int, seq<int>>, i: int, rep: Rep, covered: set<int>)
    requires i in sets
  {
    && Leads(sets, rep.id) && rep.sset == sets[rep.id] && sets[rep.id] != sets[i]
    && (rep.complete <==> rep.id in covered)
  }

  ghost predicate Leads(sets: map<int, seq<int>>, r: int) {
    r in sets && sets[r] != [] && sets[r][0] == r
  }

  /** What a daemon has gathered when the messages so far cover some of the membership. */
  ghost predicate Counting(sets: map<int, seq<int>>, i: int, e: Exchange, covered: set<int>)
    requires i in sets
  {
    && e.state in {Ggather, Ggt} && e.sync == sets[i] && e.reg == sets.Keys
    && covered <= sets.Keys && e.count == |covered|
    && (e.own <==> i in covered)
    && covered == (if e.own then Ids(sets[i]) else {}) + CompleteUnion(e.reps)
    && RepsGood(sets, i, e.reps, covered)
  }

  ghost predicate Gathering(sets: map<int, seq<int>>, i: int, e: Exchange, covered: set<int>)
    requires i in sets
  {
    Counting(sets, i, e, covered) && covered != sets.Keys
  }

  // ---- Sets and counts ----

  lemma {:induction false} CountIds(conf: seq<int>, s: seq<int>)
    requires ByConf(conf, s)
    ensures |Ids(s)| == |s|
  {
    if s == [] {
      assert Ids(s) == {};
    } else {
      HeadLeast(conf, s);
      CountIds(conf, s[1..]);
      IdsHead(s);
      IdsIn(s[1..]);
      assert s[0] !in Ids(s[1..]);
    }
  }

  lemma {:induction false} SubsetCount(a: set<int>, b: set<int>)
    requires a <= b
    ensures |a| <= |b| && (|a| == |b| <==> a == b)
  {
    if x :| x in b && x !in a {
      SubsetCount(a, b - {x});
    } else {
      assert forall x :: x in b ==> x in a;
      assert a == b;
    }
  }

  lemma DisjointCount(a: set<int>, b: set<int>)
    requires a !! b
    ensures |a + b| == |a| + |b|
  {}

  /** A set of the partition is covered entirely or not at all. */
  lemma {:induction false} CoveredWhole(conf: seq<int>, sets: map<int, seq<int>>, notes: seq<Note>, i: int)
    requires Partitioned(conf, sets) && Proper(sets, notes) && i in sets
    ensures Covered(sets, notes) <= sets.Keys
    ensures if i in Covered(sets, notes) then Ids(sets[i]) <= Covered(sets, notes) else Ids(sets[i]) !! Covered(sets, notes)
  {
    if notes != [] {
      var init, n := notes[..|notes| - 1], notes[|notes| - 1];
      CoveredWhole(conf, sets, init, i);
      assert InSet(conf, sets, n.rep) && InSet(conf, sets, i);
    }
  }

  /** A representative is covered exactly if its last message came. */
  lemma {:induction false} LeaderCovered(conf: seq<int>, sets: map<int, seq<int>>, notes: seq<Note>, r: int)
    requires Partitioned(conf, sets) && Proper(sets, notes) && Leads(sets, r)
    ensures r in Covered(sets, notes) <==> exists k :: 0 <= k < |notes| && notes[k].rep == r && notes[k].last
  {
    if notes != [] {
      var init, n := notes[..|notes| - 1], notes[|notes| - 1];
      LeaderCovered(conf, sets, init, r);
      assert InSet(conf, sets, n.rep) && InSet(conf, sets, r);
      if n.last && r in Ids(sets[n.rep]) {
        assert sets[n.rep] == sets[r];
        assert notes[|notes| - 1].rep == r;
      }
      forall k | 0 <= k < |init| && init[k].rep == r && init[k].last ensures notes[k].rep == r && notes[k].last {}
    }
  }

  // ---- One message ----

  lemma SameLeader(conf: seq<int>, sets: map<int, seq<int>>, r: int, x: int)
    requires Partitioned(conf, sets) && Leads(sets, r) && Leads(sets, x) && x in Ids(sets[r])
    ensures x == r
  {
    assert InSet(conf, sets, x) && x in Ids(sets[x]);
  }

  lemma GatherUnion(reps: seq<Rep>, n: Note)
    requires forall k :: 0 <= k < |reps| && reps[k].id == n.rep ==> reps[k].sset == n.sset
    ensures CompleteUnion(Gather(reps, n)) == CompleteUnion(reps) + if n.last then Ids(n.sset) else {}
  {
    if k :| 0 <= k < |reps| && reps[k].id == n.rep {
      MarkUnion(reps, n, k);
    } else {
      assert ([Rep(n.rep, n.last, n.sset)] + reps)[1..] == reps;
    }
  }

  lemma {:induction false} MarkUnion(reps: seq<Rep>, n: Note, k: nat)
    requires forall l :: 0 <= l < |reps| && reps[l].id == n.rep ==> reps[l].sset == n.sset
    requires k < |reps| && reps[k].id == n.rep
    ensures CompleteUnion(Mark(reps, n)) == CompleteUnion(reps) + if n.last then Ids(n.sset) else {}
    decreases |reps|
  {
    if reps[0].id != n.rep {
      assert reps[1..][k - 1] == reps[k];
      assert Mark(reps, n)[1..] == Mark(reps[1..], n);
      MarkUnion(reps[1..], n, k - 1);
    }
  }

  lemma {:induction false} MarkAt(reps: seq<Rep>, n: Note)
    requires forall k, l :: 0 <= k < l < |reps| ==> reps[k].id != reps[l].id
    ensures |Mark(reps, n)| == |reps|
    ensures forall k :: 0 <= k < |reps| ==>
              Mark(reps, n)[k] == if reps[k].id == n.rep then reps[k].(complete := reps[k].complete || n.last) else reps[k]
    decreases |reps|
  {
    if reps != [] && reps[0].id != n.rep {
      assert Mark(reps, n)[1..] == Mark(reps[1..], n);
      MarkAt(reps[1..], n);
      forall k | 0 <= k < |reps| ensures k > 0 ==> reps[k] == reps[1..][k - 1] {}
    }
  }

  lemma GatherGood(conf: seq<int>, sets: map<int, seq<int>>, i: int, reps: seq<Rep>, covered: set<int>, n: Note)
    requires Partitioned(conf, sets) && i in sets && RepsGood(sets, i, reps, covered)
    requires Leads(sets, n.rep) && n.sset == sets[n.rep] && sets[n.rep] != sets[i] && n.rep !in covered
    ensures RepsGood(sets, i, Gather(reps, n), covered + if n.last then Ids(sets[n.rep]) else {})
  {
    MarkAt(reps, n);
    var out, after := Gather(reps, n), covered + if n.last then Ids(sets[n.rep]) else {};
    hide Partitioned, Mark, Leads, Ids, RepGood;
    forall k | 0 <= k < |reps|
      ensures RepGood(sets, i, if reps[k].id == n.rep then reps[k].(complete := reps[k].complete || n.last) else reps[k], after)
    {
      assert RepGood(sets, i, reps[k], covered);
      GatherOne(conf, sets, i, reps[k], covered, n);
    }
    GatherNew(conf, sets, i, covered, n);
  }

  lemma GatherOne(conf: seq<int>, sets: map<int, seq<int>>, i: int, rep: Rep, covered: set<int>, n: Note)
    requires Partitioned(conf, sets) && i in sets && RepGood(sets, i, rep, covered) && Leads(sets, n.rep)
    ensures RepGood(sets, i, if rep.id == n.rep then rep.(complete := rep.complete || n.last) else rep,
                    covered + if n.last then Ids(sets[n.rep]) else {})
  {
    assert InSet(conf, sets, n.rep);
    if rep.id in Ids(sets[n.rep]) {
      SameLeader(conf, sets, n.rep, rep.id);
    }
  }

  lemma GatherNew(conf: seq<int>, sets: map<int, seq<int>>, i: int, covered: set<int>, n: Note)
    requires Partitioned(conf, sets) && i in sets && Leads(sets, n.rep)
    requires n.sset == sets[n.rep] && sets[n.rep] != sets[i] && n.rep !in covered
    ensures RepGood(sets, i, Rep(n.rep, n.last, n.sset), covered + if n.last then Ids(sets[n.rep]) else {})
  {
    assert InSet(conf, sets, n.rep);
  }

  lemma RepsRest(sets: map<int, seq<int>>, i: int, reps: seq<Rep>, covered: set<int>)
    requires i in sets && RepsGood(sets, i, reps, covered) && reps != []
    ensures RepsGood(sets, i, reps[1..], covered)
    ensures forall k :: 0 <= k < |reps[1..]| ==> sets[reps[1..][k].id] != sets[reps[0].id]
  {
    forall k | 0 <= k < |reps[1..]| ensures sets[reps[1..][k].id] != sets[reps[0].id] {
      assert reps[0].id != reps[k + 1].id;
    }
  }

  /** The synced sets of different representatives merge without a fatal branch. */
  lemma {:induction false} MergeAllGood(conf: seq<int>, sets: map<int, seq<int>>, i: int, sync: seq<int>, reps: seq<Rep>,
                                        covered: set<int>, only: bool)
    requires Partitioned(conf, sets) && i in sets && RepsGood(sets, i, reps, covered)
    requires only || forall k :: 0 <= k < |reps| ==> reps[k].complete
    requires ByConf(conf, sync) && AllIn(conf, sync)
    requires forall k :: 0 <= k < |reps| ==> Ids(sync) !! Ids(sets[reps[k].id])
    ensures var m := MergeAll(conf, sync, reps, only);
            && m.Some? && Ids(m.value) == Ids(sync) + CompleteUnion(reps)
            && ByConf(conf, m.value) && AllIn(conf, m.value)
    decreases |reps|
  {
    if reps != [] {
      RepsRest(sets, i, reps, covered);
      assert InSet(conf, sets, reps[0].id);
      if only && !reps[0].complete {
        MergeAllGood(conf, sets, i, sync, reps[1..], covered, only);
      } else {
        var more := Merge(conf, sync, reps[0].sset);
        MergeAscending(conf, sync, reps[0].sset);
        forall k | 0 <= k < |reps[1..]| ensures Ids(more) !! Ids(sets[reps[1..][k].id]) {
          assert reps[1..][k] == reps[k + 1];
        }
        hide Merge;
        MergeAllGood(conf, sets, i, more, reps[1..], covered, only);
      }
    }
  }

  lemma OwnLeader(conf: seq<int>, sets: map<int, seq<int>>, i: int, r: int)
    requires Partitioned(conf, sets) && i in sets && Leads(sets, r)
    ensures sets[i] != [] && (sets[i][0] == r <==> sets[r] == sets[i])
  {
    assert InSet(conf, sets, i) && InSet(conf, sets, r);
    if sets[i][0] == r {
      assert r in Ids(sets[i]) && r in Ids(sets[r]);
    }
  }

  /** The daemon's record after a message, before it looks whether all have come. */
  function Record(e: Exchange, n: Note): Exchange
    requires e.sync != []
  {
    var own := n.rep == e.sync[0];
    e.(own := e.own || (own && n.last), reps := if own then e.reps else Gather(e.reps, n),
       count := e.count + if n.last then |n.sset| else 0)
  }

  lemma RecordCounts(conf: seq<int>, sets: map<int, seq<int>>, i: int, e: Exchange, covered: set<int>, n: Note)
    requires Partitioned(conf, sets) && i in sets && Counting(sets, i, e, covered)
    requires Leads(sets, n.rep) && n.sset == sets[n.rep] && n.rep !in covered
    requires Ids(sets[n.rep]) !! covered
    ensures e.sync != []
    ensures Counting(sets, i, Record(e, n), covered + if n.last then Ids(sets[n.rep]) else {})
  {
    hide Partitioned, RepsGood, CompleteUnion, Gather, ByConf, AllIn, Ids, InSet;
    SetOf(conf, sets, i);
    SetOf(conf, sets, n.rep);
    OwnLeader(conf, sets, i, n.rep);
    AfterCount(covered, Ids(sets[n.rep]), n.last, sets.Keys);
    if n.rep == e.sync[0] {
      RecordOwn(conf, sets, i, e, covered, n);
    } else {
      RecordOther(conf, sets, i, e, covered, n);
    }
  }

  lemma SetOf(conf: seq<int>, sets: map<int, seq<int>>, i: int)
    requires Partitioned(conf, sets) && i in sets
    ensures i in Ids(sets[i]) && Ids(sets[i]) <= sets.Keys && sets[i] != [] && |Ids(sets[i])| == |sets[i]|
  {
    assert InSet(conf, sets, i);
    CountIds(conf, sets[i]);
  }

  lemma RecordOwn(conf: seq<int>, sets: map<int, seq<int>>, i: int, e: Exchange, covered: set<int>, n: Note)
    requires Partitioned(conf, sets) && i in sets && Counting(sets, i, e, covered) && e.sync != []
    requires n.rep in sets && n.sset == sets[n.rep] == sets[i] && n.rep == e.sync[0]
    requires i in Ids(sets[i])
    requires var after := covered + (if n.last then Ids(sets[i]) else {});
             after <= sets.Keys && |after| == |covered| + if n.last then |n.sset| else 0
    ensures Counting(sets, i, Record(e, n), covered + if n.last then Ids(sets[i]) else {})
  {
    hide Partitioned, RepsGood, CompleteUnion, Gather, Ids;
    RepsOther(conf, sets, i, e.reps, covered, n.last);
    UnionGrows(covered, e.own, n.last, Ids(sets[i]), CompleteUnion(e.reps));
    CountingIs(sets, i, e, Record(e, n), covered + if n.last then Ids(sets[i]) else {});
  }

  lemma RecordOther(conf: seq<int>, sets: map<int, seq<int>>, i: int, e: Exchange, covered: set<int>, n: Note)
    requires Partitioned(conf, sets) && i in sets && Counting(sets, i, e, covered) && e.sync != []
    requires Leads(sets, n.rep) && n.sset == sets[n.rep] != sets[i] && n.rep != e.sync[0] && n.rep !in covered
    requires var after := covered + (if n.last then Ids(sets[n.rep]) else {});
             after <= sets.Keys && |after| == |covered| + if n.last then |n.sset| else 0
    ensures Counting(sets, i, Record(e, n), covered + if n.last then Ids(sets[n.rep]) else {})
  {
    hide Partitioned, RepsGood, CompleteUnion, Gather, Ids;
    GatherGood(conf, sets, i, e.reps, covered, n);
    RepsSset(sets, i, e.reps, covered, n);
    GatherUnion(e.reps, n);
    Apart(conf, sets, i, n.rep);
    OthersGrow(covered, if e.own then Ids(sets[i]) else {}, CompleteUnion(e.reps), Ids(sets[n.rep]), n.last);
    CountingIs(sets, i, e, Record(e, n), covered + if n.last then Ids(sets[n.rep]) else {});
  }

  lemma CountingIs(sets: map<int, seq<int>>, i: int, e: Exchange, f: Exchange, after: set<int>)
    requires i in sets && f.state == e.state && e.state in {Ggather, Ggt} && f.sync == e.sync == sets[i] && f.reg == e.reg == sets.Keys
    requires after <= sets.Keys && f.count == |after| && (f.own <==> i in after)
    requires after == (if f.own then Ids(sets[i]) else {}) + CompleteUnion(f.reps)
    requires RepsGood(sets, i, f.reps, after)
    ensures Counting(sets, i, f, after)
  {}

  lemma AfterCount(covered: set<int>, more: set<int>, last: bool, all: set<int>)
    requires covered <= all && more <= all && covered !! more
    ensures covered + (if last then more else {}) <= all
    ensures |covered + (if last then more else {})| == |covered| + if last then |more| else 0
  {
    DisjointCount(covered, more);
    assert covered + {} == covered;
  }

  lemma OthersGrow(covered: set<int>, mine: set<int>, rest: set<int>, more: set<int>, last: bool)
    requires covered == mine + rest
    ensures covered + (if last then more else {}) == mine + (rest + if last then more else {})
  {}

  lemma UnionGrows(covered: set<int>, own: bool, last: bool, mine: set<int>, rest: set<int>)
    requires covered == (if own then mine else {}) + rest
    ensures covered + (if last then mine else {}) == (if own || last then mine else {}) + rest
  {}

  lemma Apart(conf: seq<int>, sets: map<int, seq<int>>, i: int, r: int)
    requires Partitioned(conf, sets) && i in sets && r in sets && sets[i] != sets[r]
    ensures i !in Ids(sets[r])
  {
    assert InSet(conf, sets, i);
    assert i in Ids(sets[i]);
  }

  lemma RepsSset(sets: map<int, seq<int>>, i: int, reps: seq<Rep>, covered: set<int>, n: Note)
    requires i in sets && RepsGood(sets, i, reps, covered) && n.rep in sets && n.sset == sets[n.rep]
    ensures forall k :: 0 <= k < |reps| && reps[k].id == n.rep ==> reps[k].sset == n.sset
  {
    forall k | 0 <= k < |reps| && reps[k].id == n.rep ensures reps[k].sset == n.sset {
      assert RepGood(sets, i, reps[k], covered);
    }
  }

  /** The own set's completion changes nothing for the other representatives. */
  lemma RepsOther(conf: seq<int>, sets: map<int, seq<int>>, i: int, reps: seq<Rep>, covered: set<int>, last: bool)
    requires Partitioned(conf, sets) && i in sets && RepsGood(sets, i, reps, covered)
    ensures RepsGood(sets, i, reps, covered + if last then Ids(sets[i]) else {})
  {
    forall k | 0 <= k < |reps| ensures RepGood(sets, i, reps[k], covered + if last then Ids(sets[i]) else {}) {
      assert RepGood(sets, i, reps[k], covered) && InSet(conf, sets, reps[k].id);
      assert reps[k].id in Ids(sets[reps[k].id]);
    }
  }

  /** The merge at the end of the exchange, and the one after a cascading change. */
  lemma MergeGathered(conf: seq<int>, sets: map<int, seq<int>>, i: int, e: Exchange, covered: set<int>, only: bool)
    requires Partitioned(conf, sets) && i in sets && Counting(sets, i, e, covered) && i in covered
    requires only || covered == sets.Keys
    ensures var m := MergeAll(conf, e.sync, e.reps, only);
            m.Some? && Ids(m.value) == covered && ByConf(conf, m.value) && AllIn(conf, m.value)
  {
    assert InSet(conf, sets, i);
    forall k | 0 <= k < |e.reps| ensures Ids(e.sync) !! Ids(sets[e.reps[k].id]) && (covered == sets.Keys ==> e.reps[k].complete) {
      assert RepGood(sets, i, e.reps[k], covered);
    }
    MergeAllGood(conf, sets, i, e.sync, e.reps, covered, only);
  }

  /** The exchange of a membership is finished: the synced set is the whole membership. */
  ghost predicate Finished(conf: seq<int>, sets: map<int, seq<int>>, e: Exchange) {
    && e.state == Gop && Ids(e.sync) == sets.Keys && ByConf(conf, e.sync) && AllIn(conf, e.sync)
    && e.reg == sets.Keys && !e.own && e.reps == [] && e.count == 0
  }

  /** The same, after the next transitional membership. */
  ghost predicate FinishedTrans(conf: seq<int>, sets: map<int, seq<int>>, e: Exchange) {
    && e.state == Gtrans && Ids(e.sync) == sets.Keys * e.trans && ByConf(conf, e.sync) && AllIn(conf, e.sync)
    && !e.own && e.reps == [] && e.count == 0
  }

  lemma TransFinished(conf: seq<int>, sets: map<int, seq<int>>, e: Exchange, memb: set<int>)
    requires Finished(conf, sets, e)
    ensures HandleTrans(e, memb).Some? && FinishedTrans(conf, sets, HandleTrans(e, memb).value)
    ensures HandleTrans(e, memb).value.trans == memb
  {
    RestrictAscending(conf, e.sync, memb);
    RestrictAllIn(conf, e.sync, memb);
  }

  lemma RestrictAllIn(conf: seq<int>, s: seq<int>, memb: set<int>)
    requires AllIn(conf, s)
    ensures AllIn(conf, Restrict(s, memb))
  {
    IdsIn(s);
    IdsIn(Restrict(s, memb));
  }

  /** One more message: the daemon keeps gathering until the whole membership is covered, then it has the
      whole membership for its synced set. No fatal branch is taken. */
  lemma NoteStep(conf: seq<int>, sets: map<int, seq<int>>, i: int, e: Exchange, covered: set<int>, n: Note)
    requires Partitioned(conf, sets) && i in sets && Gathering(sets, i, e, covered)
    requires Leads(sets, n.rep) && n.sset == sets[n.rep] && n.rep !in covered && Ids(sets[n.rep]) !! covered
    ensures HandleNote(conf, e, n).Some?
    ensures var f := HandleNote(conf, e, n).value; var after := covered + if n.last then Ids(sets[n.rep]) else {};
            && f.trans == e.trans
            && if after != sets.Keys then Gathering(sets, i, f, after) && f.state == e.state
               else if e.state == Ggather then Finished(conf, sets, f)
               else FinishedTrans(conf, sets, f)
  {
    hide CompleteUnion, RepsGood, Partitioned, Gather, ByConf, AllIn, Ids, MergeAll, Finished, FinishedTrans;
    RecordCounts(conf, sets, i, e, covered, n);
    var f, after := Record(e, n), covered + if n.last then Ids(sets[n.rep]) else {};
    SubsetCount(after, sets.Keys);
    if after == sets.Keys {
      CompleteStep(conf, sets, i, f);
    }
  }

  lemma CompleteStep(conf: seq<int>, sets: map<int, seq<int>>, i: int, f: Exchange)
    requires Partitioned(conf, sets) && i in sets && Counting(sets, i, f, sets.Keys)
    ensures MergeAll(conf, f.sync, f.reps, false).Some?
    ensures var done := Exchange(Gop, MergeAll(conf, f.sync, f.reps, false).value, f.reg, f.trans, false, [], 0);
            && Finished(conf, sets, done) && HandleTrans(done, f.trans).Some?
            && HandleTrans(done, f.trans).value.trans == f.trans
            && FinishedTrans(conf, sets, HandleTrans(done, f.trans).value)
  {
    hide CompleteUnion, RepsGood, Partitioned, ByConf, AllIn, Ids, MergeAll;
    MergeGathered(conf, sets, i, f, sets.Keys, false);
    var done := Exchange(Gop, MergeAll(conf, f.sync, f.reps, false).value, f.reg, f.trans, false, [], 0);
    TransFinished(conf, sets, done, f.trans);
  }

  // ---- From one membership to the next ----

  /** Where a daemon stands when the messages so far cover `covered`; `trans` is the transitional
      membership once it came. */
  ghost predicate During(conf: seq<int>, sets: map<int, seq<int>>, i: int, e: Exchange, covered: set<int>, trans: Option<set<int>>)
    requires i in sets
  {
    && (trans.Some? ==> e.trans == trans.value)
    && if covered != sets.Keys then Gathering(sets, i, e, covered) && e.state == (if trans.None? then Ggather else Ggt)
       else if trans.None? then Finished(conf, sets, e)
       else FinishedTrans(conf, sets, e)
  }

  lemma ProperPrefix(sets: map<int, seq<int>>, notes: seq<Note>, n: Note)
    requires Proper(sets, notes + [n])
    ensures Proper(sets, notes) && Leads(sets, n.rep) && n.sset == sets[n.rep]
    ensures forall k :: 0 <= k < |notes| && notes[k].rep == n.rep ==> !notes[k].last
  {
    var all := notes + [n];
    assert forall k :: 0 <= k < |notes| ==> all[k] == notes[k];
    assert all[|notes|] == n;
    forall k | 0 <= k < |notes| && notes[k].rep == n.rep ensures !notes[k].last {
      assert all[k].rep == all[|notes|].rep;
    }
  }

  /** A message never comes from a representative that is covered already. */
  lemma NotCoveredYet(conf: seq<int>, sets: map<int, seq<int>>, notes: seq<Note>, n: Note)
    requires Partitioned(conf, sets) && Proper(sets, notes + [n])
    ensures Proper(sets, notes) && Leads(sets, n.rep) && n.sset == sets[n.rep]
    ensures n.rep !in Covered(sets, notes) && Ids(sets[n.rep]) !! Covered(sets, notes)
    ensures Covered(sets, notes) != sets.Keys
    ensures Covered(sets, notes + [n]) == Covered(sets, notes) + if n.last then Ids(sets[n.rep]) else {}
  {
    ProperPrefix(sets, notes, n);
    LeaderCovered(conf, sets, notes, n.rep);
    CoveredWhole(conf, sets, notes, n.rep);
    assert (notes + [n])[..|notes|] == notes;
  }

  /** A stretch of messages, all before or all after the transitional membership. */
  lemma {:induction false} NotesRun(conf: seq<int>, sets: map<int, seq<int>>, i: int, e: Exchange,
                                    prior: seq<Note>, notes: seq<Note>, trans: Option<set<int>>)
    requires Partitioned(conf, sets) && i in sets && Proper(sets, prior + notes)
    requires During(conf, sets, i, e, Covered(sets, prior), trans)
    ensures HandleNotes(conf, e, notes).Some?
    ensures During(conf, sets, i, HandleNotes(conf, e, notes).value, Covered(sets, prior + notes), trans)
    decreases |notes|
  {
    hide Partitioned, Proper, Gathering, Finished, FinishedTrans, Covered, Leads, Ids, HandleNote;
    if notes == [] {
      assert prior + notes == prior;
    } else {
      var init, n := notes[..|notes| - 1], notes[|notes| - 1];
      assert prior + notes == (prior + init) + [n];
      NotCoveredYet(conf, sets, prior + init, n);
      NotesRun(conf, sets, i, e, prior, init, trans);
      NoteStep(conf, sets, i, HandleNotes(conf, e, init).value, Covered(sets, prior + init), n);
    }
  }

  lemma TransStep(conf: seq<int>, sets: map<int, seq<int>>, i: int, e: Exchange, covered: set<int>, memb: set<int>)
    requires i in sets && During(conf, sets, i, e, covered, None)
    ensures HandleTrans(e, memb).Some? && During(conf, sets, i, HandleTrans(e, memb).value, covered, Some(memb))
  {
    if covered == sets.Keys {
      TransFinished(conf, sets, e, memb);
    }
  }

  /** Who daemon i stays in step with: everyone covered if its own representative was heard out, else its
      old set; of those, the ones that came along. */
  function Kept(sets: map<int, seq<int>>, i: int, covered: set<int>, trans: set<int>): set<int>
    requires i in sets
  {
    (if i in covered then covered else Ids(sets[i])) * trans
  }

  /** A daemon that just installed a membership. */
  ghost predicate Installed(conf: seq<int>, e: Exchange, memb: set<int>, sync: set<int>, gop: bool) {
    && Ids(e.sync) == sync && ByConf(conf, e.sync) && AllIn(conf, e.sync)
    && e.reg == memb && !e.own && e.reps == [] && e.count == 0
    && e.state == if gop then Gop else Ggather
  }

  lemma RegStep(conf: seq<int>, sets: map<int, seq<int>>, i: int, e: Exchange, covered: set<int>, trans: set<int>, memb: set<int>)
    requires Partitioned(conf, sets) && i in sets && During(conf, sets, i, e, covered, Some(trans))
    ensures HandleReg(conf, e, memb).Some?
    ensures Installed(conf, HandleReg(conf, e, memb).value, memb, Kept(sets, i, covered, trans),
                      covered == sets.Keys && |trans| == |memb|)
  {
    hide MergeAll, CompleteUnion, RepsGood, Partitioned, ByConf, AllIn, Ids;
    SetOf(conf, sets, i);
    if covered != sets.Keys {
      RegGathering(conf, sets, i, e, covered, trans, memb);
    }
  }

  lemma RegGathering(conf: seq<int>, sets: map<int, seq<int>>, i: int, e: Exchange, covered: set<int>, trans: set<int>, memb: set<int>)
    requires Partitioned(conf, sets) && i in sets && Gathering(sets, i, e, covered) && e.state == Ggt && e.trans == trans
    ensures HandleReg(conf, e, memb).Some?
    ensures Installed(conf, HandleReg(conf, e, memb).value, memb, Kept(sets, i, covered, trans), false)
  {
    assert InSet(conf, sets, i);
    hide MergeAll, CompleteUnion, RepsGood, Partitioned, ByConf, AllIn, Ids;
    if e.own {
      MergeGathered(conf, sets, i, e, covered, true);
    }
    var all := if e.own then MergeAll(conf, e.sync, e.reps, true).value else e.sync;
    RestrictAscending(conf, all, trans);
    RestrictAllIn(conf, all, trans);
  }

  /** A daemon that installed a membership in which nobody has to exchange anything keeps its set. */
  lemma InstantStep(conf: seq<int>, e: Exchange, trans: set<int>, memb: set<int>)
    requires e.state == Gop && ByConf(conf, e.sync) && AllIn(conf, e.sync) && !e.own && e.reps == [] && e.count == 0
    ensures HandleTrans(e, trans).Some? && HandleReg(conf, HandleTrans(e, trans).value, memb).Some?
    ensures Installed(conf, HandleReg(conf, HandleTrans(e, trans).value, memb).value, memb, Ids(e.sync) * trans, |trans| == |memb|)
  {
    RestrictAscending(conf, e.sync, trans);
    RestrictAllIn(conf, e.sync, trans);
  }

  /** The phases in which an event is fatal: a transitional membership on top of another, a regular one without a
      transitional one before it, a GROUPS message when nothing is exchanged. */
  lemma FatalPhases(conf: seq<int>, e: Exchange, memb: set<int>, n: Note)
    ensures HandleTrans(e, memb).None? <==> e.state in {Gtrans, Ggt}
    ensures e.state in {Gop, Ggather} ==> HandleReg(conf, e, memb).None?
    ensures e.state == Gtrans ==> HandleReg(conf, e, memb).Some?
    ensures e.state in {Gop, Gtrans} ==> HandleNote(conf, e, n).None?
  {}
}
