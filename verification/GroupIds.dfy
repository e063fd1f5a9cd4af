/** The id of one group over whole histories of memberships, with the joins and leaves in between.

Daemons with the same synced set have the same list; such a set is a part here. A part enters a membership
whole. There the parts exchange their lists, process the joins and leaves that the membership orders, and end
as the parts that come through the next transitional memberships. */
module GroupIds {
  import opened SpreadTypes
  import opened GroupBuffers

  datatype Who = Who(proc: int, name: string)

  /** A client disconnecting is a leave. Each is sent by the client's own daemon. */
  datatype Op = Join(who: Who) | Leave(who: Who)

  datatype Status = Absent | Present(id: GroupId, changed: bool, members: set<Who>)

  /** `procs` are the daemons of the transitional membership; others are partitioned. */
  datatype View = Regular(memb: MembId) | Transitional(memb: MembId, procs: set<int>)

  predicate Partitioned(v: View, proc: int) { v.Transitional? && proc !in v.procs }

  /** G_handle_join, G_handle_leave and G_handle_kill on one group. */
  function Apply(st: Status, op: Op, v: View): Status {
    match op
    case Join(who) =>
      if st.Absent? then Present(GroupId(v.memb, 1), Partitioned(v, who.proc), {who})
      else if who in st.members then st
      else Present(GroupId(st.id.memb, st.id.index + 1), st.changed || Partitioned(v, who.proc), st.members + {who})
    case Leave(who) =>
      if st.Absent? || who !in st.members then st
      else if st.members == {who} then Absent
      else Present(GroupId(st.id.memb, st.id.index + 1), st.changed, st.members - {who})
  }

  /** The operations numbered from `from` to before `to` that the daemon delivers. */
  function Deliver(st: Status, ops: seq<Op>, from: nat, upTo: nat, heard: set<int>, v: View): Status
    requires upTo <= |ops|
    decreases upTo
  {
    if upTo <= from then st
    else
      var before := Deliver(st, ops, from, upTo - 1, heard, v);
      if upTo - 1 in heard then Apply(before, ops[upTo - 1], v) else before
  }

  /** The numbers of the first n operations. */
  function First(n: nat): (s: set<int>)
    ensures forall p :: p in s <==> 0 <= p < n
  {
    if n == 0 then {} else First(n - 1) + {n - 1}
  }

  /** One group of the list, changed in place; `known` is false while the list does not have it. */
  class GroupEntry {
    var known: bool
    var id: GroupId
    var changed: bool
    var members: set<Who>

    constructor ()
      ensures State() == Absent
    {
      known, id, changed, members := false, GroupId(MembId(0, 0), 0), false, {};
    }

    function State(): Status
      reads this
    {
      if known then Present(id, changed, members) else Absent
    }

    /** G_handle_join: a new group starts with index 0, which the first join raises. */
    method Join(who: Who, v: View)
      modifies this
      ensures State() == Apply(old(State()), Op.Join(who), v)
      ensures known && members == (if old(known) then old(members) else {}) + {who}
      ensures if !old(known) then id == GroupId(v.memb, 1)
              else id == if who in old(members) then old(id) else GroupId(old(id.memb), old(id.index) + 1)
    {
      if !known {
        known, id, changed, members := true, GroupId(v.memb, 0), false, {};
      }
      if who in members {
        return;
      }
      members := members + {who};
      id := GroupId(id.memb, id.index + 1);
      if Partitioned(v, who.proc) && !changed {
        changed := true;
      }
      assert {} + {who} == {who};
    }

    /** G_handle_leave, and what G_handle_kill does to one group: an empty group is removed. */
    method Leave(who: Who, v: View)
      modifies this
      ensures State() == Apply(old(State()), Op.Leave(who), v)
      ensures known <==> old(known) && old(members) != {who}
      ensures known ==> members == old(members) - {who}
      ensures known ==> id == if who in old(members) then GroupId(old(id.memb), old(id.index) + 1) else old(id)
    {
      if !known || who !in members {
        return;
      }
      ghost var before := members;
      members := members - {who};
      if members == {} {
        assert before == {who};
        known := false;
        return;
      }
      id := GroupId(id.memb, id.index + 1);
    }
  }

  /** G_handle_trans_memb after normal operation. */
  function AtSignal(st: Status, memb: MembId, procs: set<int>): Status {
    if st.Present? && exists w :: w in st.members && w.proc !in procs then Present(GroupId(memb, 1), true, st.members) else st
  }

  function Within(members: set<Who>, procs: set<int>): set<Who> { set w | w in members && w.proc in procs }

  /** What becomes of the group when its partitioned daemons are eliminated. */
  function Keep(st: Status, members: set<Who>, changed: bool): Status {
    if st.Absent? || members == {} then Absent else Present(st.id, changed, members)
  }

  /** The next regular membership after normal operation: changed groups lose their partitioned daemons. */
  function AtRegular(st: Status, procs: set<int>): Status {
    if st.Present? && st.changed then Keep(st, Within(st.members, procs), true) else st
  }

  /** The same after an exchange that was cut short: any group may lose daemons and is changed if it does. */
  function Cascaded(st: Status, procs: set<int>): Status {
    if st.Absent? then st
    else Keep(st, Within(st.members, procs), st.changed || exists w :: w in st.members && w.proc !in procs)
  }

  /** One more list is read: the id of the first that knows the group stays. */
  function Read(st: Status, more: Status): Status {
    if st.Absent? then more
    else if more.Absent? then st
    else Present(st.id, st.changed || more.changed || st.id.memb != more.id.memb, st.members + more.members)
  }

  function ReadAll(lists: seq<Status>): Status {
    if lists == [] then Absent else Read(ReadAll(lists[..|lists| - 1]), lists[|lists| - 1])
  }

  /** The end of a complete exchange. */
  function Finished(st: Status, reg: MembId): Status {
    if st.Present? && st.changed then Present(GroupId(reg, 1), false, st.members) else st
  }

  datatype Part = Part(procs: set<int>, status: Status)

  /** How a part ends a membership. `covers` lists the earlier parts whose lists its daemons have read, in the order in
      which they read them; `complete`: all of them, so that they operated. They deliver the first `before`
      operations ahead of the transitional membership `memb` and those in `heard` behind it. */
  datatype Child = Child(procs: set<int>, memb: MembId, covers: seq<nat>, complete: bool, before: nat, heard: set<int>)

  /** One membership, from its regular configuration on. */
  datatype Round = Round(reg: MembId, entering: set<nat>, ops: seq<Op>, children: seq<Child>)

  function Lists(parts: seq<Part>, covers: seq<nat>): (lists: seq<Status>)
    requires forall k :: 0 <= k < |covers| ==> covers[k] < |parts|
    ensures |lists| == |covers| && forall k :: 0 <= k < |lists| ==> lists[k] == parts[covers[k]].status
  {
    seq(|covers|, k requires 0 <= k < |covers| => parts[covers[k]].status)
  }

  function Outcome(parts: seq<Part>, r: Round, c: Child): Status
    requires (forall k :: 0 <= k < |c.covers| ==> c.covers[k] < |parts|) && c.before <= |r.ops|
  {
    var read := ReadAll(Lists(parts, c.covers));
    if !c.complete then Cascaded(read, c.procs)
    else
      var signal := AtSignal(Deliver(Finished(read, r.reg), r.ops, 0, c.before, First(|r.ops|), Regular(r.reg)), c.memb, c.procs);
      AtRegular(Deliver(signal, r.ops, c.before, |r.ops|, c.heard, Transitional(c.memb, c.procs)), c.procs)
  }

  datatype System = System(parts: seq<Part>, used: set<MembId>)

  /** Daemons that have just started know no group. */
  ghost predicate Start(sys: System) {
    && (forall k :: 0 <= k < |sys.parts| ==> sys.parts[k].status.Absent?)
    && (forall k, l :: 0 <= k < l < |sys.parts| ==> sys.parts[k].procs !! sys.parts[l].procs)
  }

  /** What a child's daemons can be, have read and deliver. Virtual synchrony delivers to each what it sent itself; and
      daemons whose exchange is not complete send and deliver no operations. */
  ghost predicate ChildOf(parts: seq<Part>, r: Round, c: Child) {
    && c.covers != []
    && (forall k :: 0 <= k < |c.covers| ==> c.covers[k] < |parts| && c.covers[k] in r.entering)
    && (forall k, l :: 0 <= k < l < |c.covers| ==> c.covers[k] != c.covers[l])
    && (forall x :: x in c.procs ==> exists k :: 0 <= k < |c.covers| && x in parts[c.covers[k]].procs)
    && c.before <= |r.ops|
    && (c.complete ==> (forall e :: e in r.entering ==> e in c.covers)
                       && (forall p :: c.before <= p < |r.ops| && r.ops[p].who.proc in c.procs ==> p in c.heard))
    && (!c.complete ==> forall p :: 0 <= p < |r.ops| ==> r.ops[p].who.proc !in c.procs)
  }

  /** Membership ids are new. */
  ghost predicate Enabled(sys: System, r: Round) {
    && r.reg !in sys.used
    && (forall k :: k in r.entering ==> k < |sys.parts|)
    && (forall i :: 0 <= i < |r.children| ==>
          ChildOf(sys.parts, r, r.children[i]) && r.children[i].memb !in sys.used && r.children[i].memb != r.reg)
    && (forall i, j :: 0 <= i < j < |r.children| ==>
          r.children[i].procs !! r.children[j].procs && r.children[i].memb != r.children[j].memb)
  }

  function Children(parts: seq<Part>, r: Round): (ps: seq<Part>)
    requires forall i :: 0 <= i < |r.children| ==>
               (forall k :: 0 <= k < |r.children[i].covers| ==> r.children[i].covers[k] < |parts|) && r.children[i].before <= |r.ops|
    ensures |ps| == |r.children|
    ensures forall i :: 0 <= i < |ps| ==> ps[i] == Part(r.children[i].procs, Outcome(parts, r, r.children[i]))
  {
    seq(|r.children|, i requires 0 <= i < |r.children| => Part(r.children[i].procs, Outcome(parts, r, r.children[i])))
  }

  /** A part that entered leaves an empty place. */
  function Left(parts: seq<Part>, entering: set<nat>): (ps: seq<Part>)
    ensures |ps| == |parts|
    ensures forall k :: 0 <= k < |ps| ==> ps[k] == if k in entering then Part({}, Absent) else parts[k]
  {
    seq(|parts|, k requires 0 <= k < |parts| => if k in entering then Part({}, Absent) else parts[k])
  }

  ghost function Next(sys: System, r: Round): System
    requires Enabled(sys, r)
  {
    System(Left(sys.parts, r.entering) + Children(sys.parts, r),
           sys.used + {r.reg} + set i | 0 <= i < |r.children| :: r.children[i].memb)
  }

  ghost predicate ValidRun(sys: System, rounds: seq<Round>)
    decreases |rounds|
  {
    rounds == [] || (Enabled(sys, rounds[0]) && ValidRun(Next(sys, rounds[0]), rounds[1..]))
  }

  ghost function Run(sys: System, rounds: seq<Round>): System
    requires ValidRun(sys, rounds)
    decreases |rounds|
  {
    if rounds == [] then sys else Run(Next(sys, rounds[0]), rounds[1..])
  }

  // ---- The invariant ----

  ghost predicate InProcs(members: set<Who>, procs: set<int>) {
    forall w :: w in members ==> w.proc in procs
  }

  /** A known group has members, and only members of its own part. */
  ghost predicate Owned(p: Part, used: set<MembId>) {
    p.status.Present? ==> p.status.members != {} && InProcs(p.status.members, p.procs) && p.status.id.memb in used
  }

  predicate Unchanged(st: Status) { st.Present? && !st.changed }

  /** No two parts know the group as unchanged by ids of the same membership. */
  ghost predicate Rivals(a: Status, b: Status) {
    Unchanged(a) && Unchanged(b) && a.id.memb == b.id.memb
  }

  ghost predicate Compatible(a: Part, b: Part) {
    a.procs !! b.procs && !Rivals(a.status, b.status)
  }

  ghost predicate Inv(sys: System) {
    && (forall k :: 0 <= k < |sys.parts| ==> Owned(sys.parts[k], sys.used))
    && (forall k, l :: 0 <= k < l < |sys.parts| ==> Compatible(sys.parts[k], sys.parts[l]))
  }

  // ---- Processing operations ----

  ghost predicate Nonempty(st: Status) { st.Present? ==> st.members != {} }

  function MembersOf(st: Status): set<Who> { if st.Absent? then {} else st.members }

  /** Where a group known by an id of the membership in which it changed is not the old group any more. */
  ghost predicate Renewed(st: Status, memb: MembId) {
    st.Absent? || st.changed || st.id.memb == memb
  }

  lemma {:induction false} RenewedStays(st: Status, ops: seq<Op>, from: nat, upTo: nat, heard: set<int>, v: View)
    requires upTo <= |ops| && Renewed(st, v.memb)
    ensures Renewed(Deliver(st, ops, from, upTo, heard, v), v.memb)
    decreases upTo
  {
    if upTo > from {
      RenewedStays(st, ops, from, upTo - 1, heard, v);
    }
  }

  lemma {:induction false} DeliverNonempty(st: Status, ops: seq<Op>, from: nat, upTo: nat, heard: set<int>, v: View)
    requires upTo <= |ops| && Nonempty(st)
    ensures Nonempty(Deliver(st, ops, from, upTo, heard, v))
    decreases upTo
  {
    if upTo > from {
      DeliverNonempty(st, ops, from, upTo - 1, heard, v);
      ApplyNonempty(Deliver(st, ops, from, upTo - 1, heard, v), ops[upTo - 1], v);
    }
  }

  lemma ApplyNonempty(st: Status, op: Op, v: View)
    requires Nonempty(st)
    ensures Nonempty(Apply(st, op, v))
  {
    if op.Leave? && st.Present? && st.members - {op.who} == {} {
      assert st.members == if op.who in st.members then {op.who} else {};
    }
  }

  /** An operation changes only its own sender's membership. */
  lemma ApplyMembers(st: Status, op: Op, v: View)
    requires Nonempty(st)
    ensures MembersOf(Apply(st, op, v)) == if op.Join? then MembersOf(st) + {op.who} else MembersOf(st) - {op.who}
  {}

  /** Whoever delivers the operations of some daemons alike agrees on their members. */
  lemma {:induction false} SameMembers(a: Status, b: Status, ops: seq<Op>, from: nat, upTo: nat, heardA: set<int>, va: View,
                                       heardB: set<int>, vb: View, procs: set<int>)
    requires upTo <= |ops| && Nonempty(a) && Nonempty(b) && Within(MembersOf(a), procs) == Within(MembersOf(b), procs)
    requires forall p :: from <= p < upTo && ops[p].who.proc in procs ==> (p in heardA <==> p in heardB)
    ensures Within(MembersOf(Deliver(a, ops, from, upTo, heardA, va)), procs)
         == Within(MembersOf(Deliver(b, ops, from, upTo, heardB, vb)), procs)
    decreases upTo
  {
    if upTo > from {
      SameMembers(a, b, ops, from, upTo - 1, heardA, va, heardB, vb, procs);
      DeliverNonempty(a, ops, from, upTo - 1, heardA, va);
      DeliverNonempty(b, ops, from, upTo - 1, heardB, vb);
      OneMore(Deliver(a, ops, from, upTo - 1, heardA, va), ops[upTo - 1], va, procs);
      OneMore(Deliver(b, ops, from, upTo - 1, heardB, vb), ops[upTo - 1], vb, procs);
    }
  }

  lemma OneMore(st: Status, op: Op, v: View, procs: set<int>)
    requires Nonempty(st)
    ensures var after, before := Within(MembersOf(Apply(st, op, v)), procs), Within(MembersOf(st), procs);
            after == if op.who.proc !in procs then before else if op.Join? then before + {op.who} else before - {op.who}
  {
    ApplyMembers(st, op, v);
  }

  lemma {:induction false} DeliverSplit(st: Status, ops: seq<Op>, from: nat, mid: nat, upTo: nat, heard: set<int>, v: View)
    requires from <= mid <= upTo <= |ops|
    ensures Deliver(Deliver(st, ops, from, mid, heard, v), ops, mid, upTo, heard, v) == Deliver(st, ops, from, upTo, heard, v)
    decreases upTo
  {
    if upTo > mid {
      DeliverSplit(st, ops, from, mid, upTo - 1, heard, v);
    }
  }

  /** Behind the signal an unchanged group has established members only. */
  ghost predicate Established(st: Status, procs: set<int>) {
    st.Present? ==> st.changed || InProcs(st.members, procs)
  }

  lemma {:induction false} DeliverEstablished(st: Status, ops: seq<Op>, from: nat, upTo: nat, heard: set<int>, memb: MembId, procs: set<int>)
    requires upTo <= |ops| && Established(st, procs)
    ensures Established(Deliver(st, ops, from, upTo, heard, Transitional(memb, procs)), procs)
    decreases upTo
  {
    if upTo > from {
      DeliverEstablished(st, ops, from, upTo - 1, heard, memb, procs);
    }
  }

  /** A group keeps the membership of its id, or got the view's when it was set up again. */
  lemma {:induction false} DeliverMemb(st: Status, ops: seq<Op>, from: nat, upTo: nat, heard: set<int>, v: View)
    requires upTo <= |ops|
    ensures var d := Deliver(st, ops, from, upTo, heard, v);
            d.Present? ==> d.id.memb == v.memb || (st.Present? && d.id.memb == st.id.memb)
    ensures var d := Deliver(st, ops, from, upTo, heard, v);
            v.Regular? && d.Present? && d.changed ==> st.Present? && st.changed
    decreases upTo
  {
    if upTo > from {
      DeliverMemb(st, ops, from, upTo - 1, heard, v);
    }
  }

  /** Members whose daemons send nothing stay, and the group with them. */
  lemma {:induction false} SilentStay(st: Status, ops: seq<Op>, upTo: nat, heard: set<int>, v: View, w: Who)
    requires upTo <= |ops| && w in MembersOf(st) && forall p :: 0 <= p < |ops| ==> ops[p].who.proc != w.proc
    ensures w in MembersOf(Deliver(st, ops, 0, upTo, heard, v))
    decreases upTo
  {
    if upTo > 0 {
      SilentStay(st, ops, upTo - 1, heard, v, w);
    }
  }

  // ---- Reading lists ----

  ghost predicate NoRivals(lists: seq<Status>) {
    forall k, l :: 0 <= k < l < |lists| ==> !Rivals(lists[k], lists[l])
  }

  /** If nothing read says that the group changed, a single list knows it. */
  lemma {:induction false} ReadOne(lists: seq<Status>)
    requires NoRivals(lists) && Unchanged(ReadAll(lists))
    ensures exists k :: 0 <= k < |lists| && lists[k] == ReadAll(lists)
    ensures forall k :: 0 <= k < |lists| && lists[k].Present? ==> lists[k] == ReadAll(lists)
  {
    var init, last := lists[..|lists| - 1], lists[|lists| - 1];
    if ReadAll(init).Absent? {
      NoneRead(init);
      assert lists[|lists| - 1] == ReadAll(lists);
    } else {
      ReadOne(init);
      var k :| 0 <= k < |init| && init[k] == ReadAll(init);
      assert !Rivals(lists[k], last);
      assert lists[k] == ReadAll(lists);
    }
  }

  lemma {:induction false} NoneRead(lists: seq<Status>)
    requires ReadAll(lists).Absent?
    ensures forall k :: 0 <= k < |lists| ==> lists[k].Absent?
  {
    if lists != [] {
      NoneRead(lists[..|lists| - 1]);
    }
  }

  /** Whatever is read has members, and an id that some list has. */
  lemma {:induction false} ReadSound(lists: seq<Status>)
    requires forall k :: 0 <= k < |lists| ==> Nonempty(lists[k])
    ensures Nonempty(ReadAll(lists))
    ensures ReadAll(lists).Present? ==> exists k :: 0 <= k < |lists| && lists[k].Present? && lists[k].id == ReadAll(lists).id
  {
    if lists != [] {
      var init, last := lists[..|lists| - 1], lists[|lists| - 1];
      ReadSound(init);
      if ReadAll(init).Present? {
        var k :| 0 <= k < |init| && init[k].Present? && init[k].id == ReadAll(init).id;
        assert lists[k].Present? && lists[k].id == ReadAll(lists).id;
        assert ReadAll(init).members <= ReadAll(lists).members;
      } else if last.Present? {
        assert lists[|lists| - 1].id == ReadAll(lists).id;
      }
    }
  }

  /** What a child read. */
  function ReadBy(parts: seq<Part>, c: Child): Status
    requires forall k :: 0 <= k < |c.covers| ==> c.covers[k] < |parts|
  {
    ReadAll(Lists(parts, c.covers))
  }

  lemma ChildReads(sys: System, r: Round, c: Child)
    requires Inv(sys) && ChildOf(sys.parts, r, c)
    ensures Nonempty(ReadBy(sys.parts, c))
    ensures ReadBy(sys.parts, c).Present? ==> ReadBy(sys.parts, c).id.memb in sys.used
    ensures Unchanged(ReadBy(sys.parts, c)) ==> exists k :: 0 <= k < |sys.parts| && k in c.covers && sys.parts[k].status == ReadBy(sys.parts, c)
    ensures Unchanged(ReadBy(sys.parts, c)) ==>
              forall k :: k in c.covers && sys.parts[k].status.Present? ==> sys.parts[k].status == ReadBy(sys.parts, c)
  {
    var lists := Lists(sys.parts, c.covers);
    forall k | 0 <= k < |lists| ensures Nonempty(lists[k]) {
      assert Owned(sys.parts[c.covers[k]], sys.used);
    }
    ReadSound(lists);
    if ReadAll(lists).Present? {
      var k :| 0 <= k < |lists| && lists[k].Present? && lists[k].id == ReadAll(lists).id;
      assert Owned(sys.parts[c.covers[k]], sys.used);
    }
    if Unchanged(ReadAll(lists)) {
      forall k, l | 0 <= k < l < |lists| ensures !Rivals(lists[k], lists[l]) {
        var a, b := c.covers[k], c.covers[l];
        assert a != b && Compatible(sys.parts[if a < b then a else b], sys.parts[if a < b then b else a]);
      }
      ReadOne(lists);
      var k :| 0 <= k < |lists| && lists[k] == ReadAll(lists);
      assert c.covers[k] in c.covers && sys.parts[c.covers[k]].status == ReadAll(lists);
      forall j | j in c.covers && sys.parts[j].status.Present? ensures sys.parts[j].status == ReadAll(lists) {
        var l :| 0 <= l < |c.covers| && c.covers[l] == j;
        assert lists[l] == sys.parts[j].status;
      }
    }
  }

  // ---- One part through a membership ----

  /** The group of a child that operated, before the signal. */
  function BeforeSignal(parts: seq<Part>, r: Round, c: Child, upTo: nat): Status
    requires (forall k :: 0 <= k < |c.covers| ==> c.covers[k] < |parts|) && upTo <= |r.ops|
  {
    Deliver(Finished(ReadBy(parts, c), r.reg), r.ops, 0, upTo, First(|r.ops|), Regular(r.reg))
  }

  /** And when it has come to operation upTo behind it. */
  function AfterSignal(parts: seq<Part>, r: Round, c: Child, upTo: nat): Status
    requires (forall k :: 0 <= k < |c.covers| ==> c.covers[k] < |parts|) && c.before <= |r.ops| && upTo <= |r.ops|
  {
    Deliver(AtSignal(BeforeSignal(parts, r, c, c.before), c.memb, c.procs), r.ops, c.before, upTo, c.heard, Transitional(c.memb, c.procs))
  }

  lemma OutcomeIs(parts: seq<Part>, r: Round, c: Child)
    requires (forall k :: 0 <= k < |c.covers| ==> c.covers[k] < |parts|) && c.before <= |r.ops|
    ensures Outcome(parts, r, c) ==
            if c.complete then AtRegular(AfterSignal(parts, r, c, |r.ops|), c.procs) else Cascaded(ReadBy(parts, c), c.procs)
  {}

  /** The states that the operating part goes through are proper. */
  lemma Proper(sys: System, r: Round, c: Child, upTo: nat)
    requires Inv(sys) && ChildOf(sys.parts, r, c) && upTo <= |r.ops|
    ensures Nonempty(BeforeSignal(sys.parts, r, c, upTo)) && Nonempty(AfterSignal(sys.parts, r, c, upTo))
    ensures Established(AfterSignal(sys.parts, r, c, upTo), c.procs)
  {
    ChildReads(sys, r, c);
    var st := Finished(ReadBy(sys.parts, c), r.reg);
    DeliverNonempty(st, r.ops, 0, upTo, First(|r.ops|), Regular(r.reg));
    DeliverNonempty(st, r.ops, 0, c.before, First(|r.ops|), Regular(r.reg));
    var signal := AtSignal(BeforeSignal(sys.parts, r, c, c.before), c.memb, c.procs);
    DeliverNonempty(signal, r.ops, c.before, upTo, c.heard, Transitional(c.memb, c.procs));
    DeliverEstablished(signal, r.ops, c.before, upTo, c.heard, c.memb, c.procs);
  }

  /** If in the end the group is unchanged and has an older id, it was so all the time since the signal. */
  lemma Steady(sys: System, r: Round, c: Child, upTo: nat)
    requires Inv(sys) && ChildOf(sys.parts, r, c) && c.complete && c.before <= upTo <= |r.ops|
    requires Unchanged(Outcome(sys.parts, r, c)) && Outcome(sys.parts, r, c).id.memb != c.memb
    ensures var st := AfterSignal(sys.parts, r, c, upTo); Unchanged(st) && st.members != {} && InProcs(st.members, c.procs)
    ensures var st := BeforeSignal(sys.parts, r, c, c.before); st == AfterSignal(sys.parts, r, c, c.before)
  {
    OutcomeIs(sys.parts, r, c);
    hide Inv, ChildOf, Deliver;
    SteadyAt(sys, r, c, upTo);
    SteadyAt(sys, r, c, c.before);
    DeliverNothing(AtSignal(BeforeSignal(sys.parts, r, c, c.before), c.memb, c.procs), r.ops, c.before, c.heard,
                   Transitional(c.memb, c.procs));
  }

  lemma DeliverNothing(st: Status, ops: seq<Op>, from: nat, heard: set<int>, v: View)
    requires from <= |ops|
    ensures Deliver(st, ops, from, from, heard, v) == st
  {}

  lemma SteadyAt(sys: System, r: Round, c: Child, upTo: nat)
    requires Inv(sys) && ChildOf(sys.parts, r, c) && c.before <= upTo <= |r.ops|
    requires var last := AfterSignal(sys.parts, r, c, |r.ops|); Unchanged(last) && last.id.memb != c.memb
    ensures var st := AfterSignal(sys.parts, r, c, upTo);
            !Renewed(st, c.memb) && Unchanged(st) && st.members != {} && InProcs(st.members, c.procs)
  {
    Proper(sys, r, c, upTo);
    hide Inv, ChildOf, Deliver, BeforeSignal, AtSignal;
    var v := Transitional(c.memb, c.procs);
    var signal := AtSignal(BeforeSignal(sys.parts, r, c, c.before), c.memb, c.procs);
    DeliverSplit(signal, r.ops, c.before, upTo, |r.ops|, c.heard, v);
    var st := Deliver(signal, r.ops, c.before, upTo, c.heard, v);
    if Renewed(st, c.memb) {
      RenewedStays(st, r.ops, upTo, |r.ops|, c.heard, v);
    }
  }

  // ---- Two parts of one membership ----

  /** Neither operated: both still have the one list that knew the group, and cannot both have its members. */
  lemma BothCut(sys: System, r: Round, a: Child, b: Child)
    requires Inv(sys) && ChildOf(sys.parts, r, a) && ChildOf(sys.parts, r, b) && a.procs !! b.procs
    requires !a.complete && !b.complete
    ensures !Rivals(Outcome(sys.parts, r, a), Outcome(sys.parts, r, b))
  {
    ChildReads(sys, r, a);
    ChildReads(sys, r, b);
    hide ChildOf, ReadAll;
    var x, y := Outcome(sys.parts, r, a), Outcome(sys.parts, r, b);
    OutcomeIs(sys.parts, r, a);
    OutcomeIs(sys.parts, r, b);
    if Rivals(x, y) {
      CutKeeps(ReadBy(sys.parts, a), a.procs);
      NotBoth(x.members, a.procs, b.procs);
      CutKeeps(ReadBy(sys.parts, b), b.procs);
      SameList(sys, a, b);
    }
  }

  lemma NotBoth(members: set<Who>, a: set<int>, b: set<int>)
    requires a !! b && members != {}
    ensures !(InProcs(members, a) && InProcs(members, b))
  {
    var w :| w in members;
  }

  lemma NotRivals(sys: System, k: nat, l: nat)
    requires Inv(sys) && k < |sys.parts| && l < |sys.parts| && k != l
    ensures Compatible(sys.parts[k], sys.parts[l])
  {
    var i, j := if k < l then k else l, if k < l then l else k;
    assert Compatible(sys.parts[i], sys.parts[j]);
  }

  lemma CutKeeps(st: Status, procs: set<int>)
    requires Unchanged(Cascaded(st, procs))
    ensures Cascaded(st, procs) == st && Unchanged(st) && st.members != {} && InProcs(st.members, procs)
  {
    assert Within(st.members, procs) == st.members;
  }

  lemma SameList(sys: System, a: Child, b: Child)
    requires Inv(sys)
    requires forall k :: 0 <= k < |a.covers| ==> a.covers[k] < |sys.parts|
    requires forall k :: 0 <= k < |b.covers| ==> b.covers[k] < |sys.parts|
    requires var x, y := ReadBy(sys.parts, a), ReadBy(sys.parts, b);
             && Rivals(x, y)
             && (exists k :: 0 <= k < |sys.parts| && k in a.covers && sys.parts[k].status == x)
             && (exists l :: 0 <= l < |sys.parts| && l in b.covers && sys.parts[l].status == y)
    ensures ReadBy(sys.parts, a) == ReadBy(sys.parts, b)
  {
    hide ReadBy;
    var x, y := ReadBy(sys.parts, a), ReadBy(sys.parts, b);
    var k :| 0 <= k < |sys.parts| && k in a.covers && sys.parts[k].status == x;
    var l :| 0 <= l < |sys.parts| && l in b.covers && sys.parts[l].status == y;
    hide Inv;
    if k != l {
      NotRivals(sys, k, l);
    }
  }

  /** One operated, one did not: a group that both still knew as unchanged has members only with the one that sent
      nothing, and the other one saw them go. */
  lemma OneCut(sys: System, r: Round, a: Child, b: Child)
    requires Inv(sys) && Enabled(sys, r) && ChildOf(sys.parts, r, a) && ChildOf(sys.parts, r, b) && a.procs !! b.procs
    requires a.memb !in sys.used && a.complete && !b.complete
    ensures !Rivals(Outcome(sys.parts, r, a), Outcome(sys.parts, r, b))
  {
    ChildReads(sys, r, a);
    ChildReads(sys, r, b);
    OutcomeIs(sys.parts, r, a);
    OutcomeIs(sys.parts, r, b);
    var x, y := Outcome(sys.parts, r, a), Outcome(sys.parts, r, b);
    if Rivals(x, y) {
      CutKeeps(ReadBy(sys.parts, b), b.procs);
      Steady(sys, r, a, a.before);
      Origin(sys, r, a);
      SameList(sys, a, b);
      var w :| w in y.members;
      SilentStay(ReadBy(sys.parts, a), r.ops, a.before, First(|r.ops|), Regular(r.reg), w);
    }
  }

  /** An unchanged group with an older id was read as it is, and nobody called it changed. */
  lemma Origin(sys: System, r: Round, c: Child)
    requires Inv(sys) && Enabled(sys, r) && ChildOf(sys.parts, r, c) && c.complete
    requires var x := Outcome(sys.parts, r, c); Unchanged(x) && x.id.memb != c.memb && x.id.memb != r.reg
    ensures Unchanged(ReadBy(sys.parts, c)) && ReadBy(sys.parts, c).id.memb == Outcome(sys.parts, r, c).id.memb
    ensures Finished(ReadBy(sys.parts, c), r.reg) == ReadBy(sys.parts, c)
  {
    ChildReads(sys, r, c);
    OutcomeIs(sys.parts, r, c);
    hide Inv, ChildOf, Enabled, Deliver, ReadBy;
    var st := Finished(ReadBy(sys.parts, c), r.reg);
    DeliverMemb(st, r.ops, 0, c.before, First(|r.ops|), Regular(r.reg));
    var signal := AtSignal(BeforeSignal(sys.parts, r, c, c.before), c.memb, c.procs);
    DeliverMemb(signal, r.ops, c.before, |r.ops|, c.heard, Transitional(c.memb, c.procs));
  }

  /** Both operated, a up to an earlier signal than b: what a's daemons sent until then, b has delivered too, and a
      delivers it behind the signal. */
  lemma BothOperated(sys: System, r: Round, a: Child, b: Child)
    requires Inv(sys) && ChildOf(sys.parts, r, a) && ChildOf(sys.parts, r, b) && a.procs !! b.procs && a.memb != b.memb
    requires a.complete && b.complete && a.before <= b.before
    requires Finished(ReadBy(sys.parts, a), r.reg) == Finished(ReadBy(sys.parts, b), r.reg)
    ensures var x, y := Outcome(sys.parts, r, a), Outcome(sys.parts, r, b);
            Rivals(x, y) ==> x.id.memb == a.memb || y.id.memb == b.memb
  {
    var x, y := Outcome(sys.parts, r, a), Outcome(sys.parts, r, b);
    hide Outcome, ReadBy;
    if Rivals(x, y) && x.id.memb != a.memb && y.id.memb != b.memb {
      Steady(sys, r, a, b.before);
      Steady(sys, r, a, a.before);
      Steady(sys, r, b, b.before);
      var st, other := AfterSignal(sys.parts, r, a, b.before), BeforeSignal(sys.parts, r, b, b.before);
      hide Inv, ChildOf, BeforeSignal, AfterSignal;
      NotBoth(st.members, a.procs, b.procs);
      Differ(MembersOf(st), MembersOf(other), a.procs, b.procs);
      SameSenders(sys, r, a, b);
    }
  }

  lemma Differ(x: set<Who>, y: set<Who>, a: set<int>, b: set<int>)
    requires a !! b && x != {} && InProcs(x, a) && InProcs(y, b)
    ensures Within(x, a) != Within(y, a)
  {
    var w :| w in x;
    assert w in Within(x, a) && w !in Within(y, a);
  }

  lemma SameSenders(sys: System, r: Round, a: Child, b: Child)
    requires Inv(sys) && ChildOf(sys.parts, r, a) && ChildOf(sys.parts, r, b)
    requires a.complete && a.before <= b.before
    requires Finished(ReadBy(sys.parts, a), r.reg) == Finished(ReadBy(sys.parts, b), r.reg)
    requires BeforeSignal(sys.parts, r, a, a.before) == AfterSignal(sys.parts, r, a, a.before)
    ensures Within(MembersOf(AfterSignal(sys.parts, r, a, b.before)), a.procs)
         == Within(MembersOf(BeforeSignal(sys.parts, r, b, b.before)), a.procs)
  {
    Proper(sys, r, a, a.before);
    var all := First(|r.ops|);
    var st := BeforeSignal(sys.parts, r, a, a.before);
    var start := Finished(ReadBy(sys.parts, b), r.reg);
    DeliverSplit(start, r.ops, 0, a.before, b.before, all, Regular(r.reg));
    var signal := AtSignal(st, a.memb, a.procs);
    DeliverNothing(signal, r.ops, a.before, a.heard, Transitional(a.memb, a.procs));
    SameMembers(signal, st, r.ops, a.before, b.before, a.heard, Transitional(a.memb, a.procs), all, Regular(r.reg), a.procs);
  }

  // ---- A whole membership ----

  /** The id that a child ends with is new or was read. */
  lemma ChildMemb(sys: System, r: Round, c: Child)
    requires Inv(sys) && ChildOf(sys.parts, r, c)
    ensures var x := Outcome(sys.parts, r, c);
            x.Present? ==> x.id.memb in sys.used + {c.memb, r.reg}
    ensures var x := Outcome(sys.parts, r, c);
            Unchanged(x) && x.id.memb !in {c.memb, r.reg} ==> Unchanged(ReadBy(sys.parts, c)) && ReadBy(sys.parts, c).id.memb == x.id.memb
    ensures Outcome(sys.parts, r, c).Present? && !c.complete ==> Outcome(sys.parts, r, c).id.memb in sys.used
  {
    ChildReads(sys, r, c);
    OutcomeIs(sys.parts, r, c);
    hide Inv, ChildOf, Deliver, ReadBy;
    if c.complete {
      var st := Finished(ReadBy(sys.parts, c), r.reg);
      DeliverMemb(st, r.ops, 0, c.before, First(|r.ops|), Regular(r.reg));
      var signal := AtSignal(BeforeSignal(sys.parts, r, c, c.before), c.memb, c.procs);
      DeliverMemb(signal, r.ops, c.before, |r.ops|, c.heard, Transitional(c.memb, c.procs));
    }
  }

  lemma ChildOwned(sys: System, r: Round, c: Child, used: set<MembId>)
    requires Inv(sys) && ChildOf(sys.parts, r, c) && sys.used + {c.memb, r.reg} <= used
    ensures Owned(Part(c.procs, Outcome(sys.parts, r, c)), used)
  {
    ChildMemb(sys, r, c);
    OutcomeIs(sys.parts, r, c);
    if c.complete {
      Proper(sys, r, c, |r.ops|);
    }
  }

  lemma {:induction false} HasOne(lists: seq<Status>, st: Status)
    requires st in lists
    ensures MembersOf(st) <= MembersOf(ReadAll(lists)) && (st.Present? ==> ReadAll(lists).Present?)
  {
    if st != lists[|lists| - 1] {
      HasOne(lists[..|lists| - 1], st);
    }
  }

  lemma {:induction false} ReadLess(lists: seq<Status>, more: seq<Status>)
    requires forall st :: st in lists ==> st in more
    ensures MembersOf(ReadAll(lists)) <= MembersOf(ReadAll(more)) && (ReadAll(lists).Present? ==> ReadAll(more).Present?)
  {
    if lists != [] {
      ReadLess(lists[..|lists| - 1], more);
      assert lists[|lists| - 1] in lists;
      HasOne(more, lists[|lists| - 1]);
    }
  }

  lemma SameCovers(sys: System, r: Round, a: Child, b: Child)
    requires ChildOf(sys.parts, r, a) && ChildOf(sys.parts, r, b) && a.complete && b.complete
    ensures forall st :: st in Lists(sys.parts, a.covers) ==> st in Lists(sys.parts, b.covers)
  {
    var x, y := Lists(sys.parts, a.covers), Lists(sys.parts, b.covers);
    forall st | st in x ensures st in y {
      var k :| 0 <= k < |x| && x[k] == st;
      assert a.covers[k] in b.covers;
      var l :| 0 <= l < |b.covers| && b.covers[l] == a.covers[k];
      assert y[l] == st;
    }
  }

  /** Who has read all lists knows the same, in whatever order it read them. */
  lemma SameRead(sys: System, r: Round, a: Child, b: Child)
    requires Inv(sys) && ChildOf(sys.parts, r, a) && ChildOf(sys.parts, r, b) && a.complete && b.complete
    ensures Finished(ReadBy(sys.parts, a), r.reg) == Finished(ReadBy(sys.parts, b), r.reg)
  {
    SameCovers(sys, r, a, b);
    SameCovers(sys, r, b, a);
    OneWay(sys, r, a, b);
    OneWay(sys, r, b, a);
    hide Inv, ChildOf;
    ReadLess(Lists(sys.parts, a.covers), Lists(sys.parts, b.covers));
    ReadLess(Lists(sys.parts, b.covers), Lists(sys.parts, a.covers));
    assert MembersOf(ReadBy(sys.parts, a)) == MembersOf(ReadBy(sys.parts, b));
  }

  lemma {:induction false} ReadAllIs(lists: seq<Status>, st: Status)
    requires Unchanged(st) && forall k :: 0 <= k < |lists| && lists[k].Present? ==> lists[k] == st
    ensures ReadAll(lists).Present? ==> ReadAll(lists) == st
  {
    if lists != [] {
      var init := lists[..|lists| - 1];
      ReadAllIs(init, st);
      assert st.members + st.members == st.members;
    }
  }

  /** If one of them read an unchanged group, so did the other. */
  lemma OneWay(sys: System, r: Round, a: Child, b: Child)
    requires Inv(sys) && ChildOf(sys.parts, r, a) && ChildOf(sys.parts, r, b) && a.complete && b.complete
    ensures Unchanged(ReadBy(sys.parts, a)) && ReadBy(sys.parts, b).Present? ==> ReadBy(sys.parts, a) == ReadBy(sys.parts, b)
  {
    var x := ReadBy(sys.parts, a);
    ChildReads(sys, r, a);
    if Unchanged(x) {
      var lists := Lists(sys.parts, b.covers);
      hide ReadBy, ReadAll;
      forall k | 0 <= k < |lists| && lists[k].Present? ensures lists[k] == x {
        assert b.covers[k] in a.covers;
      }
      ReadAllIs(lists, x);
      assert ReadBy(sys.parts, b) == ReadAll(lists) by { ReadByIs(sys.parts, b); }
    }
  }

  lemma ReadByIs(parts: seq<Part>, c: Child)
    requires forall k :: 0 <= k < |c.covers| ==> c.covers[k] < |parts|
    ensures ReadBy(parts, c) == ReadAll(Lists(parts, c.covers))
  {}

  /** Two operating children, in either order. */
  lemma BothComplete(sys: System, r: Round, a: Child, b: Child)
    requires Inv(sys) && ChildOf(sys.parts, r, a) && ChildOf(sys.parts, r, b) && a.procs !! b.procs && a.memb != b.memb
    requires a.complete && b.complete && r.reg !in sys.used && a.memb !in sys.used + {r.reg} && b.memb !in sys.used + {r.reg}
    ensures !Rivals(Outcome(sys.parts, r, a), Outcome(sys.parts, r, b))
  {
    var x, y := Outcome(sys.parts, r, a), Outcome(sys.parts, r, b);
    ChildMemb(sys, r, a);
    ChildMemb(sys, r, b);
    hide Inv, Outcome;
    if Rivals(x, y) {
      SameRead(sys, r, a, b);
      if a.before <= b.before {
        BothOperated(sys, r, a, b);
      } else {
        BothOperated(sys, r, b, a);
      }
    }
  }

  /** Two children of one membership. */
  lemma ChildPair(sys: System, r: Round, i: nat, j: nat)
    requires Inv(sys) && Enabled(sys, r) && i < j < |r.children|
    ensures Compatible(Part(r.children[i].procs, Outcome(sys.parts, r, r.children[i])),
                       Part(r.children[j].procs, Outcome(sys.parts, r, r.children[j])))
  {
    var a, b := r.children[i], r.children[j];
    hide Inv, Outcome, ChildOf;
    if a.complete && b.complete {
      BothComplete(sys, r, a, b);
    } else if a.complete {
      OneCut(sys, r, a, b);
    } else if b.complete {
      OneCut(sys, r, b, a);
    } else {
      BothCut(sys, r, a, b);
    }
  }

  lemma ChildApart(sys: System, r: Round, c: Child, q: nat)
    requires Inv(sys) && ChildOf(sys.parts, r, c) && q < |sys.parts| && q !in r.entering
    ensures c.procs !! sys.parts[q].procs
  {
    forall x | x in c.procs ensures x !in sys.parts[q].procs {
      var k :| 0 <= k < |c.covers| && x in sys.parts[c.covers[k]].procs;
      var m, n := if c.covers[k] < q then c.covers[k] else q, if c.covers[k] < q then q else c.covers[k];
      assert Compatible(sys.parts[m], sys.parts[n]);
    }
  }

  /** A child and a part that did not enter. */
  lemma ChildAndOther(sys: System, r: Round, i: nat, q: nat)
    requires Inv(sys) && Enabled(sys, r) && i < |r.children| && q < |sys.parts| && q !in r.entering
    ensures Compatible(sys.parts[q], Part(r.children[i].procs, Outcome(sys.parts, r, r.children[i])))
  {
    var c := r.children[i];
    ChildApart(sys, r, c, q);
    ChildReads(sys, r, c);
    ChildMemb(sys, r, c);
    assert Owned(sys.parts[q], sys.used);
    hide Outcome, ReadBy;
    if Rivals(Outcome(sys.parts, r, c), sys.parts[q].status) {
      var k: nat :| k < |sys.parts| && k in c.covers && sys.parts[k].status == ReadBy(sys.parts, c);
      NotRivals(sys, k, q);
    }
  }

  /** What stands at place k afterwards. */
  ghost predicate Stands(sys: System, r: Round, p: Part, k: nat)
    requires Enabled(sys, r)
  {
    && k < |sys.parts| + |r.children|
    && p == if k < |sys.parts| then Left(sys.parts, r.entering)[k]
            else Part(r.children[k - |sys.parts|].procs, Outcome(sys.parts, r, r.children[k - |sys.parts|]))
  }

  lemma NextPart(sys: System, r: Round, k: nat)
    requires Enabled(sys, r) && k < |Next(sys, r).parts|
    ensures k < |sys.parts| + |r.children| && Stands(sys, r, Next(sys, r).parts[k], k)
  {
    hide Outcome, Left, Children, ChildOf;
  }

  lemma StandsOwned(sys: System, r: Round, p: Part, k: nat, used: set<MembId>)
    requires Inv(sys) && Enabled(sys, r) && Stands(sys, r, p, k) && sys.used <= used
    requires k >= |sys.parts| ==> sys.used + {r.children[k - |sys.parts|].memb, r.reg} <= used
    ensures Owned(p, used)
  {
    hide ChildOf, Outcome, Compatible;
    if k < |sys.parts| {
      assert Owned(sys.parts[k], sys.used);
    } else {
      ChildOwned(sys, r, r.children[k - |sys.parts|], used);
    }
  }

  lemma UsedNow(sys: System, r: Round, k: nat)
    requires Enabled(sys, r) && k < |sys.parts| + |r.children|
    ensures sys.used <= Next(sys, r).used
    ensures k >= |sys.parts| ==> sys.used + {r.children[k - |sys.parts|].memb, r.reg} <= Next(sys, r).used
  {
    hide Outcome, Left, Children, ChildOf;
    assert k >= |sys.parts| ==> r.children[k - |sys.parts|].memb in Next(sys, r).used;
  }

  lemma NextInv(sys: System, r: Round)
    requires Inv(sys) && Enabled(sys, r)
    ensures Inv(Next(sys, r))
  {
    var next := Next(sys, r);
    hide ChildOf, Outcome, Compatible, Enabled, Owned, Next, Stands;
    forall k | 0 <= k < |next.parts| ensures Owned(next.parts[k], next.used) {
      NextPart(sys, r, k);
      UsedNow(sys, r, k);
      StandsOwned(sys, r, next.parts[k], k, next.used);
    }
    forall k, l | 0 <= k < l < |next.parts| ensures Compatible(next.parts[k], next.parts[l]) {
      NextPart(sys, r, k);
      NextPart(sys, r, l);
      Pair(sys, r, next.parts[k], k, next.parts[l], l);
    }
  }

  lemma Pair(sys: System, r: Round, a: Part, k: nat, b: Part, l: nat)
    requires Inv(sys) && Enabled(sys, r) && k < l && Stands(sys, r, a, k) && Stands(sys, r, b, l)
    ensures Compatible(a, b)
  {
    hide Inv, Enabled, Outcome, Left, Compatible;
    if l < |sys.parts| {
      OldPair(sys, r, k, l);
    } else if k < |sys.parts| {
      OldAndChild(sys, r, k, l - |sys.parts|);
    } else {
      ChildPair(sys, r, k - |sys.parts|, l - |sys.parts|);
    }
  }

  /** Two places of parts that were there before. */
  lemma OldPair(sys: System, r: Round, k: nat, l: nat)
    requires Inv(sys) && k < l < |sys.parts|
    ensures Compatible(Left(sys.parts, r.entering)[k], Left(sys.parts, r.entering)[l])
  {
    hide *;
    if k in r.entering {
      EmptyPlace(Left(sys.parts, r.entering)[l]);
    } else if l in r.entering {
      EmptyPlace(Left(sys.parts, r.entering)[k]);
    } else {
      NotRivals(sys, k, l);
    }
  }

  /** Such a place and a child. */
  lemma OldAndChild(sys: System, r: Round, k: nat, i: nat)
    requires Inv(sys) && Enabled(sys, r) && k < |sys.parts| && i < |r.children|
    ensures Compatible(Left(sys.parts, r.entering)[k], Part(r.children[i].procs, Outcome(sys.parts, r, r.children[i])))
  {
    var c := Part(r.children[i].procs, Outcome(sys.parts, r, r.children[i]));
    hide *;
    if k in r.entering {
      EmptyPlace(c);
    } else {
      ChildAndOther(sys, r, i, k);
    }
  }

  lemma EmptyPlace(p: Part)
    ensures Compatible(Part({}, Absent), p) && Compatible(p, Part({}, Absent))
  {}

  lemma {:induction false} RunInv(sys: System, rounds: seq<Round>)
    requires Inv(sys) && ValidRun(sys, rounds)
    ensures Inv(Run(sys, rounds))
    decreases |rounds|
  {
    hide Inv, Next, Enabled;
    if rounds != [] {
      NextInv(sys, rounds[0]);
      RunInv(Next(sys, rounds[0]), rounds[1..]);
    }
  }

  /** In every history: two synced sets never both know a group as unchanged under ids of the same membership. So when
      sets meet, either somebody calls the group changed, or the membership ids differ, or one list has it. */
  lemma NoTwoUnchanged(start: System, rounds: seq<Round>, k: nat, l: nat)
    requires Start(start) && ValidRun(start, rounds) && k < l < |Run(start, rounds).parts|
    ensures var a, b := Run(start, rounds).parts[k], Run(start, rounds).parts[l];
            a.procs !! b.procs && !Rivals(a.status, b.status)
  {
    assert Inv(start);
    RunInv(start, rounds);
    assert Compatible(Run(start, rounds).parts[k], Run(start, rounds).parts[l]);
  }

  // ---- What a group id tells ----

  /** One operation on the id: every change of the members raises the index, a new group starts with index 1, and what
      changes no member changes nothing. A group becomes changed only by a partitioned daemon's client. */
  lemma OpOnId(st: Status, op: Op, v: View)
    requires Nonempty(st)
    ensures var n := Apply(st, op, v);
            && MembersOf(n) == (if op.Join? then MembersOf(st) + {op.who} else MembersOf(st) - {op.who})
            && Nonempty(n)
            && (st.Present? && n.Present? ==>
                  if n.members == st.members then n == st
                  else n.id.memb == st.id.memb && n.id.index == st.id.index + 1
                       && (n.changed <==> st.changed || (op.Join? && Partitioned(v, op.who.proc))))
            && (st.Absent? && n.Present? ==> n == Present(GroupId(v.memb, 1), Partitioned(v, op.who.proc), {op.who}))
  {
    ApplyMembers(st, op, v);
    ApplyNonempty(st, op, v);
  }

  /** The group is known all the while from operation p to operation q. */
  ghost predicate KnownBetween(st: Status, ops: seq<Op>, from: nat, p: nat, q: nat, heard: set<int>, v: View)
    requires q <= |ops|
  {
    forall r: nat :: p <= r <= q ==> Deliver(st, ops, from, r, heard, v).Present?
  }

  /** While a group is not emptied, its id names its members: the id is the same again only if nothing has changed since,
      across joins and leaves. */
  lemma {:induction false} IdNamesMembers(st: Status, ops: seq<Op>, from: nat, p: nat, q: nat, heard: set<int>, v: View)
    requires Nonempty(st) && from <= p <= q <= |ops| && KnownBetween(st, ops, from, p, q, heard, v)
    ensures var a, b := Deliver(st, ops, from, p, heard, v), Deliver(st, ops, from, q, heard, v);
            && a.Present? && b.Present? && a.id.memb == b.id.memb && a.id.index <= b.id.index
            && (a.id == b.id <==> a == b)
    ensures Deliver(st, ops, from, p, heard, v).id == Deliver(st, ops, from, q, heard, v).id ==>
              forall r: nat :: p <= r <= q ==> Deliver(st, ops, from, r, heard, v) == Deliver(st, ops, from, p, heard, v)
    decreases q
  {
    if p < q {
      IdNamesMembers(st, ops, from, p, q - 1, heard, v);
      var before := Deliver(st, ops, from, q - 1, heard, v);
      DeliverNonempty(st, ops, from, q - 1, heard, v);
      if q - 1 in heard {
        OpOnId(before, ops[q - 1], v);
      }
    }
  }

  /** Not if it is emptied: the index is forgotten with the group, so that a group that empties and is set up again within
      a membership has the ids that it had after it was set up the first time, with other members. */
  lemma IdsRepeat(v: View, a: Who, b: Who)
    requires a != b
    ensures var ops, all := [Join(a), Leave(a), Join(b)], {0, 1, 2};
            && Deliver(Absent, ops, 0, 1, all, v) == Present(GroupId(v.memb, 1), Partitioned(v, a.proc), {a})
            && Deliver(Absent, ops, 0, 3, all, v) == Present(GroupId(v.memb, 1), Partitioned(v, b.proc), {b})
  {
    var ops, all := [Join(a), Leave(a), Join(b)], {0, 1, 2};
    assert Deliver(Absent, ops, 0, 1, all, v) == Apply(Absent, Join(a), v);
    assert Deliver(Absent, ops, 0, 2, all, v) == Absent;
  }

  /** If two states of a stretch have one id and different members, the group was emptied in between. */
  lemma RepeatedIfEmptied(st: Status, ops: seq<Op>, from: nat, p: nat, q: nat, heard: set<int>, v: View) returns (r: nat)
    requires Nonempty(st) && from <= p <= q <= |ops|
    requires var a, b := Deliver(st, ops, from, p, heard, v), Deliver(st, ops, from, q, heard, v);
             a.Present? && b.Present? && a.id == b.id && a.members != b.members
    ensures p < r < q && Deliver(st, ops, from, r, heard, v).Absent?
  {
    if KnownBetween(st, ops, from, p, q, heard, v) {
      IdNamesMembers(st, ops, from, p, q, heard, v);
      assert false;
    } else {
      r :| p <= r <= q && !Deliver(st, ops, from, r, heard, v).Present?;
    }
  }

  // ---- Who is a member ----

  /** The last of the operations that is a client's own: whether it joined; `None` without any. */
  function Latest(ops: seq<Op>, w: Who): Option<bool> {
    if ops == [] then None
    else if ops[|ops| - 1].who == w then Some(ops[|ops| - 1].Join?)
    else Latest(ops[..|ops| - 1], w)
  }

  predicate After(ops: seq<Op>, was: bool, w: Who) {
    match Latest(ops, w)
    case None => was
    case Some(joined) => joined
  }

  lemma {:induction false} AfterConcat(a: seq<Op>, b: seq<Op>, was: bool, w: Who)
    ensures After(a + b, was, w) == After(b, After(a, was, w), w)
  {
    if b == [] {
      assert a + b == a;
    } else {
      assert (a + b)[..|a + b| - 1] == a + b[..|b| - 1];
      AfterConcat(a, b[..|b| - 1], was, w);
    }
  }

  /** Whoever delivers all of a client's operations knows whether it is a member. */
  lemma {:induction false} DeliverMember(st: Status, ops: seq<Op>, from: nat, upTo: nat, heard: set<int>, v: View, w: Who)
    requires Nonempty(st) && from <= upTo <= |ops| && forall p :: from <= p < upTo && ops[p].who == w ==> p in heard
    ensures w in MembersOf(Deliver(st, ops, from, upTo, heard, v)) <==> After(ops[from..upTo], w in MembersOf(st), w)
    decreases upTo
  {
    if from < upTo {
      DeliverMember(st, ops, from, upTo - 1, heard, v, w);
      DeliverNonempty(st, ops, from, upTo - 1, heard, v);
      ApplyMembers(Deliver(st, ops, from, upTo - 1, heard, v), ops[upTo - 1], v);
      assert ops[from..upTo][..upTo - 1 - from] == ops[from..upTo - 1];
    }
  }

  lemma {:induction false} ReadMember(lists: seq<Status>, w: Who)
    ensures w in MembersOf(ReadAll(lists)) <==> exists k :: 0 <= k < |lists| && w in MembersOf(lists[k])
  {
    if lists != [] {
      var init := lists[..|lists| - 1];
      ReadMember(init, w);
      if w in MembersOf(ReadAll(init)) {
        var k :| 0 <= k < |init| && w in MembersOf(init[k]);
        assert w in MembersOf(lists[k]);
      }
      if w in MembersOf(lists[|lists| - 1]) {
        assert w in MembersOf(ReadAll(lists));
      }
    }
  }

  /** Who is a member when a part leaves a membership, whatever happened in it: the clients of its own daemons whose last
      operation was a join, or who sent none and were in one of the lists that were read. */
  lemma MembersAre(sys: System, r: Round, c: Child, w: Who)
    requires Inv(sys) && ChildOf(sys.parts, r, c)
    ensures w in MembersOf(Outcome(sys.parts, r, c)) <==>
              && w.proc in c.procs
              && After(r.ops, exists k :: 0 <= k < |c.covers| && w in MembersOf(sys.parts[c.covers[k]].status), w)
  {
    ChildReads(sys, r, c);
    OutcomeIs(sys.parts, r, c);
    ReadByMember(sys.parts, c, w);
    Proper(sys, r, c, |r.ops|);
    hide ReadBy, Inv, Deliver, BeforeSignal, AfterSignal, Outcome, After;
    var read := ReadBy(sys.parts, c);
    if c.complete {
      AtRegularMember(AfterSignal(sys.parts, r, c, |r.ops|), c.procs, w);
      if w.proc in c.procs {
        CompleteMember(sys.parts, r, c, w);
      }
    } else {
      CascadedMember(read, c.procs, w);
      if w.proc in c.procs {
        NoneOfMine(r.ops, w);
        AfterNone(r.ops, w in MembersOf(read), w);
      }
    }
  }

  lemma AfterNone(ops: seq<Op>, was: bool, w: Who)
    requires Latest(ops, w) == None
    ensures After(ops, was, w) == was
  {}

  lemma AtRegularMember(st: Status, procs: set<int>, w: Who)
    requires Nonempty(st) && Established(st, procs)
    ensures w in MembersOf(AtRegular(st, procs)) <==> w in MembersOf(st) && w.proc in procs
  {}

  lemma CascadedMember(st: Status, procs: set<int>, w: Who)
    requires Nonempty(st)
    ensures w in MembersOf(Cascaded(st, procs)) <==> w in MembersOf(st) && w.proc in procs
  {}

  lemma ReadByMember(parts: seq<Part>, c: Child, w: Who)
    requires forall k :: 0 <= k < |c.covers| ==> c.covers[k] < |parts|
    ensures w in MembersOf(ReadBy(parts, c)) <==> exists k :: 0 <= k < |c.covers| && w in MembersOf(parts[c.covers[k]].status)
  {
    hide ReadAll, MembersOf;
    var lists := Lists(parts, c.covers);
    ReadMember(lists, w);
    assert forall k :: 0 <= k < |c.covers| ==> lists[k] == parts[c.covers[k]].status;
  }

  lemma {:induction false} NoneOfMine(ops: seq<Op>, w: Who)
    requires forall p :: 0 <= p < |ops| ==> ops[p].who.proc != w.proc
    ensures Latest(ops, w) == None
  {
    if ops != [] {
      NoneOfMine(ops[..|ops| - 1], w);
    }
  }

  lemma CompleteMember(parts: seq<Part>, r: Round, c: Child, w: Who)
    requires ChildOf(parts, r, c) && c.complete && w.proc in c.procs && Nonempty(ReadBy(parts, c))
    ensures w in MembersOf(AfterSignal(parts, r, c, |r.ops|)) <==> After(r.ops, w in MembersOf(ReadBy(parts, c)), w)
  {
    hide ReadBy;
    var st := Finished(ReadBy(parts, c), r.reg);
    var all := First(|r.ops|);
    DeliverMember(st, r.ops, 0, c.before, all, Regular(r.reg), w);
    DeliverNonempty(st, r.ops, 0, c.before, all, Regular(r.reg));
    var signal := AtSignal(BeforeSignal(parts, r, c, c.before), c.memb, c.procs);
    DeliverMember(signal, r.ops, c.before, |r.ops|, c.heard, Transitional(c.memb, c.procs), w);
    AfterConcat(r.ops[0..c.before], r.ops[c.before..|r.ops|], w in MembersOf(st), w);
    assert r.ops[0..c.before] + r.ops[c.before..|r.ops|] == r.ops;
  }

  /** A group whose members stay together and send nothing goes through a change of membership with its id. */
  lemma Undisturbed(parts: seq<Part>, r: Round, c: Child)
    requires ChildOf(parts, r, c) && Unchanged(ReadBy(parts, c)) && ReadBy(parts, c).members != {}
    requires InProcs(ReadBy(parts, c).members, c.procs) && r.ops == []
    ensures Outcome(parts, r, c) == ReadBy(parts, c)
  {
    OutcomeIs(parts, r, c);
    assert Within(ReadBy(parts, c).members, c.procs) == ReadBy(parts, c).members;
  }

  // ---- The index counts ----

  /** How many of the delivered operations change the members. */
  function Changes(st: Status, ops: seq<Op>, from: nat, upTo: nat, heard: set<int>, v: View): nat
    requires upTo <= |ops|
    decreases upTo
  {
    if upTo <= from then 0
    else Changes(st, ops, from, upTo - 1, heard, v)
         + if MembersOf(Deliver(st, ops, from, upTo, heard, v)) == MembersOf(Deliver(st, ops, from, upTo - 1, heard, v)) then 0 else 1
  }

  lemma {:induction false} IndexCounts(st: Status, ops: seq<Op>, from: nat, upTo: nat, heard: set<int>, v: View)
    requires Nonempty(st) && from <= upTo <= |ops| && KnownBetween(st, ops, from, from, upTo, heard, v)
    ensures st.Present? && Deliver(st, ops, from, upTo, heard, v).Present?
    ensures Deliver(st, ops, from, upTo, heard, v).id ==
            GroupId(st.id.memb, st.id.index + Changes(st, ops, from, upTo, heard, v))
    decreases upTo
  {
    if from < upTo {
      IndexCounts(st, ops, from, upTo - 1, heard, v);
      DeliverNonempty(st, ops, from, upTo - 1, heard, v);
      if upTo - 1 in heard {
        OpOnId(Deliver(st, ops, from, upTo - 1, heard, v), ops[upTo - 1], v);
      }
    } else {
      assert Deliver(st, ops, from, from, heard, v).Present?;
    }
  }

  /** A group that has changed numbers its memberships from 1 again in the regular membership that settles it. */
  lemma CountsInRegular(sys: System, r: Round, c: Child, upTo: nat)
    requires Inv(sys) && ChildOf(sys.parts, r, c) && upTo <= |r.ops|
    requires ReadBy(sys.parts, c).Present? && ReadBy(sys.parts, c).changed
    requires forall k: nat :: k <= upTo ==> BeforeSignal(sys.parts, r, c, k).Present?
    ensures BeforeSignal(sys.parts, r, c, upTo).id ==
            GroupId(r.reg, 1 + Changes(Finished(ReadBy(sys.parts, c), r.reg), r.ops, 0, upTo, First(|r.ops|), Regular(r.reg)))
  {
    ChildReads(sys, r, c);
    hide Inv, ChildOf, ReadBy, Deliver, Changes;
    var st := Finished(ReadBy(sys.parts, c), r.reg);
    forall k: nat | k <= upTo ensures Deliver(st, r.ops, 0, k, First(|r.ops|), Regular(r.reg)).Present? {
      assert BeforeSignal(sys.parts, r, c, k).Present?;
    }
    IndexCounts(st, r.ops, 0, upTo, First(|r.ops|), Regular(r.reg));
  }

  /** And one that loses members numbers them from 1 again in the transitional membership, as a changed group. */
  lemma CountsInTransitional(sys: System, r: Round, c: Child, upTo: nat, w: Who)
    requires Inv(sys) && ChildOf(sys.parts, r, c) && c.before <= upTo <= |r.ops|
    requires w in MembersOf(BeforeSignal(sys.parts, r, c, c.before)) && w.proc !in c.procs
    requires forall k: nat :: c.before <= k <= upTo ==> AfterSignal(sys.parts, r, c, k).Present?
    ensures var signal := AtSignal(BeforeSignal(sys.parts, r, c, c.before), c.memb, c.procs);
            && signal.Present? && signal.changed && MembersOf(signal) == MembersOf(BeforeSignal(sys.parts, r, c, c.before))
            && AfterSignal(sys.parts, r, c, upTo).id ==
               GroupId(c.memb, 1 + Changes(signal, r.ops, c.before, upTo, c.heard, Transitional(c.memb, c.procs)))
  {
    Proper(sys, r, c, c.before);
    hide Inv, ChildOf, Deliver, Changes, BeforeSignal;
    var signal := AtSignal(BeforeSignal(sys.parts, r, c, c.before), c.memb, c.procs);
    var v := Transitional(c.memb, c.procs);
    forall k: nat | c.before <= k <= upTo ensures Deliver(signal, r.ops, c.before, k, c.heard, v).Present? {
      assert AfterSignal(sys.parts, r, c, k).Present?;
    }
    IndexCounts(signal, r.ops, c.before, upTo, c.heard, v);
  }
}
