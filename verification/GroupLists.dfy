/** Reading GROUPS buffers back into the list of groups, and the agreement of all daemons once every
daemon has read every other synced set's buffers. */
module GroupLists {
  import opened SpreadTypes
  import opened GroupBuffers
  import GroupIds

  datatype Record = Record(memb: MembId, members: seq<string>)

  /** A group as the receiver keeps it; the sorted lists of the daemon are maps here. */
  datatype Known = Known(id: GroupId, changed: bool, daemons: map<int, Record>)

  type List = map<string, Known>

  // ---- G_mess_to_groups ----

  function AddDaemon(k: Known, d: Dmn): Known {
    k.(daemons := k.daemons[d.proc := Record(d.memb, d.members)], changed := k.changed || d.memb != k.id.memb)
  }

  function AddAll(k: Known, ds: seq<Dmn>): Known {
    if ds == [] then k else AddDaemon(AddAll(k, ds[..|ds| - 1]), ds[|ds| - 1])
  }

  /** A group that is not known yet gets the id of the first entry that mentions it. */
  function AddEntry(list: List, e: Entry): List {
    var k := if e.name in list then list[e.name] else Known(e.id, false, map[]);
    list[e.name := AddAll(k.(changed := k.changed || e.changed), e.daemons)]
  }

  function Parse(list: List, entries: seq<Entry>): List {
    if entries == [] then list else AddEntry(Parse(list, entries[..|entries| - 1]), entries[|entries| - 1])
  }

  // ---- What parsing amounts to, whatever the order ----

  ghost predicate Mentions(entries: seq<Entry>, name: string) {
    exists e :: e in entries && e.name == name
  }

  /** Some entry gives daemon p of the group this record. */
  ghost predicate Gives(entries: seq<Entry>, name: string, p: int, r: Record) {
    exists e, d :: e in entries && d in e.daemons && e.name == name && d.proc == p && r == Record(d.memb, d.members)
  }

  /** Every record carries its entry's membership id, and no daemon of a group has two records. */
  ghost predicate Consistent(entries: seq<Entry>) {
    && (forall e, d :: e in entries && d in e.daemons ==> d.memb == e.id.memb)
    && (forall e, f, x, y :: e in entries && f in entries && x in e.daemons && y in f.daemons && e.name == f.name && x.proc == y.proc ==>
          x == y)
  }

  /** Whether some entry calls the group changed, or one with a record disagrees with an id. */
  ghost predicate Differs(entries: seq<Entry>, name: string, id: GroupId) {
    exists e :: e in entries && e.name == name && (e.changed || (e.daemons != [] && e.id.memb != id.memb))
  }

  ghost predicate IdFrom(entries: seq<Entry>, name: string, id: GroupId) {
    exists e :: e in entries && e.name == name && e.id == id
  }

  ghost predicate DaemonsAre(entries: seq<Entry>, name: string, daemons: map<int, Record>) {
    && (forall p :: p in daemons ==> Gives(entries, name, p, daemons[p]))
    && (forall p, r :: Gives(entries, name, p, r) ==> p in daemons)
  }

  ghost predicate KnownIs(entries: seq<Entry>, name: string, k: Known) {
    && IdFrom(entries, name, k.id) && (k.changed <==> Differs(entries, name, k.id)) && DaemonsAre(entries, name, k.daemons)
  }

  ghost predicate Describes(list: List, entries: seq<Entry>) {
    && (forall n :: n in list <==> Mentions(entries, n))
    && (forall n :: n in list ==> KnownIs(entries, n, list[n]))
  }

  lemma {:induction false} AddAllIs(k: Known, ds: seq<Dmn>)
    requires forall x, y :: x in ds && y in ds && x.proc == y.proc ==> x == y
    ensures var r := AddAll(k, ds);
            && r.id == k.id
            && (r.changed <==> k.changed || exists d :: d in ds && d.memb != k.id.memb)
            && (forall p :: p in r.daemons <==> p in k.daemons || exists d :: d in ds && d.proc == p)
            && (forall p :: p in r.daemons && !(exists d :: d in ds && d.proc == p) ==> r.daemons[p] == k.daemons[p])
            && (forall d :: d in ds ==> r.daemons[d.proc] == Record(d.memb, d.members))
  {
    if ds != [] {
      var init, last := ds[..|ds| - 1], ds[|ds| - 1];
      assert ds == init + [last];
      assert forall d :: d in ds <==> d in init || d == last;
      AddAllIs(k, init);
    }
  }

  lemma LastEntry(entries: seq<Entry>, e: Entry)
    ensures forall x :: x in entries + [e] <==> x in entries || x == e
  {}

  /** One more entry of a group. */
  lemma AddEntryIs(entries: seq<Entry>, e: Entry, known: bool, k: Known)
    requires Consistent(entries + [e])
    requires if known then KnownIs(entries, e.name, k) else !Mentions(entries, e.name) && k == Known(e.id, false, map[])
    ensures KnownIs(entries + [e], e.name, AddAll(k.(changed := k.changed || e.changed), e.daemons))
  {
    LastEntry(entries, e);
    var all := entries + [e];
    assert e in all;
    AddAllIs(k.(changed := k.changed || e.changed), e.daemons);
    var r := AddAll(k.(changed := k.changed || e.changed), e.daemons);
    assert IdFrom(all, e.name, r.id) by {
      if known {
        var x :| x in entries && x.name == e.name && x.id == k.id;
        assert x in all;
      }
    }
    ChangedIs(entries, e, known, k, r);
    RecordsAre(entries, e, known, k, r);
  }

  lemma ChangedIs(entries: seq<Entry>, e: Entry, known: bool, k: Known, r: Known)
    requires Consistent(entries + [e]) && r.id == k.id
    requires if known then k.changed <==> Differs(entries, e.name, k.id) else !Mentions(entries, e.name) && !k.changed
    requires r.changed <==> k.changed || e.changed || exists d :: d in e.daemons && d.memb != k.id.memb
    ensures r.changed <==> Differs(entries + [e], e.name, k.id)
  {
    LastEntry(entries, e);
    assert e in entries + [e];
    assert (exists d :: d in e.daemons && d.memb != k.id.memb) <==> e.daemons != [] && e.id.memb != k.id.memb by {
      if e.daemons != [] {
        assert e.daemons[0] in e.daemons;
      }
    }
    if x :| x in entries && x.name == e.name && (x.changed || (x.daemons != [] && x.id.memb != k.id.memb)) {
      assert x in entries + [e] && Mentions(entries, e.name);
    }
  }

  lemma RecordsAre(entries: seq<Entry>, e: Entry, known: bool, k: Known, r: Known)
    requires if known then DaemonsAre(entries, e.name, k.daemons) else !Mentions(entries, e.name) && k.daemons == map[]
    requires forall p :: p in r.daemons <==> p in k.daemons || exists d :: d in e.daemons && d.proc == p
    requires forall p :: p in r.daemons && !(exists d :: d in e.daemons && d.proc == p) ==> r.daemons[p] == k.daemons[p]
    requires forall d :: d in e.daemons ==> r.daemons[d.proc] == Record(d.memb, d.members)
    ensures DaemonsAre(entries + [e], e.name, r.daemons)
  {
    LastEntry(entries, e);
    var all := entries + [e];
    assert e in all;
    forall p | p in r.daemons ensures Gives(all, e.name, p, r.daemons[p]) {
      if d :| d in e.daemons && d.proc == p {
        assert e in all && d in e.daemons && r.daemons[p] == Record(d.memb, d.members);
      } else {
        assert Gives(entries, e.name, p, k.daemons[p]);
        var x, d :| x in entries && d in x.daemons && x.name == e.name && d.proc == p && k.daemons[p] == Record(d.memb, d.members);
        assert x in all;
      }
    }
    forall p, s | Gives(all, e.name, p, s) ensures p in r.daemons {
      var x, d :| x in all && d in x.daemons && x.name == e.name && d.proc == p && s == Record(d.memb, d.members);
      if x != e {
        assert x in entries && Gives(entries, e.name, p, s) && Mentions(entries, e.name);
      }
    }
  }

  /** Another group's entry says nothing about this one. */
  lemma OtherName(entries: seq<Entry>, e: Entry, name: string, k: Known)
    requires name != e.name
    ensures Mentions(entries + [e], name) <==> Mentions(entries, name)
    ensures KnownIs(entries, name, k) ==> KnownIs(entries + [e], name, k)
  {
    LastEntry(entries, e);
    var all := entries + [e];
    assert forall x :: x in all && x.name == name <==> x in entries && x.name == name;
    if Mentions(all, name) {
      var x :| x in all && x.name == name;
      assert x in entries;
    }
    if KnownIs(entries, name, k) {
      assert IdFrom(all, name, k.id) && (Differs(all, name, k.id) <==> Differs(entries, name, k.id));
      forall p, r ensures Gives(all, name, p, r) <==> Gives(entries, name, p, r) {}
    }
  }

  lemma ConsistentPrefix(entries: seq<Entry>, e: Entry)
    requires Consistent(entries + [e])
    ensures Consistent(entries)
  {
    LastEntry(entries, e);
  }

  lemma {:induction false} ParseDescribes(entries: seq<Entry>)
    requires Consistent(entries)
    ensures Describes(Parse(map[], entries), entries)
  {
    if entries != [] {
      var init, e := entries[..|entries| - 1], entries[|entries| - 1];
      assert entries == init + [e];
      ConsistentPrefix(init, e);
      ParseDescribes(init);
      hide Parse, Consistent, Describes;
      DescribesNext(init, e, Parse(map[], init));
    }
  }

  lemma DescribesNext(entries: seq<Entry>, e: Entry, list: List)
    requires Consistent(entries + [e]) && Describes(list, entries)
    ensures Describes(AddEntry(list, e), entries + [e])
  {
    hide Consistent, KnownIs, AddAll, Mentions;
    var all, after := entries + [e], AddEntry(list, e);
    var k := if e.name in list then list[e.name] else Known(e.id, false, map[]);
    AddEntryIs(entries, e, e.name in list, k);
    Mentioned(entries, e);
    forall n | n in list && n != e.name ensures KnownIs(all, n, list[n]) {
      OtherName(entries, e, n, list[n]);
    }
    forall n | n != e.name ensures Mentions(all, n) <==> Mentions(entries, n) {
      OtherName(entries, e, n, k);
    }
  }

  lemma Mentioned(entries: seq<Entry>, e: Entry)
    ensures Mentions(entries + [e], e.name)
  {
    assert e in entries + [e];
  }

  // ---- Agreement ----

  /** The end of the exchange: changed groups get a new id in the installed membership. */
  function Finish(list: List, reg: MembId): List {
    map n | n in list :: FinishGroup(list[n], reg)
  }

  function FinishGroup(k: Known, reg: MembId): Known {
    if k.changed then Known(GroupId(reg, 1), false, map p | p in k.daemons :: k.daemons[p].(memb := reg)) else k
  }

  /** The groups whose members are told. */
  function ChangedGroups(list: List): set<string> {
    set n | n in list && list[n].changed
  }

  /** Entries of one group that call it unchanged and have the same membership id have the same id, and every synced
      set that knows a group has a daemon in it. */
  ghost predicate Agreeing(entries: seq<Entry>) {
    && (forall e, f :: e in entries && f in entries && e.name == f.name && e.id.memb == f.id.memb && !e.changed && !f.changed ==>
          e.id == f.id)
    && (forall e :: e in entries ==> HasDaemon(entries, e.name, e.id))
  }

  ghost predicate HasDaemon(entries: seq<Entry>, name: string, id: GroupId) {
    exists f :: f in entries && f.name == name && f.id == id && f.daemons != []
  }

  /** Whether a group is changed does not depend on which entry came first. */
  lemma ChangedSymmetric(entries: seq<Entry>, name: string, a: GroupId, b: GroupId)
    requires Agreeing(entries) && IdFrom(entries, name, a) && IdFrom(entries, name, b)
    ensures Differs(entries, name, a) <==> Differs(entries, name, b)
    ensures !Differs(entries, name, a) ==> a == b
  {
    var e :| e in entries && e.name == name && e.id == a;
    var f :| f in entries && f.name == name && f.id == b;
    assert HasDaemon(entries, e.name, e.id) && HasDaemon(entries, f.name, f.id);
    var x :| x in entries && x.name == name && x.id == a && x.daemons != [];
    var y :| y in entries && y.name == name && y.id == b && y.daemons != [];
    if a.memb != b.memb {
      assert Differs(entries, name, a) by { assert y in entries; }
      assert Differs(entries, name, b) by { assert x in entries; }
    }
  }

  lemma OneRecord(entries: seq<Entry>, name: string, p: int, r: Record, s: Record)
    requires Consistent(entries) && Gives(entries, name, p, r) && Gives(entries, name, p, s)
    ensures r == s
  {
    var e, x :| e in entries && x in e.daemons && e.name == name && x.proc == p && r == Record(x.memb, x.members);
    var f, y :| f in entries && y in f.daemons && f.name == name && y.proc == p && s == Record(y.memb, y.members);
    assert x == y;
  }

  lemma SameDaemons(entries: seq<Entry>, name: string, a: map<int, Record>, b: map<int, Record>)
    requires Consistent(entries) && DaemonsAre(entries, name, a) && DaemonsAre(entries, name, b)
    ensures a == b
  {
    hide Consistent, Gives;
    forall p | p in a ensures p in b && a[p] == b[p] {
      assert Gives(entries, name, p, a[p]);
      OneRecord(entries, name, p, a[p], b[p]);
    }
    forall p | p in b ensures p in a {
      assert Gives(entries, name, p, b[p]);
    }
  }

  /** The same entries in another order. */
  lemma SameEntries(a: seq<Entry>, b: seq<Entry>, list: List)
    requires (forall e :: e in a <==> e in b) && Describes(list, b)
    ensures Describes(list, a)
  {
    forall n ensures Mentions(a, n) <==> Mentions(b, n) {}
    forall n | n in list ensures KnownIs(a, n, list[n]) {
      assert KnownIs(b, n, list[n]);
      forall p, r ensures Gives(a, n, p, r) <==> Gives(b, n, p, r) {}
      assert Differs(a, n, list[n].id) <==> Differs(b, n, list[n].id);
    }
  }

  lemma SameFinish(entries: seq<Entry>, a: List, b: List, reg: MembId)
    requires Consistent(entries) && Agreeing(entries) && Describes(a, entries) && Describes(b, entries)
    ensures Finish(a, reg) == Finish(b, reg) && ChangedGroups(a) == ChangedGroups(b)
  {
    hide Consistent, Agreeing, Mentions;
    forall n | n in a ensures n in b && a[n].changed == b[n].changed && FinishGroup(a[n], reg) == FinishGroup(b[n], reg) {
      assert Mentions(entries, n) && KnownIs(entries, n, a[n]) && KnownIs(entries, n, b[n]);
      hide DaemonsAre, Differs, IdFrom;
      ChangedSymmetric(entries, n, a[n].id, b[n].id);
      SameDaemons(entries, n, a[n].daemons, b[n].daemons);
    }
    forall n ensures n in a <==> n in b {
      assert n in a <==> Mentions(entries, n);
    }
  }

  /** Whatever the order in which two daemons read the same entries, they end with the same list, agree on
      which groups changed, and every group has the id they agree on. */
  lemma SameListInAnyOrder(a: seq<Entry>, b: seq<Entry>, reg: MembId)
    requires (forall e :: e in a <==> e in b) && Consistent(a) && Agreeing(a)
    ensures Finish(Parse(map[], a), reg) == Finish(Parse(map[], b), reg)
    ensures ChangedGroups(Parse(map[], a)) == ChangedGroups(Parse(map[], b))
  {
    ParseDescribes(a);
    assert Consistent(b);
    ParseDescribes(b);
    hide Parse, Describes, Finish, ChangedGroups, Agreeing, Consistent;
    SameEntries(a, b, Parse(map[], b));
    SameFinish(a, Parse(map[], a), Parse(map[], b), reg);
  }

  lemma {:induction false} ParseConcat(list: List, a: seq<Entry>, b: seq<Entry>)
    ensures Parse(list, a + b) == Parse(Parse(list, a), b)
    decreases |b|
  {
    if b == [] {
      assert a + b == a;
    } else {
      assert (a + b)[..|a + b| - 1] == a + b[..|b| - 1];
      ParseConcat(list, a, b[..|b| - 1]);
    }
  }

  // ---- Round trip of the buffers ----

  function Concat(bufs: seq<seq<Entry>>): seq<Entry> {
    if bufs == [] then [] else Concat(bufs[..|bufs| - 1]) + bufs[|bufs| - 1]
  }

  lemma {:induction false} InConcat(bufs: seq<seq<Entry>>)
    ensures forall e :: e in Concat(bufs) <==> exists k :: 0 <= k < |bufs| && e in bufs[k]
  {
    if bufs != [] {
      var init, last := bufs[..|bufs| - 1], bufs[|bufs| - 1];
      InConcat(init);
      forall e ensures e in Concat(bufs) <==> exists k :: 0 <= k < |bufs| && e in bufs[k] {
        assert e in Concat(bufs) <==> e in Concat(init) || e in last;
        if e in Concat(init) {
          var k :| 0 <= k < |init| && e in init[k];
          assert e in bufs[k];
        }
        if k :| 0 <= k < |bufs| && e in bufs[k] {
          assert k < |init| ==> e in init[k];
        }
      }
    }
  }

  ghost predicate DistinctProcs(grp: Group) {
    forall d, e :: 0 <= d < e < |grp.daemons| ==> grp.daemons[d].proc != grp.daemons[e].proc
  }

  /** The groups of a sender as a list, with the membership ids that go out. */
  ghost function AsList(groups: seq<Group>): List
    requires ListGood(groups)
  {
    map g | 0 <= g < |groups| :: groups[g].name := Known(groups[g].id, groups[g].changed, AsDaemons(groups[g]))
  }

  ghost function AsDaemons(grp: Group): map<int, Record>
    requires DistinctProcs(grp)
  {
    map d | 0 <= d < |grp.daemons| :: grp.daemons[d].proc := Record(grp.id.memb, grp.daemons[d].members)
  }

  /** The entries say the truth about the groups, and say all of it. */
  ghost predicate Faithful(entries: seq<Entry>, groups: seq<Group>) {
    && (forall e :: e in entries ==> IsTrue(e, groups))
    && (forall g, d :: 0 <= g < |groups| && 0 <= d < |groups[g].daemons| ==> Said(entries, groups, g, d))
  }

  ghost predicate Said(entries: seq<Entry>, groups: seq<Group>, g: nat, d: nat)
    requires g < |groups| && d < |groups[g].daemons|
  {
    exists e :: e in entries && Says(e, groups, g, d)
  }

  lemma BuffersFaithful(groups: seq<Group>, synced: nat, order: seq<seq<Entry>>)
    requires ListGood(groups) && AllFit(groups)
    requires forall b :: b in order <==> b in Buffers(groups, Cursor(0, 0), FirstBytes(synced))
    ensures Faithful(Concat(order), groups)
  {
    var c, bytes := Cursor(0, 0), FirstBytes(synced);
    var bufs := Buffers(groups, c, bytes);
    AllTrue(groups, c, bytes);
    InConcat(order);
    hide Buffers, ListGood, AllFit, IsTrue;
    forall e | e in Concat(order) ensures IsTrue(e, groups) {
      var k :| 0 <= k < |order| && e in order[k];
      assert order[k] in bufs;
      var l :| 0 <= l < |bufs| && bufs[l] == order[k];
    }
    forall g, d | 0 <= g < |groups| && 0 <= d < |groups[g].daemons| ensures Said(Concat(order), groups, g, d) {
      var k := ExactlyOneBuffer(groups, c, bytes, g, d);
      assert HeldBy(bufs, groups, g, d, k) && bufs[k] in bufs && bufs[k] in order;
      var l :| 0 <= l < |bufs[k]| && Says(bufs[k][l], groups, g, d);
      var m :| 0 <= m < |order| && order[m] == bufs[k];
      assert bufs[k][l] in order[m];
    }
  }

  lemma GroupOf(e: Entry, groups: seq<Group>) returns (g: nat)
    requires IsTrue(e, groups)
    ensures g < |groups| && True(e, groups, g)
  {
    g :| True(e, groups, g);
  }

  /** What faithful entries say about a group is what the list says. */
  lemma FaithfulGroup(entries: seq<Entry>, groups: seq<Group>, g: nat, e: Entry)
    requires ListGood(groups) && Faithful(entries, groups) && g < |groups| && e in entries && e.name == groups[g].name
    ensures True(e, groups, g)
  {
    assert IsTrue(e, groups);
    var h := GroupOf(e, groups);
    assert h == g;
  }

  lemma FaithfulConsistent(entries: seq<Entry>, groups: seq<Group>)
    requires ListGood(groups) && Faithful(entries, groups)
    ensures Consistent(entries)
  {
    forall e, d | e in entries && d in e.daemons ensures d.memb == e.id.memb {
      assert IsTrue(e, groups);
      var g := GroupOf(e, groups);
    }
    forall e, f, x, y | e in entries && f in entries && x in e.daemons && y in f.daemons && e.name == f.name && x.proc == y.proc
      ensures x == y
    {
      assert IsTrue(e, groups);
      var g := GroupOf(e, groups);
      FaithfulGroup(entries, groups, g, f);
      var i :| 0 <= i < |groups[g].daemons| && x == SentRecord(groups, g, i);
      var j :| 0 <= j < |groups[g].daemons| && y == SentRecord(groups, g, j);
      assert i == j;
    }
  }

  lemma FaithfulDaemons(entries: seq<Entry>, groups: seq<Group>, g: nat)
    requires ListGood(groups) && Faithful(entries, groups) && g < |groups|
    ensures DistinctProcs(groups[g]) && DaemonsAre(entries, groups[g].name, AsDaemons(groups[g]))
  {
    var grp, ds := groups[g], AsDaemons(groups[g]);
    forall p | p in ds ensures Gives(entries, grp.name, p, ds[p]) {
      var d :| 0 <= d < |grp.daemons| && grp.daemons[d].proc == p;
      assert Said(entries, groups, g, d);
      var e :| e in entries && Says(e, groups, g, d);
      var x := SentRecord(groups, g, d);
      assert e in entries && x in e.daemons && x.proc == p && ds[p] == Record(x.memb, x.members);
    }
    hide Faithful, ListGood, Says, Said;
    forall p, r | Gives(entries, grp.name, p, r) ensures p in ds {
      OnlyTheseGiven(entries, groups, g, p, r);
    }
  }

  lemma OnlyTheseGiven(entries: seq<Entry>, groups: seq<Group>, g: nat, p: int, r: Record)
    requires ListGood(groups) && Faithful(entries, groups) && g < |groups| && Gives(entries, groups[g].name, p, r)
    ensures exists d :: 0 <= d < |groups[g].daemons| && groups[g].daemons[d].proc == p
  {
    var e, x :| e in entries && x in e.daemons && e.name == groups[g].name && x.proc == p && r == Record(x.memb, x.members);
    FaithfulGroup(entries, groups, g, e);
    var d :| 0 <= d < |groups[g].daemons| && x == SentRecord(groups, g, d);
    assert groups[g].daemons[d].proc == p;
  }

  lemma FaithfulKnown(entries: seq<Entry>, groups: seq<Group>, g: nat)
    requires ListGood(groups) && Faithful(entries, groups) && g < |groups|
    ensures DistinctProcs(groups[g])
    ensures Mentions(entries, groups[g].name)
    ensures KnownIs(entries, groups[g].name, Known(groups[g].id, groups[g].changed, AsDaemons(groups[g])))
  {
    FaithfulDaemons(entries, groups, g);
    assert Said(entries, groups, g, 0);
    var e :| e in entries && Says(e, groups, g, 0);
    FaithfulGroup(entries, groups, g, e);
    assert IdFrom(entries, groups[g].name, groups[g].id);
    forall f | f in entries && f.name == groups[g].name ensures f.id == groups[g].id && f.changed == groups[g].changed {
      FaithfulGroup(entries, groups, g, f);
    }
    hide DaemonsAre, Faithful, Says;
    assert Differs(entries, groups[g].name, groups[g].id) <==> groups[g].changed;
  }

  /** The round trip: whatever the order in which the buffers of one sender are read, they rebuild its
      groups, daemons and members. */
  lemma BuffersRebuild(groups: seq<Group>, synced: nat, order: seq<seq<Entry>>)
    requires ListGood(groups) && AllFit(groups)
    requires forall b :: b in order <==> b in Buffers(groups, Cursor(0, 0), FirstBytes(synced))
    ensures Parse(map[], Concat(order)) == AsList(groups)
  {
    BuffersFaithful(groups, synced, order);
    hide Buffers, AllFit;
    FaithfulRebuild(groups, Concat(order));
  }

  lemma FaithfulRebuild(groups: seq<Group>, entries: seq<Entry>)
    requires ListGood(groups) && Faithful(entries, groups)
    ensures Parse(map[], entries) == AsList(groups)
  {
    FaithfulConsistent(entries, groups);
    ParseDescribes(entries);
    hide Parse, Consistent, Faithful, Describes;
    SameKeys(groups, entries, Parse(map[], entries));
    forall g | 0 <= g < |groups|
      ensures groups[g].name in Parse(map[], entries)
      ensures Parse(map[], entries)[groups[g].name] == AsList(groups)[groups[g].name]
    {
      ListKnown(groups, entries, g, Parse(map[], entries));
    }
  }

  lemma SameKeys(groups: seq<Group>, entries: seq<Entry>, list: List)
    requires ListGood(groups) && Faithful(entries, groups) && Describes(list, entries)
    ensures forall n :: n in list ==> exists g :: 0 <= g < |groups| && groups[g].name == n
  {
    forall n | n in list ensures exists g :: 0 <= g < |groups| && groups[g].name == n {
      assert Mentions(entries, n);
      var e :| e in entries && e.name == n;
      assert IsTrue(e, groups);
      var g := GroupOf(e, groups);
    }
  }

  lemma ListKnown(groups: seq<Group>, entries: seq<Entry>, g: nat, list: List)
    requires ListGood(groups) && Faithful(entries, groups) && Consistent(entries) && Describes(list, entries) && g < |groups|
    ensures DistinctProcs(groups[g])
    ensures var n := groups[g].name;
            n in list && list[n] == Known(groups[g].id, groups[g].changed, AsDaemons(groups[g]))
  {
    FaithfulKnown(entries, groups, g);
    var n := groups[g].name;
    assert KnownIs(entries, n, list[n]);
    SameDaemons(entries, n, list[n].daemons, AsDaemons(groups[g]));
    var e :| e in entries && e.name == n && e.id == list[n].id;
    FaithfulGroup(entries, groups, g, e);
  }

  // ---- All daemons ----

  /** The synced sets' lists before the exchange: no daemon is in two of them, and no two of them know a group as
      unchanged by ids of the same membership; `HistoriesGive` derives that. */
  ghost predicate Lists(lists: seq<seq<Group>>) {
    && (forall s :: 0 <= s < |lists| ==> ListGood(lists[s]) && AllFit(lists[s]))
    && (forall s, t :: 0 <= s < t < |lists| ==> Apart(lists[s], lists[t]) && NoRivals(lists[s], lists[t]))
  }

  ghost predicate Apart(a: seq<Group>, b: seq<Group>) {
    forall g, h, x, y :: 0 <= g < |a| && 0 <= h < |b| && x in a[g].daemons && y in b[h].daemons ==> x.proc != y.proc
  }

  ghost predicate NoRivals(a: seq<Group>, b: seq<Group>) {
    forall g, h :: 0 <= g < |a| && 0 <= h < |b| && a[g].name == b[h].name ==>
      a[g].changed || b[h].changed || a[g].id.memb != b[h].id.memb
  }

  /** What a list says of a group is the state that the group's history has come to. */
  ghost predicate Tells(groups: seq<Group>, name: string, st: GroupIds.Status) {
    forall g :: 0 <= g < |groups| && groups[g].name == name ==>
      st.Present? && st.id == groups[g].id && st.changed == groups[g].changed
  }

  /** Both lists come from one history of the group, as lists of different synced sets. */
  ghost predicate OneHistory(a: seq<Group>, b: seq<Group>, name: string) {
    exists start, rounds, k: nat, l: nat ::
      FromHistory(start, rounds, k, l) &&
      Tells(a, name, GroupIds.Run(start, rounds).parts[k].status) && Tells(b, name, GroupIds.Run(start, rounds).parts[l].status)
  }

  ghost predicate FromHistory(start: GroupIds.System, rounds: seq<GroupIds.Round>, k: nat, l: nat) {
    && GroupIds.Start(start) && GroupIds.ValidRun(start, rounds) && k != l
    && k < |GroupIds.Run(start, rounds).parts| && l < |GroupIds.Run(start, rounds).parts|
  }

  /** Lists that come from histories have no rivals. */
  lemma HistoriesGive(a: seq<Group>, b: seq<Group>)
    requires forall name :: OneHistory(a, b, name)
    ensures NoRivals(a, b)
  {
    hide GroupIds.Start, GroupIds.ValidRun, GroupIds.Run;
    forall g, h | 0 <= g < |a| && 0 <= h < |b| && a[g].name == b[h].name
      ensures a[g].changed || b[h].changed || a[g].id.memb != b[h].id.memb
    {
      assert OneHistory(a, b, a[g].name);
      var start, rounds, k: nat, l: nat :| FromHistory(start, rounds, k, l) &&
        Tells(a, a[g].name, GroupIds.Run(start, rounds).parts[k].status) &&
        Tells(b, a[g].name, GroupIds.Run(start, rounds).parts[l].status);
      if k < l {
        GroupIds.NoTwoUnchanged(start, rounds, k, l);
      } else {
        GroupIds.NoTwoUnchanged(start, rounds, l, k);
      }
    }
  }

  /** Everything that is said: by the daemon's own list and by the buffers of every other synced set. */
  ghost predicate FromAll(entries: seq<Entry>, lists: seq<seq<Group>>) {
    && (forall e :: e in entries ==> exists s :: 0 <= s < |lists| && IsTrue(e, lists[s]))
    && (forall s, g, d :: 0 <= s < |lists| && 0 <= g < |lists[s]| && 0 <= d < |lists[s][g].daemons| ==> Said(entries, lists[s], g, d))
  }

  lemma SetOf(e: Entry, lists: seq<seq<Group>>) returns (s: nat, g: nat)
    requires exists s :: 0 <= s < |lists| && IsTrue(e, lists[s])
    ensures s < |lists| && True(e, lists[s], g)
  {
    s :| 0 <= s < |lists| && IsTrue(e, lists[s]);
    g :| True(e, lists[s], g);
  }

  lemma AllConsistent(entries: seq<Entry>, lists: seq<seq<Group>>)
    requires Lists(lists) && FromAll(entries, lists)
    ensures Consistent(entries)
  {
    forall e, d | e in entries && d in e.daemons ensures d.memb == e.id.memb {
      var s, g := SetOf(e, lists);
    }
    forall e, f, x, y | e in entries && f in entries && x in e.daemons && y in f.daemons && e.name == f.name && x.proc == y.proc
      ensures x == y
    {
      var s, g := SetOf(e, lists);
      var t, h := SetOf(f, lists);
      OneDaemon(lists, s, g, e, x, t, h, f, y);
    }
  }

  lemma DifferentProcs(lists: seq<seq<Group>>, s: nat, g: nat, x: Dmn, t: nat, h: nat, y: Dmn)
    requires Lists(lists) && s < |lists| && t < |lists| && s != t && g < |lists[s]| && h < |lists[t]|
    requires x in lists[s][g].daemons && y in lists[t][h].daemons
    ensures x.proc != y.proc
  {
    assert if s < t then Apart(lists[s], lists[t]) else Apart(lists[t], lists[s]);
  }

  lemma OneDaemon(lists: seq<seq<Group>>, s: nat, g: nat, e: Entry, x: Dmn, t: nat, h: nat, f: Entry, y: Dmn)
    requires Lists(lists) && s < |lists| && t < |lists| && True(e, lists[s], g) && True(f, lists[t], h)
    requires x in e.daemons && y in f.daemons && e.name == f.name && x.proc == y.proc
    ensures x == y
  {
    assert ListGood(lists[s]) && ListGood(lists[t]);
    var i :| 0 <= i < |lists[s][g].daemons| && x == SentRecord(lists[s], g, i);
    var j :| 0 <= j < |lists[t][h].daemons| && y == SentRecord(lists[t], h, j);
    var u, v := lists[s][g].daemons[i], lists[t][h].daemons[j];
    assert u in lists[s][g].daemons && v in lists[t][h].daemons && u.proc == v.proc;
    if s != t {
      DifferentProcs(lists, s, g, u, t, h, v);
    } else {
      assert g == h;
      assert i == j;
    }
  }

  lemma Different(lists: seq<seq<Group>>, s: nat, g: nat, t: nat, h: nat)
    requires Lists(lists) && s < |lists| && t < |lists| && s != t && g < |lists[s]| && h < |lists[t]|
    requires lists[s][g].name == lists[t][h].name
    ensures lists[s][g].changed || lists[t][h].changed || lists[s][g].id.memb != lists[t][h].id.memb
  {
    assert if s < t then NoRivals(lists[s], lists[t]) else NoRivals(lists[t], lists[s]);
  }

  lemma AllAgreeing(entries: seq<Entry>, lists: seq<seq<Group>>)
    requires Lists(lists) && FromAll(entries, lists)
    ensures Agreeing(entries)
  {
    forall e, f | e in entries && f in entries && e.name == f.name && e.id.memb == f.id.memb && !e.changed && !f.changed
      ensures e.id == f.id
    {
      var s, g := SetOf(e, lists);
      var t, h := SetOf(f, lists);
      assert ListGood(lists[s]);
      if s != t {
        Different(lists, s, g, t, h);
      }
    }
    forall e | e in entries ensures HasDaemon(entries, e.name, e.id) {
      var s, g := SetOf(e, lists);
      assert ListGood(lists[s]) && Said(entries, lists[s], g, 0);
      var f :| f in entries && Says(f, lists[s], g, 0);
      var t, h := SetOf(f, lists);
      SaidByOwn(lists, s, g, t, h, f);
    }
  }

  /** Whoever says a daemon's record says it with the group id of the daemon's own set. */
  lemma SaidByOwn(lists: seq<seq<Group>>, s: nat, g: nat, t: nat, h: nat, f: Entry)
    requires Lists(lists) && s < |lists| && t < |lists| && g < |lists[s]| && lists[s][g].daemons != []
    requires Says(f, lists[s], g, 0) && True(f, lists[t], h)
    ensures f.name == lists[s][g].name && f.id == lists[s][g].id && f.daemons != []
  {
    assert ListGood(lists[s]);
    var x := SentRecord(lists[s], g, 0);
    assert x in f.daemons;
    var j :| 0 <= j < |lists[t][h].daemons| && x == SentRecord(lists[t], h, j);
    var u, v := lists[s][g].daemons[0], lists[t][h].daemons[j];
    assert u in lists[s][g].daemons && v in lists[t][h].daemons && u.proc == v.proc;
    if s != t {
      DifferentProcs(lists, s, g, u, t, h, v);
    }
  }

  lemma EntriesConverge(lists: seq<seq<Group>>, s: nat, ownS: seq<Entry>, restS: seq<Entry>,
                        t: nat, ownT: seq<Entry>, restT: seq<Entry>,
                        reg: MembId)
    requires Lists(lists) && s < |lists| && t < |lists| && ListGood(lists[s]) && ListGood(lists[t])
    requires Faithful(ownS, lists[s]) && Faithful(ownT, lists[t])
    requires FromAll(ownS + restS, lists) && (forall e :: e in ownS + restS <==> e in ownT + restT)
    ensures var a, b := Parse(AsList(lists[s]), restS), Parse(AsList(lists[t]), restT);
            Finish(a, reg) == Finish(b, reg) && ChangedGroups(a) == ChangedGroups(b)
  {
    FaithfulRebuild(lists[s], ownS);
    FaithfulRebuild(lists[t], ownT);
    ParseConcat(map[], ownS, restS);
    ParseConcat(map[], ownT, restT);
    AllConsistent(ownS + restS, lists);
    AllAgreeing(ownS + restS, lists);
    hide Parse, Lists, FromAll, Faithful, ListGood, Consistent, Agreeing, AsList;
    SameListInAnyOrder(ownS + restS, ownT + restT, reg);
  }

  /** The buffers that the representative of a synced set sends. */
  function BuffersOf(groups: seq<Group>, synced: nat): seq<seq<Entry>>
    requires AllFit(groups)
  {
    Buffers(groups, Cursor(0, 0), FirstBytes(synced))
  }

  /** What a daemon of set s reads: the buffers of all other sets, in whatever order. */
  ghost predicate ReadsOthers(messages: seq<seq<Entry>>, lists: seq<seq<Group>>, sizes: seq<nat>, s: nat)
    requires Lists(lists) && |sizes| == |lists|
  {
    forall b :: b in messages <==> exists u :: 0 <= u < |lists| && u != s && b in BuffersOf(lists[u], sizes[u])
  }

  /** An entry of one of some set's buffers. */
  ghost predicate Sends(e: Entry, lists: seq<seq<Group>>, sizes: seq<nat>, u: nat)
    requires Lists(lists) && |sizes| == |lists| && u < |lists|
  {
    e in Concat(BuffersOf(lists[u], sizes[u]))
  }

  lemma OwnAndOthers(messages: seq<seq<Entry>>, lists: seq<seq<Group>>, sizes: seq<nat>, s: nat)
    requires Lists(lists) && |sizes| == |lists| && s < |lists| && ReadsOthers(messages, lists, sizes, s)
    ensures forall e :: e in Concat(BuffersOf(lists[s], sizes[s])) + Concat(messages) <==>
              exists u :: 0 <= u < |lists| && Sends(e, lists, sizes, u)
  {
    var own := Concat(BuffersOf(lists[s], sizes[s]));
    hide BuffersOf, Lists, Concat, ReadsOthers, Sends;
    forall e ensures e in own + Concat(messages) <==> exists u :: 0 <= u < |lists| && Sends(e, lists, sizes, u) {
      SendsIs(e, lists, sizes, s);
      if e in Concat(messages) {
        var u := FromOther(messages, lists, sizes, s, e);
      }
      if u :| 0 <= u < |lists| && Sends(e, lists, sizes, u) && u != s {
        ToMessages(messages, lists, sizes, s, e, u);
      }
    }
  }

  lemma SendsIs(e: Entry, lists: seq<seq<Group>>, sizes: seq<nat>, u: nat)
    requires Lists(lists) && |sizes| == |lists| && u < |lists|
    ensures Sends(e, lists, sizes, u) <==> e in Concat(BuffersOf(lists[u], sizes[u]))
    ensures Sends(e, lists, sizes, u) <==>
              exists k :: 0 <= k < |BuffersOf(lists[u], sizes[u])| && e in BuffersOf(lists[u], sizes[u])[k]
  {
    InConcat(BuffersOf(lists[u], sizes[u]));
  }

  lemma FromOther(messages: seq<seq<Entry>>, lists: seq<seq<Group>>, sizes: seq<nat>, s: nat, e: Entry) returns (u: nat)
    requires Lists(lists) && |sizes| == |lists| && s < |lists| && ReadsOthers(messages, lists, sizes, s)
    requires e in Concat(messages)
    ensures u < |lists| && Sends(e, lists, sizes, u)
  {
    InConcat(messages);
    hide BuffersOf, Concat, Sends, NoRivals, Apart, ListGood;
    var k :| 0 <= k < |messages| && e in messages[k];
    assert messages[k] in messages;
    u :| 0 <= u < |lists| && u != s && messages[k] in BuffersOf(lists[u], sizes[u]);
    var l :| 0 <= l < |BuffersOf(lists[u], sizes[u])| && BuffersOf(lists[u], sizes[u])[l] == messages[k];
    SendsIs(e, lists, sizes, u);
  }

  lemma ToMessages(messages: seq<seq<Entry>>, lists: seq<seq<Group>>, sizes: seq<nat>, s: nat, e: Entry, u: nat)
    requires Lists(lists) && |sizes| == |lists| && s < |lists| && ReadsOthers(messages, lists, sizes, s)
    requires u < |lists| && u != s && Sends(e, lists, sizes, u)
    ensures e in Concat(messages)
  {
    InConcat(messages);
    SendsIs(e, lists, sizes, u);
    hide BuffersOf, Concat, Sends, NoRivals, Apart, ListGood;
    var l :| 0 <= l < |BuffersOf(lists[u], sizes[u])| && e in BuffersOf(lists[u], sizes[u])[l];
    assert BuffersOf(lists[u], sizes[u])[l] in messages;
  }

  lemma EverythingSaid(entries: seq<Entry>, lists: seq<seq<Group>>, sizes: seq<nat>)
    requires Lists(lists) && |sizes| == |lists|
    requires forall e :: e in entries <==> exists u :: 0 <= u < |lists| && Sends(e, lists, sizes, u)
    ensures FromAll(entries, lists)
  {
    forall u | 0 <= u < |lists| ensures Faithful(Concat(BuffersOf(lists[u], sizes[u])), lists[u]) {
      assert ListGood(lists[u]) && AllFit(lists[u]);
      BuffersFaithful(lists[u], sizes[u], BuffersOf(lists[u], sizes[u]));
    }
    hide BuffersOf, Lists;
    forall s, g, d | 0 <= s < |lists| && 0 <= g < |lists[s]| && 0 <= d < |lists[s][g].daemons|
      ensures Said(entries, lists[s], g, d)
    {
      assert Said(Concat(BuffersOf(lists[s], sizes[s])), lists[s], g, d);
      var e :| e in Concat(BuffersOf(lists[s], sizes[s])) && Says(e, lists[s], g, d);
      assert Sends(e, lists, sizes, s);
    }
  }

  // A daemon's own list may carry other membership ids in the records of a changed group than those that go out.

  ghost predicate SameKnown(a: Known, b: Known) {
    && a.changed == b.changed && a.daemons.Keys == b.daemons.Keys
    && (forall p :: p in a.daemons ==> a.daemons[p].members == b.daemons[p].members)
    && (!a.changed ==> a == b)
  }

  ghost predicate SameButRecords(a: List, b: List) {
    a.Keys == b.Keys && forall n :: n in a ==> SameKnown(a[n], b[n])
  }

  lemma {:induction false} AddAllSame(a: Known, b: Known, ds: seq<Dmn>)
    requires SameKnown(a, b)
    ensures SameKnown(AddAll(a, ds), AddAll(b, ds))
  {
    if ds != [] {
      AddAllSame(a, b, ds[..|ds| - 1]);
    }
  }

  lemma {:induction false} ParseSame(a: List, b: List, entries: seq<Entry>)
    requires SameButRecords(a, b)
    ensures SameButRecords(Parse(a, entries), Parse(b, entries))
  {
    if entries != [] {
      var init, e := entries[..|entries| - 1], entries[|entries| - 1];
      ParseSame(a, b, init);
      var x, y := Parse(a, init), Parse(b, init);
      var k := if e.name in x then x[e.name] else Known(e.id, false, map[]);
      var l := if e.name in y then y[e.name] else Known(e.id, false, map[]);
      AddAllSame(k.(changed := k.changed || e.changed), l.(changed := l.changed || e.changed), e.daemons);
    }
  }

  lemma FinishGroupSame(k: Known, l: Known, reg: MembId)
    requires SameKnown(k, l)
    ensures FinishGroup(k, reg) == FinishGroup(l, reg)
  {
    if k.changed {
      var a, b := FinishGroup(k, reg).daemons, FinishGroup(l, reg).daemons;
      forall p | p in k.daemons ensures p in a && p in b && a[p] == b[p] {
        assert p in k.daemons.Keys && p in l.daemons;
      }
      assert a.Keys == k.daemons.Keys == l.daemons.Keys == b.Keys;
      assert a == b;
    }
  }

  lemma FinishSame(a: List, b: List, reg: MembId)
    requires SameButRecords(a, b)
    ensures Finish(a, reg) == Finish(b, reg) && ChangedGroups(a) == ChangedGroups(b)
  {
    forall n | n in a ensures FinishGroup(a[n], reg) == FinishGroup(b[n], reg) {
      FinishGroupSame(a[n], b[n], reg);
    }
  }

  /** Convergence: daemons of any two synced sets, each starting from its own list and reading the buffers of
      all others in whatever order they come, end with the same list of groups, agree on which groups
      changed, and give every changed group the id (new membership, 1). */
  lemma Convergence(lists: seq<seq<Group>>, sizes: seq<nat>, s: nat, listS: List, readS: seq<seq<Entry>>,
                    t: nat, listT: List, readT: seq<seq<Entry>>, reg: MembId)
    requires Lists(lists) && |sizes| == |lists| && s < |lists| && t < |lists|
    requires ReadsOthers(readS, lists, sizes, s) && ReadsOthers(readT, lists, sizes, t)
    requires ListGood(lists[s]) && SameButRecords(listS, AsList(lists[s]))
    requires ListGood(lists[t]) && SameButRecords(listT, AsList(lists[t]))
    ensures var a, b := Parse(listS, Concat(readS)), Parse(listT, Concat(readT));
            && Finish(a, reg) == Finish(b, reg) && ChangedGroups(a) == ChangedGroups(b)
            && (forall n :: n in ChangedGroups(a) ==> n in Finish(a, reg) && Finish(a, reg)[n].id == GroupId(reg, 1))
            && ChangedGroups(Finish(a, reg)) == {}
  {
    hide Lists, BuffersOf, Concat, ReadsOthers, ListGood, Parse, AsList, SameButRecords;
    ListsConverge(lists, sizes, s, readS, t, readT, reg);
    ParseSame(listS, AsList(lists[s]), Concat(readS));
    ParseSame(listT, AsList(lists[t]), Concat(readT));
    FinishSame(Parse(listS, Concat(readS)), Parse(AsList(lists[s]), Concat(readS)), reg);
    FinishSame(Parse(listT, Concat(readT)), Parse(AsList(lists[t]), Concat(readT)), reg);
  }

  lemma ListsConverge(lists: seq<seq<Group>>, sizes: seq<nat>, s: nat, readS: seq<seq<Entry>>,
                      t: nat, readT: seq<seq<Entry>>, reg: MembId)
    requires Lists(lists) && |sizes| == |lists| && s < |lists| && t < |lists|
    requires ReadsOthers(readS, lists, sizes, s) && ReadsOthers(readT, lists, sizes, t)
    ensures ListGood(lists[s]) && ListGood(lists[t])
    ensures var a, b := Parse(AsList(lists[s]), Concat(readS)), Parse(AsList(lists[t]), Concat(readT));
            Finish(a, reg) == Finish(b, reg) && ChangedGroups(a) == ChangedGroups(b)
  {
    var ownS, ownT := Concat(BuffersOf(lists[s], sizes[s])), Concat(BuffersOf(lists[t], sizes[t]));
    BuffersFaithful(lists[s], sizes[s], BuffersOf(lists[s], sizes[s]));
    BuffersFaithful(lists[t], sizes[t], BuffersOf(lists[t], sizes[t]));
    OwnAndOthers(readS, lists, sizes, s);
    OwnAndOthers(readT, lists, sizes, t);
    EverythingSaid(ownS + Concat(readS), lists, sizes);
    assert ListGood(lists[s]) && ListGood(lists[t]);
    hide Lists, BuffersOf, Concat, ReadsOthers, Faithful, FromAll, Sends, ListGood, Parse, AsList;
    EntriesConverge(lists, s, ownS, Concat(readS), t, ownT, Concat(readT), reg);
  }

  // ---- The list as a daemon keeps it ----

  class GroupsList {
    var groups: List

    constructor ()
      ensures groups == map[]
    {
      groups := map[];
    }

    /** G_mess_to_groups on the entries of one message. */
    method MessToGroups(entries: seq<Entry>)
      modifies this
      ensures groups == Parse(old(groups), entries)
    {
      for i := 0 to |entries|
        invariant groups == Parse(old(groups), entries[..i])
      {
        var e := entries[i];
        var k := if e.name in groups then groups[e.name] else Known(e.id, false, map[]);
        if e.changed {
          k := k.(changed := true);
        }
        ghost var start := k;
        for j := 0 to |e.daemons|
          invariant k == AddAll(start, e.daemons[..j])
        {
          var d := e.daemons[j];
          assert e.daemons[..j + 1][..j] == e.daemons[..j];
          k := k.(daemons := k.daemons[d.proc := Record(d.memb, d.members)]);
          if !k.changed && d.memb != k.id.memb {
            k := k.(changed := true);
          }
        }
        assert e.daemons[..|e.daemons|] == e.daemons;
        groups := groups[e.name := k];
        assert entries[..i + 1][..i] == entries[..i];
      }
      assert entries[..|entries|] == entries;
    }

    method ReadAll(messages: seq<seq<Entry>>)
      modifies this
      ensures groups == Parse(old(groups), Concat(messages))
    {
      ParseNothing(groups);
      hide Parse;
      for i := 0 to |messages|
        invariant groups == Parse(old(groups), Concat(messages[..i]))
      {
        MessToGroups(messages[i]);
        assert messages[..i + 1][..i] == messages[..i];
        ParseConcat(old(groups), Concat(messages[..i]), messages[i]);
      }
      assert messages[..|messages|] == messages;
    }

    /** Renews the changed groups one after the other. */
    method Renew(reg: MembId) returns (notified: set<string>)
      modifies this
      ensures groups == Finish(old(groups), reg) && notified == ChangedGroups(old(groups))
    {
      hide FinishGroup;
      notified := {};
      var names := groups.Keys;
      while names != {}
        invariant groups.Keys == old(groups).Keys && names <= groups.Keys
        invariant forall n :: n in groups ==> groups[n] == if n in names then old(groups)[n] else FinishGroup(old(groups)[n], reg)
        invariant notified == set n | n in groups && n !in names && old(groups)[n].changed
        decreases |names|
      {
        var n :| n in names;
        names := names - {n};
        var k := groups[n];
        Unchanged(k, reg);
        if k.changed {
          notified := notified + {n};
          groups := groups[n := FinishGroup(k, reg)];
        }
      }
    }

    /** G_compute_and_notify: reads all gathered messages, then renews the changed groups; `notified` are the
        groups whose local members are told. */
    method ComputeAndNotify(messages: seq<seq<Entry>>, reg: MembId) returns (notified: set<string>)
      modifies this
      ensures groups == Finish(Parse(old(groups), Concat(messages)), reg)
      ensures notified == ChangedGroups(Parse(old(groups), Concat(messages)))
    {
      hide Parse, Finish, ChangedGroups;
      ReadAll(messages);
      notified := Renew(reg);
    }
  }

  lemma ParseNothing(list: List)
    ensures Parse(list, []) == list
  {}

  lemma Unchanged(k: Known, reg: MembId)
    ensures !k.changed ==> FinishGroup(k, reg) == k
  {}
}
