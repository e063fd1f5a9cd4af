/** Packing a daemon's knowledge of the groups into GROUPS buffers. */
module GroupBuffers {
  import opened SpreadTypes

  const BUF_SIZE := 100000
  const MAX_GROUP_NAME := 32
  const MESSAGE_HEADER := 48
  const PREAMBLE := 9
  const GROUP_INFO := 48
  const DAEMON_INFO := 14

  /** The largest number of members that the header file allows a daemon to have in one group. */
  const MAX_LOCAL_GROUP_MEMBERS := (BUF_SIZE - PREAMBLE - GROUP_INFO - DAEMON_INFO) / MAX_GROUP_NAME

  datatype MembId = MembId(proc: int, time: int)

  datatype GroupId = GroupId(memb: MembId, index: int)

  datatype Dmn = Dmn(proc: int, memb: MembId, members: seq<string>)

  /** A group in the list, with its daemons in configuration order. */
  datatype Group = Group(name: string, id: GroupId, changed: bool, daemons: seq<Dmn>)

  /** What one buffer says about a group. */
  datatype Entry = Entry(name: string, id: GroupId, changed: bool, daemons: seq<Dmn>)

  /** A daemon's record is sent with the membership id of the group. */
  function Sent(id: GroupId, daemons: seq<Dmn>): (r: seq<Dmn>)
    ensures |r| == |daemons|
  {
    seq(|daemons|, k requires 0 <= k < |daemons| => daemons[k].(memb := id.memb))
  }

  /** Where the next buffer goes on: in group g, at its daemon d. */
  datatype Cursor = Cursor(g: nat, d: nat)

  predicate Reached(a: Cursor, b: Cursor) { a.g > b.g || (a.g == b.g && a.d >= b.d) }

  function RecordSize(dmn: Dmn): nat { DAEMON_INFO + MAX_GROUP_NAME * |dmn.members| }

  /** The fit test asks for room for the message header as well. */
  predicate FitsIn(size: nat, bytes: nat) { size + MESSAGE_HEADER <= BUF_SIZE - bytes }

  /** The first daemon from d on that does not fit, and the bytes used then. */
  function AddDaemons(daemons: seq<Dmn>, d: nat, bytes: nat): (r: (nat, nat))
    requires d <= |daemons|
    ensures d <= r.0 <= |daemons| && bytes <= r.1
    decreases |daemons| - d
  {
    if d == |daemons| || !FitsIn(RecordSize(daemons[d]), bytes) then (d, bytes)
    else AddDaemons(daemons, d + 1, bytes + RecordSize(daemons[d]))
  }

  ghost predicate InList(groups: seq<Group>, c: Cursor) {
    c.g <= |groups| && if c.g == |groups| then c.d == 0 else c.d <= |groups[c.g].daemons|
  }

  /** One buffer from a cursor on, with `bytes` used already, and the cursor for the next one. */
  function Build(groups: seq<Group>, c: Cursor, bytes: nat): (r: (seq<Entry>, Cursor))
    requires InList(groups, c)
    ensures InList(groups, r.1) && Reached(r.1, c)
    decreases |groups| - c.g
  {
    if c.g == |groups| || !FitsIn(GROUP_INFO, bytes) then ([], c)
    else
      var grp := groups[c.g];
      var (d, used) := AddDaemons(grp.daemons, c.d, bytes + GROUP_INFO);
      var entry := Entry(grp.name, grp.id, grp.changed, Sent(grp.id, grp.daemons[c.d..d]));
      if d < |grp.daemons| then ([entry], Cursor(c.g, d))
      else
        var (more, last) := Build(groups, Cursor(c.g + 1, 0), used);
        ([entry] + more, last)
  }

  /** The first buffer also carries the synced set. */
  function FirstBytes(synced: nat): nat { PREAMBLE + 4 + 4 * synced }

  // ---- Termination ----

  /** Every daemon's record fits into a buffer that has nothing but its group's header. */
  ghost predicate AllFit(groups: seq<Group>) {
    forall g, d :: 0 <= g < |groups| && 0 <= d < |groups[g].daemons| ==> RecordFits(groups[g].daemons[d])
  }

  predicate RecordFits(dmn: Dmn) { FitsIn(RecordSize(dmn), PREAMBLE + GROUP_INFO) }

  /** The cursor after k buffers. */
  function After(groups: seq<Group>, synced: nat, k: nat): (c: Cursor)
    ensures InList(groups, c)
  {
    if k == 0 then Cursor(0, 0)
    else Build(groups, After(groups, synced, k - 1), if k == 1 then FirstBytes(synced) else PREAMBLE).1
  }

  /** A later buffer always gets further when everything fits. */
  lemma Progress(groups: seq<Group>, c: Cursor)
    requires InList(groups, c) && c.g < |groups| && AllFit(groups)
    ensures Build(groups, c, PREAMBLE).1 != c
  {
    var grp := groups[c.g];
    if c.d < |grp.daemons| {
      assert RecordFits(grp.daemons[c.d]);
    }
  }

  /** No buffer gets past a record that does not fit. */
  lemma {:induction false} Stuck(groups: seq<Group>, c: Cursor, bytes: nat, g: nat, d: nat)
    requires InList(groups, c) && bytes >= PREAMBLE
    requires g < |groups| && d < |groups[g].daemons| && !RecordFits(groups[g].daemons[d]) && Reached(Cursor(g, d), c)
    ensures Reached(Cursor(g, d), Build(groups, c, bytes).1)
    decreases |groups| - c.g
  {
    if FitsIn(GROUP_INFO, bytes) {
      var grp := groups[c.g];
      var (e, used) := AddDaemons(grp.daemons, c.d, bytes + GROUP_INFO);
      if c.g == g {
        NotPast(grp.daemons, c.d, bytes + GROUP_INFO, d);
      }
      if e == |grp.daemons| {
        Stuck(groups, Cursor(c.g + 1, 0), used, g, d);
      }
    }
  }

  lemma {:induction false} NotPast(daemons: seq<Dmn>, from: nat, bytes: nat, d: nat)
    requires from <= d < |daemons| && bytes >= PREAMBLE + GROUP_INFO && !RecordFits(daemons[d])
    ensures AddDaemons(daemons, from, bytes).0 <= d
    decreases |daemons| - from
  {
    if from < d && FitsIn(RecordSize(daemons[from]), bytes) {
      NotPast(daemons, from + 1, bytes + RecordSize(daemons[from]), d);
    }
  }

  lemma {:induction false} StuckForever(groups: seq<Group>, synced: nat, k: nat, g: nat, d: nat)
    requires g < |groups| && d < |groups[g].daemons| && !RecordFits(groups[g].daemons[d])
    ensures Reached(Cursor(g, d), After(groups, synced, k))
  {
    if k > 0 {
      StuckForever(groups, synced, k - 1, g, d);
      Stuck(groups, After(groups, synced, k - 1), if k == 1 then FirstBytes(synced) else PREAMBLE, g, d);
    }
  }

  /** What is left to send; it bounds the number of buffers. */
  function Left(groups: seq<Group>, g: nat): nat
    requires g <= |groups|
    decreases |groups| - g
  {
    if g == |groups| then 0 else 1 + |groups[g].daemons| + Left(groups, g + 1)
  }

  function LeftFrom(groups: seq<Group>, c: Cursor): nat
    requires InList(groups, c)
  {
    Left(groups, c.g) - c.d
  }

  lemma {:induction false} LeftShrinks(groups: seq<Group>, a: nat, b: nat)
    requires a < b <= |groups|
    ensures Left(groups, b) + 1 + |groups[a].daemons| <= Left(groups, a)
    decreases b - a
  {
    if a + 1 < b {
      LeftShrinks(groups, a + 1, b);
    }
  }

  lemma LeftLess(groups: seq<Group>, a: Cursor, b: Cursor)
    requires InList(groups, a) && InList(groups, b) && Reached(b, a)
    ensures LeftFrom(groups, b) <= LeftFrom(groups, a) && (a != b ==> LeftFrom(groups, b) < LeftFrom(groups, a))
  {
    if a.g < b.g {
      LeftShrinks(groups, a.g, b.g);
    }
  }

  lemma {:induction false} Terminates(groups: seq<Group>, synced: nat, k: nat) returns (n: nat)
    requires AllFit(groups) && k >= 1
    ensures After(groups, synced, n).g == |groups|
    decreases LeftFrom(groups, After(groups, synced, k))
  {
    var c := After(groups, synced, k);
    if c.g == |groups| {
      n := k;
    } else {
      Progress(groups, c);
      LeftLess(groups, c, After(groups, synced, k + 1));
      n := Terminates(groups, synced, k + 1);
    }
  }

  /** Building the buffers ends if and only if every daemon's record fits alone. */
  lemma TerminatesExactlyIfAllFit(groups: seq<Group>, synced: nat)
    ensures (exists k: nat :: k >= 1 && After(groups, synced, k).g == |groups|) <==> AllFit(groups)
  {
    if AllFit(groups) {
      var n := Terminates(groups, synced, 1);
      if n == 0 {
        assert After(groups, synced, 1).g == |groups|;
      }
    }
    forall k: nat, g, d | After(groups, synced, k).g == |groups| && 0 <= g < |groups| && 0 <= d < |groups[g].daemons|
      ensures RecordFits(groups[g].daemons[d])
    {
      if !RecordFits(groups[g].daemons[d]) {
        StuckForever(groups, synced, k, g, d);
      }
    }
  }

  /** The header file's limit is one too high: it leaves out the message header that the fit test adds.
      With that many members the daemon builds buffers forever. */
  lemma LimitIsOneTooHigh(groups: seq<Group>, synced: nat, g: nat, d: nat, k: nat)
    requires g < |groups| && d < |groups[g].daemons| && |groups[g].daemons[d].members| == MAX_LOCAL_GROUP_MEMBERS
    ensures After(groups, synced, k).g < |groups|
    ensures forall dmn: Dmn :: RecordFits(dmn) <==> |dmn.members| < MAX_LOCAL_GROUP_MEMBERS
  {
    StuckForever(groups, synced, k, g, d);
  }

  // ---- What the buffers say ----

  /** All buffers from a cursor on. */
  function Buffers(groups: seq<Group>, c: Cursor, bytes: nat): (bufs: seq<seq<Entry>>)
    requires InList(groups, c) && AllFit(groups)
    decreases LeftFrom(groups, c), if bytes == PREAMBLE then 0 else 1
  {
    var (entries, next) := Build(groups, c, bytes);
    if next.g == |groups| then [entries]
    else
      LeftLess(groups, c, next);
      assert bytes == PREAMBLE ==> next != c by {
        if bytes == PREAMBLE { Progress(groups, c); }
      }
      [entries] + Buffers(groups, next, PREAMBLE)
  }

  /** Different groups have different names, a group's daemons different ids, and no group is empty. */
  ghost predicate ListGood(groups: seq<Group>) {
    && (forall g, h :: 0 <= g < h < |groups| ==> groups[g].name != groups[h].name)
    && (forall g :: 0 <= g < |groups| ==> groups[g].daemons != [])
    && (forall g, d, e :: 0 <= g < |groups| && 0 <= d < e < |groups[g].daemons| ==>
          groups[g].daemons[d].proc != groups[g].daemons[e].proc)
  }

  /** The record of a daemon as it is sent. */
  function SentRecord(groups: seq<Group>, g: nat, d: nat): Dmn
    requires g < |groups| && d < |groups[g].daemons|
  {
    groups[g].daemons[d].(memb := groups[g].id.memb)
  }

  ghost predicate Says(e: Entry, groups: seq<Group>, g: nat, d: nat)
    requires g < |groups| && d < |groups[g].daemons|
  {
    e.name == groups[g].name && SentRecord(groups, g, d) in e.daemons
  }

  ghost predicate Holds(entries: seq<Entry>, groups: seq<Group>, g: nat, d: nat)
    requires g < |groups| && d < |groups[g].daemons|
  {
    exists k :: 0 <= k < |entries| && Says(entries[k], groups, g, d)
  }

  /** An entry says nothing that is not in the list. */
  ghost predicate True(e: Entry, groups: seq<Group>, g: nat) {
    && g < |groups| && e.name == groups[g].name && e.id == groups[g].id && e.changed == groups[g].changed
    && forall x :: x in e.daemons ==> exists d :: 0 <= d < |groups[g].daemons| && x == SentRecord(groups, g, d)
  }

  lemma OneEntry(groups: seq<Group>, g: nat, lo: nat, hi: nat)
    requires ListGood(groups) && g < |groups| && lo <= hi <= |groups[g].daemons|
    ensures var grp := groups[g];
            var e := Entry(grp.name, grp.id, grp.changed, Sent(grp.id, grp.daemons[lo..hi]));
            && True(e, groups, g)
            && (forall d :: 0 <= d < |grp.daemons| ==> (Says(e, groups, g, d) <==> lo <= d < hi))
            && (forall h, d :: 0 <= h < |groups| && h != g && 0 <= d < |groups[h].daemons| ==> !Says(e, groups, h, d))
  {
    var grp := groups[g];
    var sent := Sent(grp.id, grp.daemons[lo..hi]);
    forall x | x in sent ensures exists d :: 0 <= d < |grp.daemons| && x == SentRecord(groups, g, d) {
      var k :| 0 <= k < |sent| && sent[k] == x;
      assert x == SentRecord(groups, g, lo + k);
    }
    forall d | 0 <= d < |grp.daemons| ensures SentRecord(groups, g, d) in sent <==> lo <= d < hi {
      if lo <= d < hi {
        assert sent[d - lo] == SentRecord(groups, g, d);
      }
    }
  }

  ghost predicate IsTrue(e: Entry, groups: seq<Group>) {
    exists g :: True(e, groups, g)
  }

  lemma {:induction false} BuildTrue(groups: seq<Group>, c: Cursor, bytes: nat)
    requires ListGood(groups) && InList(groups, c)
    ensures forall e :: e in Build(groups, c, bytes).0 ==> IsTrue(e, groups)
    decreases |groups| - c.g
  {
    if c.g < |groups| && FitsIn(GROUP_INFO, bytes) {
      var (d, used) := AddDaemons(groups[c.g].daemons, c.d, bytes + GROUP_INFO);
      OneEntry(groups, c.g, c.d, d);
      if d == |groups[c.g].daemons| {
        BuildTrue(groups, Cursor(c.g + 1, 0), used);
      }
      hide True;
    }
  }

  /** A buffer holds exactly the records between its two cursors. */
  ghost predicate HoldsBetween(entries: seq<Entry>, groups: seq<Group>, c: Cursor, next: Cursor) {
    forall g, d :: 0 <= g < |groups| && 0 <= d < |groups[g].daemons| ==>
      (Holds(entries, groups, g, d) <==> Reached(Cursor(g, d), c) && !Reached(Cursor(g, d), next))
  }

  lemma {:induction false} BuildHolds(groups: seq<Group>, c: Cursor, bytes: nat)
    requires ListGood(groups) && InList(groups, c)
    ensures HoldsBetween(Build(groups, c, bytes).0, groups, c, Build(groups, c, bytes).1)
    decreases |groups| - c.g
  {
    var (entries, next) := Build(groups, c, bytes);
    if c.g < |groups| && FitsIn(GROUP_INFO, bytes) {
      var grp := groups[c.g];
      var (d, used) := AddDaemons(grp.daemons, c.d, bytes + GROUP_INFO);
      OneEntry(groups, c.g, c.d, d);
      var entry := Entry(grp.name, grp.id, grp.changed, Sent(grp.id, grp.daemons[c.d..d]));
      if d == |grp.daemons| {
        BuildHolds(groups, Cursor(c.g + 1, 0), used);
        var (more, last) := Build(groups, Cursor(c.g + 1, 0), used);
        assert (entries, next) == ([entry] + more, last);
        hide Build, ListGood, True, Says, Holds, AddDaemons, Sent;
        RestHolds(groups, c, entry, more, next);
      } else {
        assert (entries, next) == ([entry], Cursor(c.g, d));
        hide Build, ListGood, True, Says, AddDaemons, Sent;
        OneHolds(groups, c, entry, d);
      }
    }
  }

  lemma OneHolds(groups: seq<Group>, c: Cursor, e: Entry, hi: nat)
    requires InList(groups, c) && c.g < |groups|
    requires forall d :: 0 <= d < |groups[c.g].daemons| ==> (Says(e, groups, c.g, d) <==> c.d <= d < hi)
    requires forall h, d :: 0 <= h < |groups| && h != c.g && 0 <= d < |groups[h].daemons| ==> !Says(e, groups, h, d)
    ensures HoldsBetween([e], groups, c, Cursor(c.g, hi))
  {
    hide Says;
    forall g, d | 0 <= g < |groups| && 0 <= d < |groups[g].daemons|
      ensures Holds([e], groups, g, d) <==> Says(e, groups, g, d)
    {
      assert [e][0] == e;
    }
  }

  lemma RestHolds(groups: seq<Group>, c: Cursor, e: Entry, more: seq<Entry>, next: Cursor)
    requires InList(groups, c) && c.g < |groups|
    requires forall d :: 0 <= d < |groups[c.g].daemons| ==> (Says(e, groups, c.g, d) <==> c.d <= d < |groups[c.g].daemons|)
    requires forall h, d :: 0 <= h < |groups| && h != c.g && 0 <= d < |groups[h].daemons| ==> !Says(e, groups, h, d)
    requires InList(groups, next) && Reached(next, Cursor(c.g + 1, 0))
    requires HoldsBetween(more, groups, Cursor(c.g + 1, 0), next)
    ensures HoldsBetween([e] + more, groups, c, next)
  {
    hide Says;
    var entries := [e] + more;
    forall g, d | 0 <= g < |groups| && 0 <= d < |groups[g].daemons|
      ensures Holds(entries, groups, g, d) <==> Says(e, groups, g, d) || Holds(more, groups, g, d)
    {
      assert entries[0] == e && forall k :: 0 <= k < |more| ==> entries[k + 1] == more[k];
      if k :| 0 <= k < |entries| && Says(entries[k], groups, g, d) {
        assert k == 0 || entries[k] == more[k - 1];
      }
    }
  }

  ghost predicate HeldBy(bufs: seq<seq<Entry>>, groups: seq<Group>, g: nat, d: nat, k: nat)
    requires g < |groups| && d < |groups[g].daemons|
  {
    k < |bufs| && Holds(bufs[k], groups, g, d)
  }

  /** Buffer k is the one that holds the record, and no other does. */
  ghost predicate OnlyIn(bufs: seq<seq<Entry>>, groups: seq<Group>, g: nat, d: nat, k: nat)
    requires g < |groups| && d < |groups[g].daemons|
  {
    HeldBy(bufs, groups, g, d, k) && forall l :: 0 <= l < |bufs| && HeldBy(bufs, groups, g, d, l) ==> l == k
  }

  ghost predicate InNone(bufs: seq<seq<Entry>>, groups: seq<Group>, g: nat, d: nat)
    requires g < |groups| && d < |groups[g].daemons|
  {
    forall l :: 0 <= l < |bufs| ==> !HeldBy(bufs, groups, g, d, l)
  }

  lemma Unfold(groups: seq<Group>, c: Cursor, bytes: nat)
    requires InList(groups, c) && AllFit(groups)
    ensures var (entries, next) := Build(groups, c, bytes);
            && LeftFrom(groups, next) <= LeftFrom(groups, c)
            && (next.g == |groups| && c.g < |groups| ==> LeftFrom(groups, next) < LeftFrom(groups, c))
            && (next.g != |groups| && bytes == PREAMBLE ==> LeftFrom(groups, next) < LeftFrom(groups, c))
            && Buffers(groups, c, bytes) == if next.g == |groups| then [entries] else [entries] + Buffers(groups, next, PREAMBLE)
  {
    var (entries, next) := Build(groups, c, bytes);
    LeftLess(groups, c, next);
    if next.g != |groups| && bytes == PREAMBLE {
      Progress(groups, c);
    }
  }

  /** Every daemon's record of a group is in exactly one of the buffers: of those from a cursor on, if the
      record lies there, and in none if it does not. */
  lemma {:induction false} ExactlyOneBuffer(groups: seq<Group>, c: Cursor, bytes: nat, g: nat, d: nat) returns (k: nat)
    requires ListGood(groups) && InList(groups, c) && AllFit(groups)
    requires g < |groups| && d < |groups[g].daemons|
    ensures if Reached(Cursor(g, d), c) then OnlyIn(Buffers(groups, c, bytes), groups, g, d, k)
            else InNone(Buffers(groups, c, bytes), groups, g, d)
    decreases LeftFrom(groups, c), if bytes == PREAMBLE then 0 else 1
  {
    var (entries, next) := Build(groups, c, bytes);
    Unfold(groups, c, bytes);
    BuildHolds(groups, c, bytes);
    hide Build, ListGood, AllFit, Holds, LeftFrom, Buffers, OnlyIn, InNone;
    if next.g == |groups| {
      k := 0;
      FirstOrLater(groups, entries, [], g, d);
    } else {
      var l := ExactlyOneBuffer(groups, next, PREAMBLE, g, d);
      k := if Reached(Cursor(g, d), next) then l + 1 else 0;
      FirstOrLater(groups, entries, Buffers(groups, next, PREAMBLE), g, d);
    }
  }

  lemma FirstOrLater(groups: seq<Group>, entries: seq<Entry>, later: seq<seq<Entry>>, g: nat, d: nat)
    requires g < |groups| && d < |groups[g].daemons|
    ensures [entries] + [] == [entries]
    ensures InNone([], groups, g, d)
    ensures Holds(entries, groups, g, d) && InNone(later, groups, g, d) ==> OnlyIn([entries] + later, groups, g, d, 0)
    ensures !Holds(entries, groups, g, d) && InNone(later, groups, g, d) ==> InNone([entries] + later, groups, g, d)
    ensures forall l: nat :: !Holds(entries, groups, g, d) && OnlyIn(later, groups, g, d, l) ==>
              OnlyIn([entries] + later, groups, g, d, l + 1)
  {
    hide Holds;
    var all := [entries] + later;
    forall m | 0 <= m < |all| ensures HeldBy(all, groups, g, d, m) <==>
      if m == 0 then Holds(entries, groups, g, d) else HeldBy(later, groups, g, d, m - 1) {}
    forall l: nat | !Holds(entries, groups, g, d) && OnlyIn(later, groups, g, d, l)
      ensures OnlyIn(all, groups, g, d, l + 1)
    {
      assert all[l + 1] == later[l];
    }
  }

  lemma {:induction false} AllTrue(groups: seq<Group>, c: Cursor, bytes: nat)
    requires ListGood(groups) && InList(groups, c) && AllFit(groups)
    ensures forall k :: 0 <= k < |Buffers(groups, c, bytes)| ==> forall e :: e in Buffers(groups, c, bytes)[k] ==> IsTrue(e, groups)
    decreases LeftFrom(groups, c), if bytes == PREAMBLE then 0 else 1
  {
    var next := Build(groups, c, bytes).1;
    Unfold(groups, c, bytes);
    BuildTrue(groups, c, bytes);
    hide Build, Buffers, IsTrue, ListGood, AllFit, LeftFrom;
    if next.g != |groups| {
      AllTrue(groups, next, PREAMBLE);
    }
  }

  // ---- The buffers as they are built ----

  /** G_build_groups_buf: one buffer from the two iterators on. */
  method BuildBuf(groups: seq<Group>, c: Cursor, start: nat) returns (entries: seq<Entry>, next: Cursor)
    requires InList(groups, c)
    ensures (entries, next) == Build(groups, c, start)
  {
    hide Sent, FitsIn, Build, AddDaemons;
    entries := [];
    var g: nat, d: nat, bytes: nat := c.g, c.d, start;
    Joining(entries, Build(groups, c, start));
    while g < |groups|
      invariant InList(groups, Cursor(g, d))
      invariant Joined(entries, Build(groups, Cursor(g, d), bytes)) == Build(groups, c, start)
      decreases |groups| - g
    {
      BuildStep(groups, Cursor(g, d), bytes, entries);
      if !FitsIn(GROUP_INFO, bytes) {
        return entries, Cursor(g, d);
      }
      var grp := groups[g];
      bytes := bytes + GROUP_INFO;
      var first := d;
      d, bytes := FillDaemons(grp.daemons, d, bytes);
      entries := entries + [Entry(grp.name, grp.id, grp.changed, Sent(grp.id, grp.daemons[first..d]))];
      if d < |grp.daemons| {
        return entries, Cursor(g, d);
      }
      g, d := g + 1, 0;
    }
    BuildStep(groups, Cursor(g, d), bytes, entries);
    next := Cursor(g, d);
  }

  function Joined(entries: seq<Entry>, r: (seq<Entry>, Cursor)): (seq<Entry>, Cursor) {
    (entries + r.0, r.1)
  }

  lemma Joining(entries: seq<Entry>, r: (seq<Entry>, Cursor))
    ensures entries == [] ==> Joined(entries, r) == r
  {
    assert [] + r.0 == r.0;
  }

  lemma BuildStep(groups: seq<Group>, c: Cursor, bytes: nat, entries: seq<Entry>)
    requires InList(groups, c)
    ensures c.g == |groups| || !FitsIn(GROUP_INFO, bytes) ==> Joined(entries, Build(groups, c, bytes)) == (entries, c)
    ensures c.g < |groups| && FitsIn(GROUP_INFO, bytes) ==>
      (var grp := groups[c.g];
       var (d, used) := AddDaemons(grp.daemons, c.d, bytes + GROUP_INFO);
       var more := entries + [Entry(grp.name, grp.id, grp.changed, Sent(grp.id, grp.daemons[c.d..d]))];
       Joined(entries, Build(groups, c, bytes)) ==
         if d < |grp.daemons| then (more, Cursor(c.g, d)) else Joined(more, Build(groups, Cursor(c.g + 1, 0), used)))
  {
    assert entries + [] == entries;
    if c.g < |groups| && FitsIn(GROUP_INFO, bytes) {
      var grp := groups[c.g];
      var (d, used) := AddDaemons(grp.daemons, c.d, bytes + GROUP_INFO);
      var entry := Entry(grp.name, grp.id, grp.changed, Sent(grp.id, grp.daemons[c.d..d]));
      if d == |grp.daemons| {
        var (more, last) := Build(groups, Cursor(c.g + 1, 0), used);
        assert Build(groups, c, bytes) == ([entry] + more, last);
        hide Build, Sent, AddDaemons;
        assert entries + ([entry] + more) == entries + [entry] + more;
      }
    }
  }

  /** The inner loop: daemons as long as they fit. */
  method FillDaemons(daemons: seq<Dmn>, first: nat, start: nat) returns (d: nat, bytes: nat)
    requires first <= |daemons|
    ensures (d, bytes) == AddDaemons(daemons, first, start)
  {
    d, bytes := first, start;
    while d < |daemons|
      invariant d <= |daemons| && AddDaemons(daemons, d, bytes) == AddDaemons(daemons, first, start)
      decreases |daemons| - d
    {
      if !FitsIn(RecordSize(daemons[d]), bytes) {
        break;
      }
      bytes := bytes + RecordSize(daemons[d]);
      d := d + 1;
    }
  }

  function Reversed<T>(s: seq<T>): seq<T> {
    if s == [] then [] else Reversed(s[1..]) + [s[0]]
  }

  /** G_build_new_groups_bufs: each new buffer is put in front of the list, so the first one built, with the
      synced set in it, is sent last. */
  method BuildNewBufs(groups: seq<Group>, synced: nat) returns (bufs: seq<seq<Entry>>)
    requires AllFit(groups)
    ensures bufs == Reversed(Buffers(groups, Cursor(0, 0), FirstBytes(synced)))
  {
    hide Build, AllFit, LeftFrom, Buffers, Reversed;
    Unfold(groups, Cursor(0, 0), FirstBytes(synced));
    var entries, next := BuildBuf(groups, Cursor(0, 0), FirstBytes(synced));
    bufs := [entries];
    ghost var all := Buffers(groups, Cursor(0, 0), FirstBytes(synced));
    ghost var rest := if next.g == |groups| then [] else Buffers(groups, next, PREAMBLE);
    ReversedFront(entries, rest);
    while next.g != |groups|
      invariant InList(groups, next) && rest == if next.g == |groups| then [] else Buffers(groups, next, PREAMBLE)
      invariant Reversed(all) == Reversed(rest) + bufs
      decreases LeftFrom(groups, next)
    {
      Unfold(groups, next, PREAMBLE);
      entries, next := BuildBuf(groups, next, PREAMBLE);
      rest := if next.g == |groups| then [] else Buffers(groups, next, PREAMBLE);
      ReversedFront(entries, rest);
      bufs := [entries] + bufs;
    }
    ReversedFront(entries, []);
  }

  lemma ReversedFront<T>(x: T, s: seq<T>)
    ensures Reversed([x] + s) == Reversed(s) + [x]
    ensures [x] + [] == [x] && forall b: seq<T> :: [] + b == b && Reversed(s) + [x] + b == Reversed(s) + ([x] + b)
    ensures Reversed<T>([]) == []
  {
    assert ([x] + s)[1..] == s;
  }

  // ---- The bytes of a buffer ----

  const INT32 := 4
  const INT16 := 2
  const MEMBERSHIP_ID := 2 * INT32
  const GROUP_ID := MEMBERSHIP_ID + INT32

  /** What is written for a daemon: its id, the membership id, how many members follow, and their names. */
  function DaemonBytes(dmn: Dmn): nat { INT32 + MEMBERSHIP_ID + INT16 + MAX_GROUP_NAME * |dmn.members| }

  function DaemonsBytes(daemons: seq<Dmn>): nat {
    if daemons == [] then 0 else DaemonBytes(daemons[0]) + DaemonsBytes(daemons[1..])
  }

  /** And for a group: its name, its id, the changed flag and how many daemons follow. */
  function EntriesBytes(entries: seq<Entry>): nat {
    if entries == [] then 0
    else MAX_GROUP_NAME + GROUP_ID + 2 * INT16 + DaemonsBytes(entries[0].daemons) + EntriesBytes(entries[1..])
  }

  /** In front of the groups: the membership id, a flag, and in the first buffer the synced set with its size. */
  function FrontBytes(synced: nat, first: bool): nat {
    MEMBERSHIP_ID + 1 + if first then INT32 + synced * INT32 else 0
  }

  lemma {:induction false} AddedBytes(daemons: seq<Dmn>, d: nat, bytes: nat)
    requires d <= |daemons|
    ensures var (r, used) := AddDaemons(daemons, d, bytes);
            && used == bytes + DaemonsBytes(daemons[d..r])
            && (bytes + MESSAGE_HEADER <= BUF_SIZE ==> used + MESSAGE_HEADER <= BUF_SIZE)
    decreases |daemons| - d
  {
    if d < |daemons| && FitsIn(RecordSize(daemons[d]), bytes) {
      AddedBytes(daemons, d + 1, bytes + RecordSize(daemons[d]));
      var r := AddDaemons(daemons, d, bytes).0;
      assert daemons[d..r][0] == daemons[d] && daemons[d..r][1..] == daemons[d + 1..r];
    }
  }

  lemma {:induction false} SentBytes(id: GroupId, daemons: seq<Dmn>)
    ensures DaemonsBytes(Sent(id, daemons)) == DaemonsBytes(daemons)
  {
    if daemons != [] {
      SentBytes(id, daemons[1..]);
      assert Sent(id, daemons)[1..] == Sent(id, daemons[1..]);
    }
  }

  lemma {:induction false} BuiltBytes(groups: seq<Group>, c: Cursor, bytes: nat)
    requires InList(groups, c) && bytes + MESSAGE_HEADER <= BUF_SIZE
    ensures bytes + EntriesBytes(Build(groups, c, bytes).0) + MESSAGE_HEADER <= BUF_SIZE
    decreases |groups| - c.g
  {
    if c.g < |groups| && FitsIn(GROUP_INFO, bytes) {
      var grp := groups[c.g];
      AddedBytes(grp.daemons, c.d, bytes + GROUP_INFO);
      var (d, used) := AddDaemons(grp.daemons, c.d, bytes + GROUP_INFO);
      var entry := Entry(grp.name, grp.id, grp.changed, Sent(grp.id, grp.daemons[c.d..d]));
      SentBytes(grp.id, grp.daemons[c.d..d]);
      hide AddDaemons, Sent, DaemonsBytes;
      if d == |grp.daemons| {
        BuiltBytes(groups, Cursor(c.g + 1, 0), used);
        assert Build(groups, c, bytes).0 == [entry] + Build(groups, Cursor(c.g + 1, 0), used).0;
      } else {
        assert Build(groups, c, bytes).0 == [entry];
      }
      assert Build(groups, c, bytes).0[1..] == if d == |grp.daemons| then Build(groups, Cursor(c.g + 1, 0), used).0 else [];
    }
  }

  /** Every buffer has room for what is written into it and for the message header. */
  lemma {:induction false} LaterBuffersFit(groups: seq<Group>, c: Cursor, k: nat)
    requires InList(groups, c) && AllFit(groups) && k < |Buffers(groups, c, PREAMBLE)|
    ensures FrontBytes(0, false) + EntriesBytes(Buffers(groups, c, PREAMBLE)[k]) + MESSAGE_HEADER <= BUF_SIZE
    decreases k
  {
    hide Build, EntriesBytes;
    BuiltBytes(groups, c, PREAMBLE);
    Unfold(groups, c, PREAMBLE);
    if k > 0 {
      LaterBuffersFit(groups, Build(groups, c, PREAMBLE).1, k - 1);
    }
  }

  lemma BuffersFit(groups: seq<Group>, synced: nat, k: nat)
    requires AllFit(groups) && synced <= MAX_PROCS_RING && k < |Buffers(groups, Cursor(0, 0), FirstBytes(synced))|
    ensures FrontBytes(synced, k == 0) + EntriesBytes(Buffers(groups, Cursor(0, 0), FirstBytes(synced))[k]) + MESSAGE_HEADER <= BUF_SIZE
  {
    hide Build, EntriesBytes;
    BuiltBytes(groups, Cursor(0, 0), FirstBytes(synced));
    Unfold(groups, Cursor(0, 0), FirstBytes(synced));
    if k > 0 {
      LaterBuffersFit(groups, Build(groups, Cursor(0, 0), FirstBytes(synced)).1, k - 1);
    }
  }
}
