/** Putting the members of a forming ring into configuration order, and the segmented membership that a
daemon builds from the resulting list. */
module MemberOrder {
  import opened RingOrder

  /** A configured daemon and its place: its segment and its index there. */
  datatype Proc = Proc(id: int, seg: nat, index: nat)

  predicate Before(a: Proc, b: Proc) {
    a.seg < b.seg || (a.seg == b.seg && a.index < b.index)
  }

  predicate Known(conf: seq<Proc>, id: int) {
    exists k :: 0 <= k < |conf| && conf[k].id == id
  }

  /** The first entry for an id, as Conf_proc_by_id finds it. */
  function ProcById(conf: seq<Proc>, id: int): (p: Proc)
    requires Known(conf, id)
    ensures p in conf && p.id == id
  {
    if conf[0].id == id then conf[0]
    else
      assert exists k :: 0 <= k < |conf[1..]| && conf[1..][k].id == id by {
        var k :| 0 <= k < |conf| && conf[k].id == id;
        assert conf[1..][k - 1].id == id;
      }
      ProcById(conf[1..], id)
  }

  ghost predicate AllKnown(conf: seq<Proc>, ids: seq<int>) {
    forall k :: 0 <= k < |ids| ==> Known(conf, ids[k])
  }

  /** No member stands before an earlier one. */
  ghost predicate Ordered(conf: seq<Proc>, ids: seq<int>)
    requires AllKnown(conf, ids)
  {
    forall i, j :: 0 <= i < j < |ids| ==> !Before(ProcById(conf, ids[j]), ProcById(conf, ids[i]))
  }

  /** The member whose place comes first; an unknown member is fatal. */
  method SmallestMember(conf: seq<Proc>, ids: seq<int>) returns (ok: bool, index: nat)
    requires ids != []
    ensures ok <==> AllKnown(conf, ids)
    ensures ok ==> index < |ids| && forall k :: 0 <= k < |ids| ==> !Before(ProcById(conf, ids[k]), ProcById(conf, ids[index]))
  {
    index := 0;
    var known := IsKnown(conf, ids[0]);
    if !known {
      return false, 0;
    }
    for i := 1 to |ids|
      invariant index < i && forall k :: 0 <= k < i ==> Known(conf, ids[k])
      invariant forall k :: 0 <= k < i ==> !Before(ProcById(conf, ids[k]), ProcById(conf, ids[index]))
    {
      known := IsKnown(conf, ids[i]);
      if !known {
        return false, 0;
      }
      if Before(ProcById(conf, ids[i]), ProcById(conf, ids[index])) {
        index := i;
      }
    }
    ok := true;
  }

  method IsKnown(conf: seq<Proc>, id: int) returns (known: bool)
    ensures known <==> Known(conf, id)
  {
    for k := 0 to |conf|
      invariant forall j :: 0 <= j < k ==> conf[j].id != id
    {
      if conf[k].id == id {
        return true;
      }
    }
    return false;
  }

  /** Removing an element the way the sort does: the last one takes its place. */
  function Removed(ids: seq<int>, index: nat): (r: seq<int>)
    requires index < |ids|
    ensures |r| == |ids| - 1
    ensures multiset(r) == multiset(ids) - multiset{ids[index]}
    ensures forall x :: x in r ==> x in ids
  {
    var last := ids[|ids| - 1];
    assert ids == ids[..|ids| - 1] + [last];
    if index == |ids| - 1 then ids[..index]
    else
      assert ids[..|ids| - 1] == ids[..index] + [ids[index]] + ids[index + 1..|ids| - 1];
      assert ids[..|ids| - 1][index := last] == ids[..index] + [last] + ids[index + 1..|ids| - 1];
      ids[..|ids| - 1][index := last]
  }

  /** Every member of `rest` may follow every member of `done`. */
  ghost predicate MayFollow(conf: seq<Proc>, done: seq<int>, rest: seq<int>)
    requires AllKnown(conf, done) && AllKnown(conf, rest)
  {
    forall i, j :: 0 <= i < |done| && 0 <= j < |rest| ==> !Before(ProcById(conf, rest[j]), ProcById(conf, done[i]))
  }

  /** Sort_members, in place: the same members, in configuration order. */
  method SortMembers(conf: seq<Proc>, members: array<int>) returns (ok: bool)
    modifies members
    ensures ok <==> AllKnown(conf, old(members[..]))
    ensures ok ==> multiset(members[..]) == multiset(old(members[..]))
    ensures ok ==> AllKnown(conf, members[..]) && Ordered(conf, members[..])
  {
    var temp := members[..];
    assert multiset(members[..0]) + multiset(temp) == multiset(old(members[..]));
    for i := 0 to members.Length
      invariant |temp| == members.Length - i
      invariant AllKnown(conf, members[..i]) && (AllKnown(conf, temp) <==> AllKnown(conf, old(members[..])))
      invariant AllKnown(conf, temp) ==> Ordered(conf, members[..i]) && MayFollow(conf, members[..i], temp)
      invariant multiset(members[..i]) + multiset(temp) == multiset(old(members[..]))
    {
      var index: nat;
      ok, index := SmallestMember(conf, temp);
      if !ok { return; }
      ghost var done := members[..i];
      NextInOrder(conf, done, temp, index);
      members[i] := temp[index];
      assert members[..i + 1] == done + [temp[index]];
      temp := Removed(temp, index);
    }
    assert members[..members.Length] == members[..];
    ok := true;
  }

  lemma NextInOrder(conf: seq<Proc>, done: seq<int>, rest: seq<int>, index: nat)
    requires AllKnown(conf, done) && AllKnown(conf, rest) && index < |rest|
    requires Ordered(conf, done) && MayFollow(conf, done, rest)
    requires forall k :: 0 <= k < |rest| ==> !Before(ProcById(conf, rest[k]), ProcById(conf, rest[index]))
    ensures AllKnown(conf, done + [rest[index]]) && AllKnown(conf, Removed(rest, index))
    ensures Ordered(conf, done + [rest[index]]) && MayFollow(conf, done + [rest[index]], Removed(rest, index))
    ensures multiset(done + [rest[index]]) + multiset(Removed(rest, index)) == multiset(done) + multiset(rest)
  {
    var left := Removed(rest, index);
    forall j | 0 <= j < |left| ensures exists k :: 0 <= k < |rest| && rest[k] == left[j] {
      assert left[j] in left;
    }
  }

  // ---- The membership built from the list ----

  /** The members of one segment, in list order. */
  function InSegment(conf: seq<Proc>, ids: seq<int>, seg: nat): seq<int>
    requires AllKnown(conf, ids)
  {
    if ids == [] then []
    else
      var last := ids[|ids| - 1];
      InSegment(conf, ids[..|ids| - 1], seg) + if ProcById(conf, last).seg == seg then [last] else []
  }

  /** The members of all segments before one. */
  function BelowSegment(conf: seq<Proc>, ids: seq<int>, seg: nat): seq<int>
    requires AllKnown(conf, ids)
  {
    if ids == [] then []
    else
      var last := ids[|ids| - 1];
      BelowSegment(conf, ids[..|ids| - 1], seg) + if ProcById(conf, last).seg < seg then [last] else []
  }

  function Build(conf: seq<Proc>, ids: seq<int>, numSegs: nat): (segs: Segments)
    requires AllKnown(conf, ids)
    ensures |segs| == numSegs
  {
    seq(numSegs, k requires 0 <= k < numSegs => InSegment(conf, ids, k))
  }

  /** Conf_append_id_to_seg for every member in turn; an unknown member is fatal. */
  method BuildMembership(conf: seq<Proc>, ids: seq<int>, numSegs: nat) returns (ok: bool, segs: Segments)
    requires forall k :: 0 <= k < |conf| ==> conf[k].seg < numSegs
    ensures ok <==> AllKnown(conf, ids)
    ensures ok ==> segs == Build(conf, ids, numSegs)
  {
    segs := seq(numSegs, _ => []);
    for i := 0 to |ids|
      invariant AllKnown(conf, ids[..i]) && segs == Build(conf, ids[..i], numSegs)
    {
      var known := IsKnown(conf, ids[i]);
      if !known {
        return false, segs;
      }
      var p := ProcById(conf, ids[i]);
      BuildOne(conf, ids[..i], ids[i], numSegs);
      assert ids[..i + 1] == ids[..i] + [ids[i]];
      segs := segs[p.seg := segs[p.seg] + [ids[i]]];
    }
    assert ids[..|ids|] == ids;
    ok := true;
  }

  lemma BuildOne(conf: seq<Proc>, ids: seq<int>, id: int, numSegs: nat)
    requires AllKnown(conf, ids + [id]) && AllKnown(conf, ids) && Known(conf, id) && ProcById(conf, id).seg < numSegs
    ensures var segs, s := Build(conf, ids, numSegs), ProcById(conf, id).seg;
            Build(conf, ids + [id], numSegs) == segs[s := segs[s] + [id]]
  {
    var segs, s, more := Build(conf, ids, numSegs), ProcById(conf, id).seg, ids + [id];
    assert more[..|ids|] == ids;
    forall k | 0 <= k < numSegs ensures Build(conf, more, numSegs)[k] == segs[s := segs[s] + [id]][k] {
      assert InSegment(conf, more, k) == InSegment(conf, ids, k) + if s == k then [id] else [];
    }
  }

  lemma {:induction false} BelowGrows(conf: seq<Proc>, ids: seq<int>, seg: nat)
    requires AllKnown(conf, ids) && Ordered(conf, ids)
    ensures BelowSegment(conf, ids, seg + 1) == BelowSegment(conf, ids, seg) + InSegment(conf, ids, seg)
  {
    if ids != [] {
      var init := ids[..|ids| - 1];
      BelowGrows(conf, init, seg);
      if ProcById(conf, ids[|ids| - 1]).seg < seg {
        LastIsHighest(conf, ids);
        NoneInSegment(conf, init, seg);
      }
      LastStep(conf, ids, seg);
      hide BelowSegment, InSegment, Ordered, AllKnown, Known;
    }
  }

  lemma LastStep(conf: seq<Proc>, ids: seq<int>, seg: nat)
    requires AllKnown(conf, ids) && ids != []
    ensures var init, last := ids[..|ids| - 1], ids[|ids| - 1];
            && BelowSegment(conf, ids, seg) ==
               BelowSegment(conf, init, seg) + (if ProcById(conf, last).seg < seg then [last] else [])
            && BelowSegment(conf, ids, seg + 1) ==
               BelowSegment(conf, init, seg + 1) + (if ProcById(conf, last).seg <= seg then [last] else [])
            && InSegment(conf, ids, seg) == InSegment(conf, init, seg) + if ProcById(conf, last).seg == seg then [last] else []
  {}

  lemma LastIsHighest(conf: seq<Proc>, ids: seq<int>)
    requires AllKnown(conf, ids) && Ordered(conf, ids)
    ensures forall k :: 0 <= k < |ids| ==> ProcById(conf, ids[k]).seg <= ProcById(conf, ids[|ids| - 1]).seg
  {
    forall k | 0 <= k < |ids| - 1 ensures ProcById(conf, ids[k]).seg <= ProcById(conf, ids[|ids| - 1]).seg {
      assert !Before(ProcById(conf, ids[|ids| - 1]), ProcById(conf, ids[k]));
    }
  }

  lemma {:induction false} NoneInSegment(conf: seq<Proc>, ids: seq<int>, seg: nat)
    requires AllKnown(conf, ids) && forall k :: 0 <= k < |ids| ==> ProcById(conf, ids[k]).seg < seg
    ensures InSegment(conf, ids, seg) == []
  {
    if ids != [] {
      NoneInSegment(conf, ids[..|ids| - 1], seg);
    }
  }

  lemma {:induction false} AllBelow(conf: seq<Proc>, ids: seq<int>, numSegs: nat)
    requires AllKnown(conf, ids) && forall k :: 0 <= k < |ids| ==> ProcById(conf, ids[k]).seg < numSegs
    ensures BelowSegment(conf, ids, numSegs) == ids
  {
    if ids != [] {
      AllBelow(conf, ids[..|ids| - 1], numSegs);
    }
  }

  lemma {:induction false} NoneBelow(conf: seq<Proc>, ids: seq<int>)
    requires AllKnown(conf, ids)
    ensures BelowSegment(conf, ids, 0) == []
  {
    if ids != [] {
      NoneBelow(conf, ids[..|ids| - 1]);
    }
  }

  lemma {:induction false} FlatOfPrefix(conf: seq<Proc>, ids: seq<int>, numSegs: nat, k: nat)
    requires AllKnown(conf, ids) && Ordered(conf, ids) && k <= numSegs
    ensures Flat(Build(conf, ids, numSegs)[..k]) == BelowSegment(conf, ids, k)
  {
    var segs := Build(conf, ids, numSegs);
    if k == 0 {
      NoneBelow(conf, ids);
    } else {
      FlatOfPrefix(conf, ids, numSegs, k - 1);
      FlatTo(segs, k - 1);
      BelowGrows(conf, ids, k - 1);
    }
  }

  /** When the list is in configuration order, as Sort_members leaves it, the ring order of the built
      membership is the list: the token goes around in the order of the list. */
  lemma BuiltInListOrder(conf: seq<Proc>, ids: seq<int>, numSegs: nat)
    requires AllKnown(conf, ids) && Ordered(conf, ids)
    requires forall k :: 0 <= k < |conf| ==> conf[k].seg < numSegs
    ensures Flat(Build(conf, ids, numSegs)) == ids
  {
    var segs := Build(conf, ids, numSegs);
    assert segs[..numSegs] == segs;
    FlatOfPrefix(conf, ids, numSegs, numSegs);
    AllBelow(conf, ids, numSegs);
  }
}
