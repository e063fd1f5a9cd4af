/** Synced sets: the daemons that are known to agree on all groups, each kept in configuration order.

`conf` lists the configured daemons in order; a daemon that is not in it has index -1. */
module SyncedSets {
  import opened SpreadTypes

  ghost predicate ByConf(conf: seq<int>, s: seq<int>) {
    forall i, j :: 0 <= i < j < |s| ==> IndexOf(conf, s[i]) < IndexOf(conf, s[j])
  }

  ghost predicate AllIn(conf: seq<int>, s: seq<int>) {
    forall x :: x in s ==> x in conf
  }

  function Ids(s: seq<int>): set<int> { set x | x in s }

  /** Two sets in order, merged. */
  function Merge(conf: seq<int>, a: seq<int>, b: seq<int>): (m: seq<int>)
    ensures Ids(m) == Ids(a) + Ids(b)
    decreases |a| + |b|
  {
    if a == [] then b
    else if b == [] then a
    else if IndexOf(conf, a[0]) < IndexOf(conf, b[0]) then
      IdsHead(a);
      IdsPrepend(a[0], Merge(conf, a[1..], b));
      [a[0]] + Merge(conf, a[1..], b)
    else
      IdsHead(b);
      IdsPrepend(b[0], Merge(conf, a, b[1..]));
      [b[0]] + Merge(conf, a, b[1..])
  }

  lemma IdsPrepend(x: int, s: seq<int>)
    ensures Ids([x] + s) == {x} + Ids(s)
  {
    forall y ensures y in Ids([x] + s) <==> y in {x} + Ids(s) {
      assert y in [x] + s <==> y == x || y in s;
    }
  }

  lemma IdsHead(s: seq<int>)
    requires s != []
    ensures Ids(s) == {s[0]} + Ids(s[1..])
  {
    assert s == [s[0]] + s[1..];
    IdsPrepend(s[0], s[1..]);
  }

  lemma HeadLeast(conf: seq<int>, s: seq<int>)
    requires ByConf(conf, s) && s != []
    ensures forall x :: x in s ==> IndexOf(conf, s[0]) <= IndexOf(conf, x)
    ensures forall x :: x in s[1..] ==> x in s && IndexOf(conf, s[0]) < IndexOf(conf, x)
    ensures ByConf(conf, s[1..])
  {
    forall x | x in s[1..] ensures x in s && IndexOf(conf, s[0]) < IndexOf(conf, x) {
      var k :| 0 <= k < |s[1..]| && s[1..][k] == x;
      assert s[k + 1] == x;
    }
    assert s == [s[0]] + s[1..];
  }

  lemma Prepend(conf: seq<int>, first: int, rest: seq<int>)
    requires ByConf(conf, rest) && forall x :: x in rest ==> IndexOf(conf, first) < IndexOf(conf, x)
    ensures ByConf(conf, [first] + rest)
  {
    forall i, j | 0 <= i < j < |[first] + rest|
      ensures IndexOf(conf, ([first] + rest)[i]) < IndexOf(conf, ([first] + rest)[j]) {
      assert rest[j - 1] in rest;
    }
  }

  lemma IdsIn(s: seq<int>)
    ensures forall x :: x in s <==> x in Ids(s)
  {}

  lemma {:induction false} MergeAscending(conf: seq<int>, a: seq<int>, b: seq<int>)
    requires ByConf(conf, a) && ByConf(conf, b) && AllIn(conf, a) && AllIn(conf, b) && Ids(a) !! Ids(b)
    ensures ByConf(conf, Merge(conf, a, b)) && AllIn(conf, Merge(conf, a, b))
    decreases |a| + |b|
  {
    var m := Merge(conf, a, b);
    assert AllIn(conf, m) by { IdsIn(a); IdsIn(b); IdsIn(m); }
    if a != [] && b != [] {
      HeadLeast(conf, a);
      HeadLeast(conf, b);
      assert a[0] in Ids(a) && b[0] in Ids(b) && a[0] != b[0];
      assert IndexOf(conf, a[0]) != IndexOf(conf, b[0]);
      IdsIn(a[1..]);
      IdsIn(b[1..]);
      IdsIn(a);
      IdsIn(b);
      if IndexOf(conf, a[0]) < IndexOf(conf, b[0]) {
        MergeAscending(conf, a[1..], b);
        MergedLater(conf, a[0], a[1..], b);
      } else {
        MergeAscending(conf, a, b[1..]);
        MergedLater(conf, b[0], a, b[1..]);
      }
    }
  }

  lemma MergedLater(conf: seq<int>, first: int, a: seq<int>, b: seq<int>)
    requires ByConf(conf, Merge(conf, a, b))
    requires forall x :: x in a ==> IndexOf(conf, first) < IndexOf(conf, x)
    requires forall x :: x in b ==> IndexOf(conf, first) < IndexOf(conf, x)
    ensures ByConf(conf, [first] + Merge(conf, a, b))
  {
    var rest := Merge(conf, a, b);
    IdsIn(rest);
    Prepend(conf, first, rest);
  }

  // ---- The two operations, as they run ----

  lemma MergeLeft(conf: seq<int>, mine: seq<int>, other: seq<int>, i: nat, j: nat)
    requires i < |mine| && j <= |other|
    requires j < |other| ==> IndexOf(conf, mine[i]) < IndexOf(conf, other[j])
    ensures Merge(conf, mine[i..], other[j..]) == [mine[i]] + Merge(conf, mine[i + 1..], other[j..])
  {
    assert mine[i..][1..] == mine[i + 1..] && mine[i..] == [mine[i]] + mine[i + 1..];
  }

  lemma MergeRight(conf: seq<int>, mine: seq<int>, other: seq<int>, i: nat, j: nat)
    requires i <= |mine| && j < |other|
    requires i < |mine| ==> IndexOf(conf, other[j]) < IndexOf(conf, mine[i])
    ensures Merge(conf, mine[i..], other[j..]) == [other[j]] + Merge(conf, mine[i..], other[j + 1..])
  {
    assert other[j..][1..] == other[j + 1..] && other[j..] == [other[j]] + other[j + 1..];
  }

  /** The first k of a are configured and none of them is in b. */
  ghost predicate Checked(conf: seq<int>, a: seq<int>, k: nat, b: seq<int>)
    requires k <= |a|
  {
    forall i :: 0 <= i < k ==> a[i] in conf && a[i] !in b
  }

  lemma CheckNext(conf: seq<int>, a: seq<int>, k: nat, b: seq<int>, j: nat)
    requires ByConf(conf, b) && k < |a| && j <= |b| && Checked(conf, a, k, b) && Checked(conf, b, j, a)
    requires a[k] in conf && (j < |b| ==> IndexOf(conf, a[k]) < IndexOf(conf, b[j]))
    ensures Checked(conf, a, k + 1, b)
  {
    forall l | 0 <= l < |b| ensures b[l] != a[k] {
      assert a[k] in a;
      if j < l {
        assert IndexOf(conf, b[j]) < IndexOf(conf, b[l]);
      }
    }
  }

  /** G_add_to_synced_set: `ok` is false when a fatal branch is taken, for an id that is not configured or
      one that both sets contain. */
  method AddToSyncedSet(conf: seq<int>, mine: seq<int>, other: seq<int>) returns (ok: bool, merged: seq<int>)
    requires ByConf(conf, mine) && ByConf(conf, other)
    ensures ok <==> AllIn(conf, mine) && AllIn(conf, other) && Ids(mine) !! Ids(other)
    ensures ok ==> merged == Merge(conf, mine, other)
  {
    hide ByConf, Merge, Checked;
    merged := [];
    var i, j := 0, 0;
    var indexL, indexR := -1, -1;
    NoneChecked(conf, mine, other);
    while i < |mine| || j < |other|
      invariant i <= |mine| && j <= |other|
      invariant indexL != -1 ==> i < |mine| && indexL == IndexOf(conf, mine[i])
      invariant indexR != -1 ==> j < |other| && indexR == IndexOf(conf, other[j])
      invariant merged + Merge(conf, mine[i..], other[j..]) == Merge(conf, mine, other)
      invariant Checked(conf, mine, i, other) && Checked(conf, other, j, mine)
      decreases |mine| - i + |other| - j
    {
      if i < |mine| && indexL == -1 {
        indexL := IndexOf(conf, mine[i]);
        if indexL == -1 {
          assert mine[i] in mine;
          return false, merged;
        }
      }
      if j < |other| && indexR == -1 {
        indexR := IndexOf(conf, other[j]);
        if indexR == -1 {
          assert other[j] in other;
          return false, merged;
        }
      }
      if (indexL < indexR && indexL != -1) || indexR == -1 {
        MergeLeft(conf, mine, other, i, j);
        CheckNext(conf, mine, i, other, j);
        merged := merged + [mine[i]];
        i := i + 1;
        indexL := -1;
      } else if (indexR < indexL && indexR != -1) || indexL == -1 {
        MergeRight(conf, mine, other, i, j);
        CheckNext(conf, other, j, mine, i);
        merged := merged + [other[j]];
        j := j + 1;
        indexR := -1;
      } else {
        assert mine[i] in Ids(mine) && mine[i] in Ids(other);
        return false, merged;
      }
    }
    AllChecked(conf, mine, other);
    ok := true;
  }

  lemma NoneChecked(conf: seq<int>, a: seq<int>, b: seq<int>)
    ensures Checked(conf, a, 0, b) && Checked(conf, b, 0, a)
    ensures [] + Merge(conf, a[0..], b[0..]) == Merge(conf, a, b)
  {
    assert a[0..] == a && b[0..] == b;
  }

  lemma AllChecked(conf: seq<int>, a: seq<int>, b: seq<int>)
    requires Checked(conf, a, |a|, b) && Checked(conf, b, |b|, a)
    ensures AllIn(conf, a) && AllIn(conf, b) && Ids(a) !! Ids(b)
    ensures Merge(conf, a[|a|..], b[|b|..]) == []
  {
    forall x | x in a ensures x in conf && x !in b {
      var i :| 0 <= i < |a| && a[i] == x;
    }
    forall x | x in b ensures x in conf {
      var i :| 0 <= i < |b| && b[i] == x;
    }
  }

  /** Keeps those of a set that are in a membership. */
  function Restrict(s: seq<int>, memb: set<int>): (r: seq<int>)
    ensures Ids(r) == Ids(s) * memb
    ensures |r| <= |s|
  {
    if s == [] then []
    else
      var init, last := s[..|s| - 1], s[|s| - 1];
      assert s == init + [last];
      IdsAppend(init, last);
      IdsAppend(Restrict(init, memb), last);
      if last in memb then Restrict(init, memb) + [last] else Restrict(init, memb)
  }

  lemma IdsAppend(s: seq<int>, x: int)
    ensures Ids(s + [x]) == Ids(s) + {x}
  {
    forall y ensures y in Ids(s + [x]) <==> y in Ids(s) + {x} {
      assert y in s + [x] <==> y in s || y == x;
    }
  }

  lemma {:induction false} RestrictAscending(conf: seq<int>, s: seq<int>, memb: set<int>)
    requires ByConf(conf, s)
    ensures ByConf(conf, Restrict(s, memb))
  {
    if s != [] {
      var init, last := s[..|s| - 1], s[|s| - 1];
      RestrictAscending(conf, init, memb);
      var r := Restrict(init, memb);
      forall k | 0 <= k < |r| ensures IndexOf(conf, r[k]) < IndexOf(conf, last) {
        assert r[k] in Ids(r) && r[k] in init;
        var i :| 0 <= i < |init| && init[i] == r[k];
        assert s[i] == r[k];
      }
    }
  }

  /** It is shorter exactly if a member was lost. */
  lemma {:induction false} RestrictLength(s: seq<int>, memb: set<int>)
    ensures |Restrict(s, memb)| == |s| <==> Ids(s) <= memb
    ensures Ids(s) <= memb ==> Restrict(s, memb) == s
  {
    if s != [] {
      var init, last := s[..|s| - 1], s[|s| - 1];
      RestrictLength(init, memb);
      assert s == init + [last];
      assert forall x :: x in s <==> x in init || x == last;
    }
  }

  /** G_update_synced_set_status, in place; the result says whether a member was lost. */
  method UpdateStatus(procs: array<int>, size: nat, memb: set<int>) returns (newSize: nat, changed: bool)
    requires size <= procs.Length
    modifies procs
    ensures newSize <= size && procs[..newSize] == Restrict(old(procs[..size]), memb)
    ensures changed <==> !(Ids(old(procs[..size])) <= memb)
  {
    newSize := 0;
    assert procs[..0] == [];
    for i := 0 to size
      invariant newSize <= i
      invariant procs[..newSize] == Restrict(old(procs[..i]), memb)
      invariant forall k :: i <= k < size ==> procs[k] == old(procs[k])
    {
      assert old(procs[..i + 1])[..i] == old(procs[..i]);
      if procs[i] in memb {
        procs[newSize] := procs[i];
        newSize := newSize + 1;
      }
    }
    RestrictLength(old(procs[..size]), memb);
    changed := newSize != size;
  }
}
