/** The all-received-up-to ("aru") protocol that the ring token carries.

The members are kept in the order in which the token will next visit them: element 0 is the
holder of the token, the last element visited it most recently.  One visit therefore moves
element 0 to the end.  Everything else about a daemon is abstracted: its `received` mark may
rise at any moment because packets arrive asynchronously.

The same arithmetic runs in the operational ring and in the recovery (EVS) ring; there the
sequence number on the token has no meaning, so the rule that uses it is switched off. */
module TokenAru {
  import opened SpreadTypes

  /** `last` is the aru of the token this member forwarded last, `aru` is what it believes to be
      received by everybody, `received` is the end of its own gap-free prefix. */
  datatype Holder = Holder(id: int, last: int, aru: int, received: int)

  datatype Ring = Ring(members: seq<Holder>, aru: int, lastId: int, seqNo: int)

  /** Whether the holder writes its own mark on the token. */
  predicate TakesOver(tokenAru: int, lastId: int, tokenSeq: int, useSeq: bool, id: int, received: int) {
    || tokenAru > received
    || lastId == id
    || (useSeq && tokenAru == tokenSeq)
  }

  function NextAru(tokenAru: int, lastId: int, tokenSeq: int, useSeq: bool, id: int, received: int): int {
    if TakesOver(tokenAru, lastId, tokenSeq, useSeq, id, received) then received else tokenAru
  }

  function NextLastId(tokenAru: int, lastId: int, tokenSeq: int, useSeq: bool, id: int, received: int): int {
    if TakesOver(tokenAru, lastId, tokenSeq, useSeq, id, received) then id else lastId
  }

  /** The stable mark a daemon adopts: the smaller of the token it sends and the one it sent before. */
  function StableMark(tokenAru: int, lastAru: int): int {
    if tokenAru > lastAru then lastAru else tokenAru
  }

  /** One visit of the token to member 0, whose prefix has grown to `received`. */
  function Visit(r: Ring, received: int, seqNo: int, useSeq: bool): Ring
    requires |r.members| > 0
  {
    var h := r.members[0];
    var a := NextAru(r.aru, r.lastId, r.seqNo, useSeq, h.id, received);
    Ring(r.members[1..] + [Holder(h.id, a, StableMark(a, h.last), received)],
         a, NextLastId(r.aru, r.lastId, r.seqNo, useSeq, h.id, received), seqNo)
  }

  /** A member other than through the token learns of more packets. */
  function Grow(r: Ring, i: nat, received: int): Ring
    requires i < |r.members|
  {
    r.(members := r.members[i := r.members[i].(received := received)])
  }

  ghost predicate DistinctIds(r: Ring) {
    forall i, j :: 0 <= i < j < |r.members| ==> r.members[i].id != r.members[j].id
  }

  /** Member i visited the token after (or is) the member that last changed its aru. */
  ghost predicate SinceLastChange(r: Ring, i: int)
  {
    forall k :: 0 <= k && i < k < |r.members| ==> r.members[k].id != r.lastId
  }

  /** Everything a member takes for stable is below every mark recorded anywhere. */
  ghost predicate Stable(r: Ring) {
    && (forall i :: 0 <= i < |r.members| ==> r.members[i].last <= r.members[i].received)
    && (forall i :: 0 <= i < |r.members| ==> r.members[i].aru <= r.aru)
    && (forall i, j :: 0 <= i < |r.members| && 0 <= j < |r.members| ==> r.members[i].aru <= r.members[j].last)
    && (forall i, j :: 0 <= i < j < |r.members| ==> r.members[i].aru <= r.members[j].aru)
  }

  /** Within one rotation the aru on the token has no valley: it only rises, then only falls. */
  ghost predicate NoValley(r: Ring) {
    forall i, j :: 0 <= i < j < |r.members| ==> Min(r.members[i].last, r.aru) <= r.members[j].last
  }

  /** The aru has not moved since the member named on the token wrote it. */
  ghost predicate UnchangedSince(r: Ring) {
    forall i, j :: 0 <= i <= j < |r.members| && SinceLastChange(r, i) ==>
      r.members[i].last <= r.members[j].last && r.members[i].last <= r.aru
  }

  ghost predicate BelowSeq(r: Ring) {
    forall i :: 0 <= i < |r.members| ==> r.members[i].last <= r.seqNo
  }

  ghost predicate Inv(r: Ring, useSeq: bool) {
    DistinctIds(r) && Stable(r) && NoValley(r) && UnchangedSince(r) && (useSeq ==> BelowSeq(r))
  }

  /** A new ring: nobody has forwarded a token of it yet. The token's aru and last id are arbitrary. */
  ghost predicate Fresh(r: Ring) {
    && DistinctIds(r)
    && r.aru >= 0 && r.seqNo >= 0
    && forall i :: 0 <= i < |r.members| ==>
         r.members[i].last == 0 && r.members[i].aru == 0 && r.members[i].received >= 0
  }

  lemma FreshInv(r: Ring, useSeq: bool)
    requires Fresh(r)
    ensures Inv(r, useSeq)
  {}

  /** The marks recorded before the holder's visit bound what the token may carry afterwards. */
  lemma NoValleyAfterVisit(r: Ring, received: int, useSeq: bool, i: nat, j: nat)
    requires |r.members| > 0 && Inv(r, useSeq)
    requires i < j < |r.members|
    ensures var h := r.members[0];
            Min(r.members[i].last, NextAru(r.aru, r.lastId, r.seqNo, useSeq, h.id, received)) <= r.members[j].last
  {
    var h := r.members[0];
    if r.lastId == h.id {
      assert SinceLastChange(r, i);
    }
  }

  lemma UnchangedSinceAfterVisit(r: Ring, received: int, seqNo: int, useSeq: bool)
    requires |r.members| > 0 && Inv(r, useSeq)
    ensures UnchangedSince(Visit(r, received, seqNo, useSeq))
  {
    var h := r.members[0];
    var v := Visit(r, received, seqNo, useSeq);
    var n := |r.members|;
    forall i, j | 0 <= i <= j < n && SinceLastChange(v, i)
      ensures v.members[i].last <= v.members[j].last && v.members[i].last <= v.aru
    {
      if i < n - 1 {
        assert v.members[n - 1].id == h.id;
        assert v.lastId == r.lastId && v.aru == r.aru;
        forall k | i + 1 < k < n ensures r.members[k].id != r.lastId {
          assert v.members[k - 1] == r.members[k];
        }
        assert SinceLastChange(r, i + 1);
        assert v.members[i] == r.members[i + 1];
        if j < n - 1 {
          assert v.members[j] == r.members[j + 1];
        }
      }
    }
  }

  lemma DistinctAfterVisit(r: Ring, received: int, seqNo: int, useSeq: bool)
    requires |r.members| > 0 && DistinctIds(r)
    ensures DistinctIds(Visit(r, received, seqNo, useSeq))
  {
    var v := Visit(r, received, seqNo, useSeq);
    forall i, j | 0 <= i < j < |v.members| ensures v.members[i].id != v.members[j].id {
      assert v.members[i] == r.members[i + 1];
      if j < |r.members| - 1 {
        assert v.members[j] == r.members[j + 1];
      } else {
        assert v.members[j].id == r.members[0].id;
      }
    }
  }

  lemma NoValleyVisit(r: Ring, received: int, seqNo: int, useSeq: bool)
    requires |r.members| > 0 && Inv(r, useSeq)
    ensures NoValley(Visit(r, received, seqNo, useSeq))
  {
    var v := Visit(r, received, seqNo, useSeq);
    forall i, j | 0 <= i < j < |v.members| ensures Min(v.members[i].last, v.aru) <= v.members[j].last {
      if j < |r.members| - 1 {
        NoValleyAfterVisit(r, received, useSeq, i + 1, j + 1);
        assert v.members[i] == r.members[i + 1] && v.members[j] == r.members[j + 1];
      }
    }
  }

  lemma StableAfterVisit(r: Ring, received: int, seqNo: int, useSeq: bool)
    requires |r.members| > 0 && Inv(r, useSeq)
    requires received >= r.members[0].received
    ensures Stable(Visit(r, received, seqNo, useSeq))
  {
    var h := r.members[0];
    var v := Visit(r, received, seqNo, useSeq);
    var n := |r.members|;
    var top := v.members[n - 1];
    forall j | 0 < j < n ensures top.aru <= r.members[j].last {
      NoValleyAfterVisit(r, received, useSeq, 0, j);
    }
    assert Stable(r);
    hide Inv, NoValley, UnchangedSince, DistinctIds;
    forall i | 0 <= i < n ensures r.members[i].aru <= v.aru && r.members[i].aru <= top.aru {
      assert r.members[i].aru <= h.last <= h.received;
    }
    StableRotated(r.members, top, v.aru, r.aru);
  }

  lemma StableRotated(ms: seq<Holder>, top: Holder, aru: int, before: int)
    requires ms != [] && Stable(Ring(ms, before, 0, 0))
    requires top.last <= top.received && top.aru <= top.last && top.aru <= aru
    requires forall j :: 0 < j < |ms| ==> top.aru <= ms[j].last
    requires forall i :: 0 <= i < |ms| ==> ms[i].aru <= aru && ms[i].aru <= top.aru
    ensures forall id, seqNo :: Stable(Ring(ms[1..] + [top], aru, id, seqNo))
  {
    forall id, seqNo ensures Stable(Ring(ms[1..] + [top], aru, id, seqNo)) {
      var r := Ring(ms[1..] + [top], aru, id, seqNo);
      var n := |ms|;
      assert r.members[n - 1] == top && forall i :: 0 <= i < n - 1 ==> r.members[i] == ms[i + 1];
    }
  }

  lemma HolderLowest(r: Ring, useSeq: bool)
    requires Inv(r, useSeq)
    ensures forall i :: 0 < i < |r.members| ==> r.members[0].aru <= r.members[i].aru
  {}

  /** A visit keeps the whole invariant, never lowers the holder's stable mark, and leaves it at or
      below every member's received prefix. */
  lemma VisitInv(r: Ring, received: int, seqNo: int, useSeq: bool)
    requires |r.members| > 0 && Inv(r, useSeq)
    requires received >= r.members[0].received
    requires useSeq ==> seqNo >= r.seqNo && received <= seqNo
    ensures var v := Visit(r, received, seqNo, useSeq);
            && Inv(v, useSeq)
            && v.aru >= r.members[0].aru && r.members[0].last >= r.members[0].aru
            && forall i :: 0 <= i < |r.members| ==>
                 r.members[i].aru <= v.members[|r.members| - 1].aru <= v.members[i].received
  {
    DistinctAfterVisit(r, received, seqNo, useSeq);
    NoValleyVisit(r, received, seqNo, useSeq);
    StableAfterVisit(r, received, seqNo, useSeq);
    UnchangedSinceAfterVisit(r, received, seqNo, useSeq);
    var v := Visit(r, received, seqNo, useSeq);
    forall i | 0 <= i < |r.members|
      ensures r.members[i].aru <= v.members[|r.members| - 1].aru <= v.members[i].received
    {
      if i > 0 {
        assert v.members[i - 1] == r.members[i];
      }
      assert r.members[i].aru <= r.members[0].last;
    }
    assert useSeq ==> BelowSeq(v);
  }

  lemma GrowInv(r: Ring, i: nat, received: int, useSeq: bool)
    requires i < |r.members| && Inv(r, useSeq) && received >= r.members[i].received
    ensures Inv(Grow(r, i, received), useSeq)
  {
    hide NoValley;
    GrowNoValley(r, i, received);
    var g := Grow(r, i, received);
    forall a, b | 0 <= a <= b < |g.members| && SinceLastChange(g, a)
      ensures g.members[a].last <= g.members[b].last && g.members[a].last <= g.aru
    {
      forall k | a < k < |r.members| ensures r.members[k].id != r.lastId {
        assert g.members[k].id == r.members[k].id;
      }
      assert SinceLastChange(r, a);
    }
  }

  lemma GrowNoValley(r: Ring, i: nat, received: int)
    requires i < |r.members| && NoValley(r)
    ensures NoValley(Grow(r, i, received))
  {}

  // ---- Progress ----

  /** Token visits during which nobody receives anything new. */
  function Quiet(r: Ring, visits: nat, seqNo: int, useSeq: bool): (q: Ring)
    requires |r.members| > 0
    ensures |q.members| == |r.members|
    decreases visits
  {
    if visits == 0 then r else Quiet(Visit(r, r.members[0].received, seqNo, useSeq), visits - 1, seqNo, useSeq)
  }

  ghost predicate AllReceived(r: Ring, x: int) {
    forall i :: 0 <= i < |r.members| ==> r.members[i].received >= x
  }

  /** The last `count` members passed on a token with an aru of at least x; with `stable`, they also take x
      for stable. */
  ghost predicate Caught(r: Ring, x: int, count: nat, stable: bool) {
    forall i :: 0 <= i < |r.members| && i >= |r.members| - count ==> r.members[i].last >= x && (stable ==> r.members[i].aru >= x)
  }

  lemma QuietVisit(r: Ring, x: int, seqNo: int, useSeq: bool, count: nat, stable: bool)
    requires |r.members| > 0 && AllReceived(r, x)
    ensures var v := Visit(r, r.members[0].received, seqNo, useSeq);
            && |v.members| == |r.members| && AllReceived(v, x)
            && (r.aru >= x ==> v.aru >= x)
            && (r.lastId == r.members[0].id ==> v.aru >= x)
            && (forall j :: 0 < j < |r.members| && r.aru < x && r.lastId == r.members[j].id ==>
                  v.aru >= x || (v.lastId == v.members[j - 1].id && v.aru < x))
            && (r.aru >= x && Caught(r, x, count, stable) && (stable ==> r.members[0].last >= x) ==>
                  Caught(v, x, count + 1, stable))
            && (r.aru >= x && Caught(r, x, |r.members|, false) ==> Caught(v, x, |r.members|, false))
  {
    var v := Visit(r, r.members[0].received, seqNo, useSeq);
    var n := |r.members|;
    assert v.members[n - 1].received == r.members[0].received;
    assert forall i :: 0 <= i < n - 1 ==> v.members[i] == r.members[i + 1];
  }

  /** While the aru on the token is too low, it is on its way back to the member that lowered it. */
  lemma {:induction false} AruRises(r: Ring, x: int, seqNo: int, useSeq: bool, j: nat)
    requires j < |r.members| && AllReceived(r, x) && (r.aru >= x || r.lastId == r.members[j].id)
    ensures Quiet(r, j + 1, seqNo, useSeq).aru >= x && AllReceived(Quiet(r, j + 1, seqNo, useSeq), x)
    decreases j
  {
    QuietVisit(r, x, seqNo, useSeq, 0, false);
    var v := Visit(r, r.members[0].received, seqNo, useSeq);
    if j > 0 {
      AruRises(v, x, seqNo, useSeq, j - 1);
    } else {
      assert Quiet(v, 0, seqNo, useSeq) == v;
    }
  }

  lemma {:induction false} CatchUp(r: Ring, x: int, seqNo: int, useSeq: bool, count: nat, visits: nat, stable: bool)
    requires |r.members| > 0 && AllReceived(r, x) && r.aru >= x && Caught(r, x, count, stable)
    requires stable ==> Caught(r, x, |r.members|, false)
    ensures var q := Quiet(r, visits, seqNo, useSeq);
            q.aru >= x && AllReceived(q, x) && Caught(q, x, count + visits, stable)
    decreases visits
  {
    if visits > 0 {
      QuietVisit(r, x, seqNo, useSeq, count, stable);
      CatchUp(Visit(r, r.members[0].received, seqNo, useSeq), x, seqNo, useSeq, count + 1, visits - 1, stable);
    }
  }

  lemma {:induction false} QuietSplit(r: Ring, a: nat, b: nat, seqNo: int, useSeq: bool)
    requires |r.members| > 0
    ensures Quiet(r, a + b, seqNo, useSeq) == Quiet(Quiet(r, a, seqNo, useSeq), b, seqNo, useSeq)
    decreases a
  {
    if a > 0 {
      QuietSplit(Visit(r, r.members[0].received, seqNo, useSeq), a - 1, b, seqNo, useSeq);
    }
  }

  /** The id on the token is a member's. */
  ghost predicate Named(r: Ring) {
    exists i :: 0 <= i < |r.members| && r.members[i].id == r.lastId
  }

  /** Once a member has written its mark the token always names a member. */
  lemma NamedVisit(r: Ring, received: int, seqNo: int, useSeq: bool)
    requires |r.members| > 0
    requires Named(r) || TakesOver(r.aru, r.lastId, r.seqNo, useSeq, r.members[0].id, received)
    ensures Named(Visit(r, received, seqNo, useSeq))
  {
    var v := Visit(r, received, seqNo, useSeq);
    var n := |r.members|;
    if v.lastId == r.members[0].id {
      assert v.members[n - 1].id == v.lastId;
    } else {
      var i :| 0 <= i < n && r.members[i].id == r.lastId;
      assert v.members[i - 1] == r.members[i];
    }
  }

  /** Three rotations and one visit in which nothing is lost are enough: whatever everybody has received, everybody
      then takes for stable. The token names a member, or, as the first one of a ring does, makes the next member
      write its mark. */
  lemma StableInThreeRotations(r: Ring, x: int, seqNo: int, useSeq: bool)
    requires |r.members| > 0 && AllReceived(r, x)
    requires Named(r) || TakesOver(r.aru, r.lastId, r.seqNo, useSeq, r.members[0].id, r.members[0].received)
    ensures var q := Quiet(r, 3 * |r.members| + 1, seqNo, useSeq);
            forall i :: 0 <= i < |r.members| ==> q.members[i].aru >= x
  {
    var n := |r.members|;
    var first := Visit(r, r.members[0].received, seqNo, useSeq);
    NamedVisit(r, r.members[0].received, seqNo, useSeq);
    QuietVisit(r, x, seqNo, useSeq, 0, false);
    NamedStable(first, x, seqNo, useSeq);
    assert Quiet(r, 3 * n + 1, seqNo, useSeq) == Quiet(first, 3 * n, seqNo, useSeq);
  }

  lemma NamedStable(r: Ring, x: int, seqNo: int, useSeq: bool)
    requires |r.members| > 0 && Named(r) && AllReceived(r, x)
    ensures var q := Quiet(r, 3 * |r.members|, seqNo, useSeq);
            forall i :: 0 <= i < |r.members| ==> q.members[i].aru >= x
  {
    var n := |r.members|;
    var j: nat :| j < n && r.members[j].id == r.lastId;
    AruRises(r, x, seqNo, useSeq, j);
    var a := Quiet(r, j + 1, seqNo, useSeq);
    CatchUp(a, x, seqNo, useSeq, 0, n, false);
    var b := Quiet(a, n, seqNo, useSeq);
    CatchUp(b, x, seqNo, useSeq, 0, 2 * n - j - 1, true);
    QuietSplit(r, j + 1, n, seqNo, useSeq);
    QuietSplit(r, j + 1 + n, 2 * n - j - 1, seqNo, useSeq);
  }

  /** When the holder writes its own mark: if it misses packets that the token's mark claims, if the token's mark is its
      own, or if the token says that everybody has everything. Otherwise the mark and its author stay, and are no claim
      that the holder does not meet. */
  lemma WritesMark(r: Ring, received: int, seqNo: int, useSeq: bool)
    requires |r.members| > 0
    ensures var n, h := Visit(r, received, seqNo, useSeq), r.members[0];
            && (r.aru > received || r.lastId == h.id || (useSeq && r.aru == r.seqNo) ==> n.aru == received && n.lastId == h.id)
            && (n.lastId != h.id ==> n.aru == r.aru <= received && n.lastId == r.lastId)
            && n.aru <= received && (n.aru > r.aru ==> r.lastId == h.id || (useSeq && r.aru == r.seqNo))
  {}
}
