/** The order in which the token goes around: from each daemon to the next one in its segment, from the
last of a segment to the first of the next segment that has members, and from the last one back to
the first. A daemon works out on its own whom to send the token to (Net_set_membership) and whom to
accept it from (Conf_previous), in two different ways. */
module RingOrder {
  import opened SpreadTypes

  /** The members of every segment, in configuration order. */
  type Segments = seq<seq<int>>

  /** The ring order: the members of all segments one after the other. */
  function Flat(segs: Segments): seq<int> {
    if segs == [] then [] else segs[0] + Flat(segs[1..])
  }

  function Offset(segs: Segments, seg: nat): nat
    requires seg <= |segs|
  {
    |Flat(segs[..seg])|
  }

  /** The member k places after place p. */
  function Around(ring: seq<int>, p: int): int
    requires ring != []
  {
    ring[p % |ring|]
  }

  lemma {:induction false} FlatConcat(a: Segments, b: Segments)
    ensures Flat(a + b) == Flat(a) + Flat(b)
  {
    if a == [] {
      assert a + b == b;
    } else {
      assert (a + b)[0] == a[0] && (a + b)[1..] == a[1..] + b;
      FlatConcat(a[1..], b);
    }
  }

  /** Where a segment's members stand in the ring. */
  lemma FlatSplit(segs: Segments, seg: nat)
    requires seg < |segs|
    ensures Flat(segs) == Flat(segs[..seg]) + segs[seg] + Flat(segs[seg + 1..])
    ensures Flat(segs) == Flat(segs[..seg]) + Flat(segs[seg..])
    ensures Flat(segs[..seg + 1]) == Flat(segs[..seg]) + segs[seg]
    ensures Flat(segs[seg..]) == segs[seg] + Flat(segs[seg + 1..])
  {
    hide Flat;
    FlatCut(segs, seg);
    FlatFrom(segs, seg);
    FlatTo(segs, seg);
    Associative(Flat(segs[..seg]), segs[seg], Flat(segs[seg + 1..]));
  }

  lemma FlatCut(segs: Segments, seg: nat)
    requires seg <= |segs|
    ensures Flat(segs) == Flat(segs[..seg]) + Flat(segs[seg..])
  {
    FlatConcat(segs[..seg], segs[seg..]);
    assert segs == segs[..seg] + segs[seg..];
  }

  lemma FlatFrom(segs: Segments, seg: nat)
    requires seg < |segs|
    ensures Flat(segs[seg..]) == segs[seg] + Flat(segs[seg + 1..])
  {
    assert segs[seg..][1..] == segs[seg + 1..];
  }

  lemma FlatTo(segs: Segments, seg: nat)
    requires seg < |segs|
    ensures Flat(segs[..seg + 1]) == Flat(segs[..seg]) + segs[seg]
  {
    FlatOne(segs[seg]);
    hide Flat;
    FlatConcat(segs[..seg], [segs[seg]]);
    assert segs[..seg + 1] == segs[..seg] + [segs[seg]];
  }

  lemma Associative(a: seq<int>, b: seq<int>, c: seq<int>)
    ensures a + (b + c) == a + b + c
  {}

  lemma FlatOne(seg: seq<int>)
    ensures Flat([seg]) == seg
  {
    assert Flat([seg]) == seg + Flat([]);
  }

  /** The first member; an empty configuration is fatal. */
  method Leader(segs: Segments) returns (r: Option<int>)
    ensures r == if Flat(segs) == [] then None else Some(Flat(segs)[0])
  {
    for i := 0 to |segs|
      invariant Flat(segs[..i]) == []
    {
      FlatSplit(segs, i);
      if |segs[i]| > 0 {
        return Some(segs[i][0]);
      }
    }
    assert segs[..|segs|] == segs;
    return None;
  }

  method Last(segs: Segments) returns (r: Option<int>)
    ensures r == if Flat(segs) == [] then None else Some(Flat(segs)[|Flat(segs)| - 1])
  {
    assert segs[|segs|..] == [];
    for i := |segs| downto 0
      invariant Flat(segs[i..]) == []
    {
      FlatSplit(segs, i);
      if |segs[i]| > 0 {
        return Some(segs[i][|segs[i]| - 1]);
      }
    }
    assert segs[0..] == segs;
    return None;
  }

  method IdInSeg(seg: seq<int>, id: int) returns (j: int)
    ensures -1 <= j < |seg|
    ensures j == -1 <==> id !in seg
    ensures j >= 0 ==> seg[j] == id && id !in seg[..j]
  {
    for k := 0 to |seg|
      invariant id !in seg[..k]
    {
      if seg[k] == id {
        return k;
      }
    }
    assert seg[..|seg|] == seg;
    return -1;
  }

  /** A daemon's own place in the ring, known from its segment and its index there. */
  ghost predicate StandsAt(segs: Segments, seg: nat, id: int, p: nat) {
    && seg < |segs| && p < |Flat(segs)| && Flat(segs)[p] == id
    && Offset(segs, seg) <= p < Offset(segs, seg) + |segs[seg]|
  }

  lemma Place(segs: Segments, seg: nat, j: nat)
    requires seg < |segs| && j < |segs[seg]|
    ensures StandsAt(segs, seg, segs[seg][j], Offset(segs, seg) + j)
  {
    FlatSplit(segs, seg);
  }

  lemma PlaceUnique(segs: Segments, seg: nat, id: int, p: nat, j: nat)
    requires Distinct(Flat(segs)) && StandsAt(segs, seg, id, p) && j < |segs[seg]| && segs[seg][j] == id
    ensures p == Offset(segs, seg) + j
  {
    Place(segs, seg, j);
  }

  /** Places next to the ends of the ring wrap around. */
  lemma AroundIs(ring: seq<int>, p: int)
    requires ring != [] && -1 <= p <= |ring|
    ensures Around(ring, p) == ring[if p == |ring| then 0 else if p == -1 then |ring| - 1 else p]
  {
    Reduce(p, |ring|);
  }

  lemma Reduce(x: int, n: nat)
    requires n > 0 && -1 <= x <= n
    ensures x % n == if x == n then 0 else if x == -1 then n - 1 else x
  {
    if x == -1 {
      assert (n - 1) % n == (-1 + n * 1) % n;
    }
  }

  /** Conf_previous: the member one place before. */
  method Previous(segs: Segments, seg: nat, id: int, ghost p: nat) returns (r: Option<int>)
    requires Distinct(Flat(segs)) && StandsAt(segs, seg, id, p)
    ensures r == Some(Around(Flat(segs), p - 1))
  {
    hide Flat, Around, Distinct;
    r := None;
    FlatSplit(segs, seg);
    AroundIs(Flat(segs), p - 1);
    var j := IdInSeg(segs[seg], id);
    assert segs[seg][p - Offset(segs, seg)] == id;
    PlaceUnique(segs, seg, id, p, j);
    if j > 0 {
      return Some(segs[seg][j - 1]);
    }
    for i := seg downto 0
      invariant Flat(segs[..i]) == Flat(segs[..seg])
    {
      FlatTo(segs, i);
      if |segs[i]| > 0 {
        return Some(segs[i][|segs[i]| - 1]);
      }
    }
    EmptyEnds(segs);
    for i := |segs| downto seg
      invariant Flat(segs[i..]) == []
    {
      FlatSplit(segs, i);
      if |segs[i]| > 0 {
        return Some(segs[i][|segs[i]| - 1]);
      }
    }
    assert false;
  }

  lemma EmptyEnds(segs: Segments)
    ensures Flat(segs[..0]) == [] && Flat(segs[|segs|..]) == []
  {}

  /** The first members of the segments that have any, without the daemon's own segment. */
  function Heads(segs: Segments, seg: nat, k: nat): seq<int>
    requires k <= |segs|
  {
    if k == 0 then []
    else Heads(segs, seg, k - 1) + if k - 1 == seg || segs[k - 1] == [] then [] else [segs[k - 1][0]]
  }

  /** Net_set_membership: the daemons it sends broadcasts to and the one it sends the token to; `None`
      when it is not a member itself, which is fatal. */
  method SetMembership(segs: Segments, seg: nat, id: int) returns (sendTo: seq<int>, target: Option<int>)
    requires seg < |segs| && Distinct(Flat(segs))
    ensures target.None? <==> id !in segs[seg]
    ensures target.Some? ==> sendTo == Heads(segs, seg, |segs|)
    ensures forall p: nat :: StandsAt(segs, seg, id, p) ==> target == Some(Around(Flat(segs), p + 1))
  {
    sendTo := [];
    var j := IdInSeg(segs[seg], id);
    if j < 0 {
      NotInSegment(segs, seg, id);
      return sendTo, None;
    }
    var next := -1;
    for i := 0 to |segs|
      invariant sendTo == Heads(segs, seg, i)
      invariant i <= seg ==> next == -1
      invariant i > seg ==> 0 <= next == |Heads(segs, seg, seg)| <= |sendTo|
    {
      if i == seg {
        next := |sendTo|;
      } else if |segs[i]| > 0 {
        sendTo := sendTo + [segs[i][0]];
      }
    }
    if j < |segs[seg]| - 1 {
      target := Some(segs[seg][j + 1]);
    } else if |sendTo| == 0 {
      target := Some(segs[seg][0]);
    } else if |sendTo| == next {
      target := Some(sendTo[0]);
    } else {
      target := Some(sendTo[next]);
    }
    Target(segs, seg, j, sendTo, next, target.value);
    forall p: nat | StandsAt(segs, seg, id, p) ensures target == Some(Around(Flat(segs), p + 1)) {
      PlaceUnique(segs, seg, id, p, j);
    }
  }

  lemma NotInSegment(segs: Segments, seg: nat, id: int)
    requires seg < |segs| && id !in segs[seg]
    ensures forall p :: !StandsAt(segs, seg, id, p)
  {
    FlatSplit(segs, seg);
  }

  /** The heads of a stretch of segments before or after the daemon's own: empty exactly if the stretch
      has no members, and beginning with the stretch's first member. */
  lemma {:induction false} HeadsOf(segs: Segments, seg: nat, lo: nat, hi: nat)
    requires lo <= hi <= |segs| && (seg < lo || hi <= seg)
    ensures Heads(segs, seg, lo) <= Heads(segs, seg, hi)
    ensures Flat(segs[lo..hi]) == [] <==> |Heads(segs, seg, hi)| == |Heads(segs, seg, lo)|
    ensures Flat(segs[lo..hi]) != [] ==> Heads(segs, seg, hi)[|Heads(segs, seg, lo)|] == Flat(segs[lo..hi])[0]
    decreases hi - lo
  {
    if lo == hi {
      assert segs[lo..hi] == [];
    } else {
      HeadsOf(segs, seg, lo, hi - 1);
      assert Flat(segs[lo..hi]) == Flat(segs[lo..hi - 1]) + segs[hi - 1] by {
        assert segs[lo..hi] == segs[lo..hi - 1] + [segs[hi - 1]];
        FlatOne(segs[hi - 1]);
        FlatConcat(segs[lo..hi - 1], [segs[hi - 1]]);
      }
      hide Flat;
    }
  }

  lemma OwnSegment(segs: Segments, seg: nat)
    requires seg < |segs|
    ensures Heads(segs, seg, seg + 1) == Heads(segs, seg, seg) && Heads(segs, seg, 0) == []
  {}

  lemma Target(segs: Segments, seg: nat, j: nat, sendTo: seq<int>, next: nat, target: int)
    requires seg < |segs| && j < |segs[seg]| && sendTo == Heads(segs, seg, |segs|)
    requires next == |Heads(segs, seg, seg)| <= |sendTo|
    requires target ==
      if j < |segs[seg]| - 1 then segs[seg][j + 1]
      else if |sendTo| == 0 then segs[seg][0]
      else if |sendTo| == next then sendTo[0]
      else sendTo[next]
    ensures Flat(segs) != [] && target == Around(Flat(segs), Offset(segs, seg) + j + 1)
  {
    hide Flat, Around, Heads;
    FlatSplit(segs, seg);
    assert segs[0..seg] == segs[..seg] && segs[seg + 1..|segs|] == segs[seg + 1..];
    HeadsOf(segs, seg, 0, seg);
    HeadsOf(segs, seg, seg + 1, |segs|);
    OwnSegment(segs, seg);
    NextOf(Flat(segs[..seg]), segs[seg], Flat(segs[seg + 1..]), j, sendTo, next);
  }

  /** The same on the three stretches of the ring: before the segment, the segment, after it. */
  lemma NextOf(before: seq<int>, mine: seq<int>, after: seq<int>, j: nat, sendTo: seq<int>, next: nat)
    requires j < |mine| && next <= |sendTo|
    requires if before == [] then next == 0 else next > 0 && sendTo[0] == before[0]
    requires if after == [] then |sendTo| == next else |sendTo| > next && sendTo[next] == after[0]
    ensures Around(before + mine + after, |before| + j + 1) ==
      if j < |mine| - 1 then mine[j + 1]
      else if |sendTo| == 0 then mine[0]
      else if |sendTo| == next then sendTo[0]
      else sendTo[next]
  {
    AroundIs(before + mine + after, |before| + j + 1);
    hide Around;
  }

  // ---- The two ways agree ----

  /** For every daemon, whoever it sends the token to expects it from exactly that daemon. */
  lemma SendersAndReceiversMatch(ring: seq<int>, p: nat, q: nat)
    requires Distinct(ring) && p < |ring| && q < |ring|
    ensures Around(ring, p + 1) == ring[q] <==> Around(ring, q - 1) == ring[p]
  {
    var n := |ring|;
    assert (p + 1) % n == if p == n - 1 then 0 else p + 1 by { Reduce(p + 1, n); }
    assert (q - 1) % n == if q == 0 then n - 1 else q - 1 by { Reduce(q - 1, n); }
    assert Around(ring, p + 1) == ring[q] <==> (p + 1) % n == q;
    assert Around(ring, q - 1) == ring[p] <==> (q - 1) % n == p;
  }

  /** Passing the token on from the daemon at place p, `hops` times. */
  function Follow(ring: seq<int>, p: nat, hops: nat): (r: nat)
    requires p < |ring|
    ensures r < |ring|
  {
    if hops == 0 then p else (Follow(ring, p, hops - 1) + 1) % |ring|
  }

  /** Starting at the leader, the token is at each member once within a rotation, the last of them
      Conf_last, and then it is back at the leader. */
  lemma {:induction false} FullRotation(ring: seq<int>, hops: nat)
    requires Distinct(ring) && hops <= |ring| && ring != []
    ensures Follow(ring, 0, hops) == if hops == |ring| then 0 else hops
  {
    if hops > 0 {
      FullRotation(ring, hops - 1);
      Reduce(hops, |ring|);
    }
  }

  /** The transmitter check accepts a token from exactly the daemon whose Net_set_membership chose the
      receiver: the method results of the two agree for every pair of members. */
  method CheckTransmitter(segs: Segments, seg: nat, id: int, ghost p: nat,
                          sender: int, senderSeg: nat, ghost q: nat) returns (accepted: bool)
    requires Distinct(Flat(segs)) && StandsAt(segs, seg, id, p) && StandsAt(segs, senderSeg, sender, q)
    ensures accepted <==> Around(Flat(segs), q + 1) == id
  {
    var previous := Previous(segs, seg, id, p);
    SendersAndReceiversMatch(Flat(segs), q, p);
    accepted := previous == Some(sender);
  }
}
