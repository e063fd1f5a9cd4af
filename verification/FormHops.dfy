/** How the FORM1 token travels: from representative to representative, and from each to the members it
brings in. The token lists the daemons visited and, behind them, the pending ones. */
module FormHops {
  import opened SpreadTypes

  datatype Rep = Rep(id: int, ring: bool)

  /** The first `visited` members have seen the token; reps[repIndex] is the next representative. */
  datatype Form = Form(members: seq<int>, visited: nat, reps: seq<Rep>, repIndex: nat)

  function Pending(f: Form): int { |f.members| - f.visited }

  ghost predicate Valid(f: Form) {
    f.visited <= |f.members| && f.repIndex <= |f.reps|
  }

  /** A daemon that is not gathering, or one that is, with its token alive or not, the members it has
      collected and the members of its ring. */
  datatype Visitor = Plain(id: int) | Gatherer(id: int, alive: bool, collected: seq<int>, otherReps: seq<int>, ringMembers: seq<int>)

  /** Whether a collected member may be brought in: not there yet, and no other representative. */
  predicate Brings(f: Form, v: Visitor, x: int)
    requires v.Gatherer?
  {
    x !in f.members && (x == v.id || ((forall k :: 0 <= k < |f.reps| ==> f.reps[k].id != x) && x !in v.otherReps))
  }

  function Brought(f: Form, v: Visitor, collected: seq<int>): (r: seq<int>)
    requires v.Gatherer?
    ensures forall x :: x in r <==> x in collected && Brings(f, v, x)
  {
    if collected == [] then []
    else
      var init, last := collected[..|collected| - 1], collected[|collected| - 1];
      assert collected == init + [last];
      Brought(f, v, init) + if Brings(f, v, last) then [last] else []
  }

  /** Fill_form1's checks and what it does to the lists; `None` is a token that is thrown away. */
  function Hop(f: Form, v: Visitor): Option<Form> {
    match v
    case Plain(id) =>
      if f.visited >= |f.members| || f.members[f.visited] != id then None
      else Some(f.(visited := f.visited + 1))
    case Gatherer(id, alive, collected, _, ringMembers) =>
      if f.repIndex >= |f.reps| || f.reps[f.repIndex].id != id || f.reps[f.repIndex].ring != alive || f.visited != |f.members| then None
      else
        Some(f.(members := f.members + (if alive then ringMembers else Brought(f, v, collected)),
                visited := f.visited + 1, repIndex := f.repIndex + 1))
  }

  /** The daemon that Create_form1 or Fill_form1 sends the token to; `None` when it is time for FORM2. */
  function Target(f: Form): Option<int> {
    if f.visited < |f.members| then Some(f.members[f.visited])
    else if f.repIndex < |f.reps| then Some(f.reps[f.repIndex].id)
    else None
  }

  /** The lists of a gathering daemon start with the daemon itself, have no duplicates and fit their arrays. */
  ghost predicate OwnLists(v: Visitor) {
    v.Gatherer? ==>
      && v.collected != [] && v.collected[0] == v.id && Distinct(v.collected) && |v.collected| <= MAX_PROCS_RING
      && v.ringMembers != [] && v.ringMembers[0] == v.id && Distinct(v.ringMembers) && |v.ringMembers| <= MAX_PROCS_RING
  }

  lemma {:induction false} BroughtGood(f: Form, v: Visitor, collected: seq<int>)
    requires v.Gatherer? && Distinct(collected)
    ensures Distinct(Brought(f, v, collected)) && |Brought(f, v, collected)| <= |collected|
    ensures collected != [] && collected[0] == v.id && v.id !in f.members ==>
              Brought(f, v, collected) != [] && Brought(f, v, collected)[0] == v.id
  {
    if collected != [] {
      var init, last := collected[..|collected| - 1], collected[|collected| - 1];
      BroughtGood(f, v, init);
      var before := Brought(f, v, init);
      forall k | 0 <= k < |before| ensures before[k] != last {
        var x := before[k];
        assert x in Brought(f, v, init);
        assert x in init;
        var i :| 0 <= i < |init| && init[i] == before[k];
        assert collected[i] != collected[|init|];
      }
    }
  }

  /** How far the token can still get; every accepted hop lowers it. */
  function Hops(f: Form): int {
    (|f.reps| - f.repIndex) * (MAX_PROCS_RING + 1) + Pending(f) + 1
  }

  /** Every accepted hop brings the token closer to its end, whatever the lists contain. */
  lemma HopEnds(f: Form, v: Visitor)
    requires Valid(f) && OwnLists(v) && Hop(f, v).Some?
    ensures var n := Hop(f, v).value;
            0 <= Hops(n) < Hops(f) && n.visited == f.visited + 1 && f.members <= n.members && n.reps == f.reps
  {
    if v.Gatherer? {
      BroughtGood(f, v, v.collected);
    }
  }

  /** A ring representative's list is added as it is. */
  ghost predicate AddsNew(f: Form, v: Visitor) {
    v.Gatherer? && v.alive ==> forall x :: x in v.ringMembers ==> x !in f.members
  }

  /** An accepted hop keeps the list free of duplicates if and only if the visitor is no ring representative with a
      ring member that is listed already; what a segment representative adds is filtered, what a ring representative
      adds is not. */
  lemma HopDistinct(f: Form, v: Visitor)
    requires Distinct(f.members) && OwnLists(v) && Hop(f, v).Some?
    ensures Distinct(Hop(f, v).value.members) <==> AddsNew(f, v)
  {
    if v.Gatherer? {
      BroughtGood(f, v, v.collected);
      var more := if v.alive then v.ringMembers else Brought(f, v, v.collected);
      if x :| x in more && x in f.members {
        var i :| 0 <= i < |f.members| && f.members[i] == x;
        var j :| 0 <= j < |more| && more[j] == x;
        assert (f.members + more)[i] == (f.members + more)[|f.members| + j];
      } else {
        ConcatDistinct(f.members, more);
      }
    }
  }

  lemma ConcatDistinct(a: seq<int>, b: seq<int>)
    requires Distinct(a) && Distinct(b) && forall x :: x in b ==> x !in a
    ensures Distinct(a + b)
  {
    forall i, j | 0 <= i < j < |a + b| ensures (a + b)[i] != (a + b)[j] {
      if i < |a| <= j {
        assert b[j - |a|] in b;
      }
    }
  }

  /** The daemon that accepts the token is the next one counted as visited, except for a segment representative that
      is listed already: it filters itself out, and the next one it brings is counted unseen. */
  lemma HopCounts(f: Form, v: Visitor)
    requires Valid(f) && OwnLists(v) && Hop(f, v).Some?
    ensures var n := Hop(f, v).value;
            (f.visited < |n.members| && n.members[f.visited] == v.id) <==> (v.Gatherer? && !v.alive ==> v.id !in f.members)
  {
    if v.Gatherer? {
      BroughtGood(f, v, v.collected);
      var brought := Brought(f, v, v.collected);
      assert !v.alive && brought != [] ==> brought[0] in brought;
    }
  }

  // ---- A token and the daemons that have answered it ----

  /** A daemon that answered is in state FORM and swallows every further copy. */
  datatype Circulation = Circulation(f: Form, answered: set<int>)

  predicate Enabled(c: Circulation, v: Visitor) {
    v.id !in c.answered && Hop(c.f, v).Some?
  }

  function Next(c: Circulation, v: Visitor): Circulation
    requires Enabled(c, v)
  {
    Circulation(Hop(c.f, v).value, c.answered + {v.id})
  }

  ghost predicate ValidRun(c: Circulation, vs: seq<Visitor>)
    decreases |vs|
  {
    vs == [] || (OwnLists(vs[0]) && Enabled(c, vs[0]) && ValidRun(Next(c, vs[0]), vs[1..]))
  }

  ghost function Run(c: Circulation, vs: seq<Visitor>): Circulation
    requires ValidRun(c, vs)
    decreases |vs|
  {
    if vs == [] then c else Run(Next(c, vs[0]), vs[1..])
  }

  /** Exactly the visited positions belong to daemons that answered. */
  ghost predicate Inv(c: Circulation) {
    && Valid(c.f)
    && (forall x :: x in c.answered <==> x in c.f.members[..c.f.visited])
    && Distinct(c.f.members[..c.f.visited])
  }

  /** The token as Create_form1 sends it. */
  ghost predicate Start(c: Circulation) {
    && |c.f.members| >= 1 && c.f.visited == 1 && Distinct(c.f.members) && c.answered == {c.f.members[0]}
    && c.f.repIndex <= |c.f.reps|
  }

  lemma NextInv(c: Circulation, v: Visitor)
    requires Inv(c) && OwnLists(v) && Enabled(c, v)
    ensures Inv(Next(c, v)) && Next(c, v).f.members[c.f.visited] == v.id
  {
    var n := Next(c, v);
    HopEnds(c.f, v);
    assert v.Gatherer? ==> c.f.members == c.f.members[..c.f.visited];
    HopCounts(c.f, v);
    var before := c.f.members[..c.f.visited];
    assert n.f.members[..n.f.visited] == before + [v.id];
    ConcatDistinct(before, [v.id]);
  }

  /** Whether every ring representative brought only daemons that were not listed yet. */
  ghost predicate AllAddNew(c: Circulation, vs: seq<Visitor>)
    requires ValidRun(c, vs)
    decreases |vs|
  {
    vs == [] || (AddsNew(c.f, vs[0]) && AllAddNew(Next(c, vs[0]), vs[1..]))
  }

  /** The token's way, in every run: it visits the daemons in the order in which it lists them, none twice, only where
      it was sent, in a number of hops that the representatives bound. */
  lemma {:induction false} Visits(c: Circulation, vs: seq<Visitor>)
    requires Inv(c) && ValidRun(c, vs)
    ensures var n := Run(c, vs);
            && Inv(n) && n.f.visited == c.f.visited + |vs| && c.f.members <= n.f.members
            && n.f.visited <= |n.f.members|
            && (forall k :: 0 <= k < |vs| ==> n.f.members[c.f.visited + k] == vs[k].id)
            && |vs| <= Hops(c.f) - Hops(n.f) && 0 <= Hops(n.f)
    decreases |vs|
  {
    hide Inv, Next, Enabled, OwnLists, Hops;
    ValidOf(c);
    if vs != [] {
      HopEndsHere(c, vs[0]);
      NextInv(c, vs[0]);
      var d := Next(c, vs[0]);
      ValidOf(d);
      Visits(d, vs[1..]);
      var n := Run(c, vs);
      forall k | 0 <= k < |vs| ensures n.f.members[c.f.visited + k] == vs[k].id {
        if k > 0 {
          assert vs[k] == vs[1..][k - 1];
          assert n.f.members[d.f.visited + (k - 1)] == vs[1..][k - 1].id;
        } else {
          assert d.f.members[c.f.visited] == vs[0].id;
        }
      }
    }
  }

  lemma ValidOf(c: Circulation)
    requires Inv(c)
    ensures Valid(c.f) && c.f.visited <= |c.f.members| && 0 <= Hops(c.f)
  {}

  lemma HopEndsHere(c: Circulation, v: Visitor)
    requires Valid(c.f) && OwnLists(v) && Enabled(c, v)
    ensures var n := Next(c, v);
            Hops(n.f) < Hops(c.f) && n.f.visited == c.f.visited + 1 && c.f.members <= n.f.members
  {
    HopEnds(c.f, v);
  }

  lemma PrefixDistinct(c: Circulation)
    requires Inv(c)
    ensures c.f.visited <= |c.f.members|
    ensures forall p, q :: 0 <= p < q < c.f.visited ==> c.f.members[p] != c.f.members[q]
  {
    var seen := c.f.members[..c.f.visited];
    assert forall p :: 0 <= p < c.f.visited ==> seen[p] == c.f.members[p];
  }

  /** A run keeps the list free of duplicates if and only if all its ring representatives brought new daemons only. */
  lemma {:induction false} StaysDistinct(c: Circulation, vs: seq<Visitor>)
    requires Inv(c) && ValidRun(c, vs) && Distinct(c.f.members)
    ensures Distinct(Run(c, vs).f.members) <==> AllAddNew(c, vs)
    decreases |vs|
  {
    if vs != [] {
      var v := vs[0];
      HopDistinct(c.f, v);
      NextInv(c, v);
      if AddsNew(c.f, v) {
        StaysDistinct(Next(c, v), vs[1..]);
      } else {
        Visits(Next(c, v), vs[1..]);
        NeverAgain(Next(c, v).f.members, Run(c, vs).f.members);
      }
    }
  }

  lemma NeverAgain(a: seq<int>, b: seq<int>)
    requires a <= b && !Distinct(a)
    ensures !Distinct(b)
  {
    var i, j :| 0 <= i < j < |a| && a[i] == a[j];
    assert b[i] == b[j];
  }

  /** The way of a FORM1 token from its creation. If every listed daemon has been visited, so that FORM2 can follow,
      then nobody is listed twice; a token that lists somebody twice never gets that far, because the daemon swallows
      the second copy. */
  lemma Circulates(c: Circulation, vs: seq<Visitor>)
    requires Start(c) && ValidRun(c, vs)
    ensures var n := Run(c, vs);
            && n.f.visited == 1 + |vs| <= |n.f.members| && |vs| <= Hops(c.f)
            && (forall k :: 0 <= k < |vs| ==> n.f.members[1 + k] == vs[k].id)
            && (forall k, l :: 0 <= k < l < |vs| ==> vs[k].id != vs[l].id)
            && (Distinct(n.f.members) <==> AllAddNew(c, vs))
            && (n.f.visited == |n.f.members| ==> Distinct(n.f.members))
  {
    assert c.f.members[..1] == [c.f.members[0]];
    Visits(c, vs);
    StaysDistinct(c, vs);
    var n := Run(c, vs);
    PrefixDistinct(n);
    assert n.f.visited == |n.f.members| ==> n.f.members[..n.f.visited] == n.f.members;
  }

  /** It does happen: a segment representative brought daemon 5, a ring representative still has 5 in its ring. The
      token lists 5 twice and will be swallowed there. */
  lemma ListedTwice()
    ensures var c := Circulation(Form([10, 5], 1, [Rep(10, false), Rep(7, true)], 1), {10});
            var vs := [Plain(5), Gatherer(7, true, [7], [], [7, 5, 6])];
            && Start(c) && ValidRun(c, vs) && Run(c, vs).f.members == [10, 5, 7, 5, 6]
            && !AllAddNew(c, vs)
            && forall v :: !Enabled(Run(c, vs), v)
  {
    var c := Circulation(Form([10, 5], 1, [Rep(10, false), Rep(7, true)], 1), {10});
    var five, seven := Plain(5), Gatherer(7, true, [7], [], [7, 5, 6]);
    var vs := [five, seven];
    var c1 := Next(c, five);
    assert c1 == Circulation(Form([10, 5], 2, [Rep(10, false), Rep(7, true)], 1), {10, 5});
    assert [10, 5] + [7, 5, 6] == [10, 5, 7, 5, 6];
    assert Hop(c1.f, seven) == Some(Form([10, 5, 7, 5, 6], 3, [Rep(10, false), Rep(7, true)], 2));
    assert vs[1..] == [seven] && [seven][1..] == [];
    assert ValidRun(Next(c1, seven), []);
    assert ValidRun(c1, [seven]) && Run(c1, [seven]) == Next(c1, seven);
    assert ValidRun(c, vs) && Run(c, vs) == Next(c1, seven);
    Circulates(c, vs);
    assert !Distinct([10, 5, 7, 5, 6]) by {
      var m := [10, 5, 7, 5, 6];
      assert m[1] == m[3];
    }
  }

  /** A daemon accepts only a token that was sent to it. */
  lemma AcceptedOnlyByTarget(f: Form, v: Visitor)
    requires Valid(f) && Hop(f, v).Some?
    ensures Target(f) == Some(v.id)
  {}

  /** The filter of Fill_form1 and Create_form1, as it runs. */
  method Filter(f: Form, v: Visitor) returns (valid: seq<int>)
    requires v.Gatherer?
    ensures valid == Brought(f, v, v.collected)
  {
    valid := [];
    assert v.collected[..0] == [];
    for i := 0 to |v.collected|
      invariant valid == Brought(f, v, v.collected[..i])
    {
      var x := v.collected[i];
      var invalid := x in f.members;
      var j := 0;
      while !invalid && j < |f.reps|
        invariant 0 <= j <= |f.reps|
        invariant invalid <==> x in f.members || exists k :: 0 <= k < j && f.reps[k].id == x && x != v.id
      {
        if f.reps[j].id == x && x != v.id {
          invalid := true;
        }
        j := j + 1;
      }
      if !invalid && x in v.otherReps && x != v.id {
        invalid := true;
      }
      assert invalid <==> !Brings(f, v, x);
      if !invalid {
        valid := valid + [x];
      }
      assert v.collected[..i + 1][..i] == v.collected[..i];
    }
    assert v.collected[..|v.collected|] == v.collected;
  }

  /** A segment representative that is listed already is not counted itself: daemon 8, which it brings, is taken for
      visited without having seen the token. */
  lemma CountedUnseen()
    ensures Hop(Form([10, 7], 2, [Rep(10, false), Rep(7, false)], 1), Gatherer(7, false, [7, 8], [], [7]))
         == Some(Form([10, 7, 8], 3, [Rep(10, false), Rep(7, false)], 2))
  {
    var f, v := Form([10, 7], 2, [Rep(10, false), Rep(7, false)], 1), Gatherer(7, false, [7, 8], [], [7]);
    assert [7, 8][..1] == [7] && [7][..0] == [];
    assert 7 in f.members by { assert f.members[1] == 7; }
    assert Brought(f, v, [7]) == [] && Brought(f, v, [7, 8]) == [8];
    assert [10, 7] + [8] == [10, 7, 8];
  }

  /** On a run it happens only to a daemon that has answered the token before and left FORM since. */
  lemma UnseenOnlyTwice(c: Circulation, v: Visitor)
    requires Inv(c) && OwnLists(v) && Hop(c.f, v).Some?
    requires var n := Hop(c.f, v).value; !(c.f.visited < |n.members| && n.members[c.f.visited] == v.id)
    ensures v.id in c.answered
  {
    if v.id !in c.answered {
      NextInv(c, v);
    }
  }

  /** The part a daemon must have for the hop: a member that is waited for, or, when none is, the next representative of
      the kind it was listed as. */
  predicate Fitting(f: Form, v: Visitor) {
    if f.visited < |f.members| then v.Plain?
    else f.visited == |f.members| && f.repIndex < |f.reps| && v.Gatherer? && v.alive == f.reps[f.repIndex].ring
  }

  /** A token is accepted exactly by the daemon it was sent to, in the part it is listed for. */
  lemma Accepted(f: Form, v: Visitor)
    requires Valid(f)
    ensures Hop(f, v).Some? <==> Target(f) == Some(v.id) && Fitting(f, v)
  {}

  /** Who is listed after an accepted hop: a ring representative brings all of its ring, a segment representative itself and
      whom it has collected, except daemons that are listed or are representatives themselves, pending or past. */
  lemma HopLists(f: Form, v: Visitor, x: int)
    requires Hop(f, v).Some?
    ensures x in Hop(f, v).value.members <==>
              || x in f.members
              || (v.Gatherer? && v.alive && x in v.ringMembers)
              || (v.Gatherer? && !v.alive && x in v.collected && (x == v.id || (!IsRep(f, x) && x !in v.otherReps)))
  {}

  predicate IsRep(f: Form, x: int) { exists k :: 0 <= k < |f.reps| && f.reps[k].id == x }
}
