/** The group state exchange as a daemon runs it, with its state updated in place. */
module GroupState {
  import opened SpreadTypes
  import opened SyncedSets
  import opened GroupExchange

  class GroupsState {
    const conf: seq<int>
    var state: GState
    var sync: seq<int>
    var reg: set<int>
    var trans: set<int>
    var own: bool
    var reps: seq<Rep>
    var count: nat
    var failed: bool   // a fatal branch was taken

    ghost predicate Valid()
      reads this
    {
      ByConf(conf, sync) && forall k :: 0 <= k < |reps| ==> ByConf(conf, reps[k].sset)
    }

    function Model(): Exchange
      reads this
    {
      Exchange(state, sync, reg, trans, own, reps, count)
    }

    /** The state is the one the specification asks for; after a fatal branch the daemon has exited. */
    ghost predicate Is(e: Option<Exchange>)
      reads this
    {
      failed == e.None? && (!failed ==> Valid() && Model() == e.value)
    }

    constructor (conf: seq<int>, id: int)
      ensures Valid() && Model() == Init(id) && !failed && this.conf == conf
    {
      this.conf := conf;
      state, sync, reg, trans, own, reps, count, failed := Gop, [id], {}, {}, false, [], 0, false;
    }

    /** Takes the gathered synced sets off the list and merges them, or only the complete ones. */
    method MergeGathered(onlyComplete: bool)
      requires Valid() && !failed
      modifies `sync, `reps, `failed
      ensures var m := MergeAll(conf, old(sync), old(reps), onlyComplete);
              failed == m.None? && (!failed ==> sync == m.value && reps == [] && ByConf(conf, sync))
    {
      while reps != []
        invariant Valid() && !failed
        invariant MergeAll(conf, sync, reps, onlyComplete) == MergeAll(conf, old(sync), old(reps), onlyComplete)
        decreases |reps|
      {
        var rep := reps[0];
        assert ByConf(conf, rep.sset);
        if !onlyComplete || rep.complete {
          var ok, merged := AddToSyncedSet(conf, sync, rep.sset);
          if !ok {
            failed := true;
            return;
          }
          MergeAscending(conf, sync, rep.sset);
          sync := merged;
        }
        reps := reps[1..];
      }
    }

    method HandleTrans(memb: set<int>)
      requires Valid() && !failed
      modifies this
      ensures Is(GroupExchange.HandleTrans(old(Model()), memb))
    {
      match state {
        case Gop =>
          RestrictAscending(conf, sync, memb);
          trans := memb;
          state := Gtrans;
          sync := Restrict(sync, memb);
        case Ggather =>
          trans := memb;
          state := Ggt;
        case Gtrans =>
          failed := true;
        case Ggt =>
          failed := true;
      }
    }

    method HandleReg(memb: set<int>)
      requires Valid() && !failed
      modifies this
      ensures Is(GroupExchange.HandleReg(conf, old(Model()), memb))
    {
      hide ByConf, Ids, Restrict, MergeAll;
      match state {
        case Gop =>
          failed := true;
        case Gtrans =>
          reg := memb;
          state := if |trans| == |memb| then Gop else Ggather;
        case Ggather =>
          failed := true;
        case Ggt =>
          if own {
            MergeGathered(true);
            if failed { return; }
          }
          RestrictAscending(conf, sync, trans);
          reg := memb;
          sync := Restrict(sync, trans);
          own, reps, count := false, [], 0;
          state := Ggather;
      }
    }

    /** A GROUPS message of the current membership. */
    method HandleGroups(n: Note)
      requires Valid() && !failed && sync != [] && ByConf(conf, n.sset)
      modifies this
      ensures Is(HandleNote(conf, old(Model()), n))
    {
      hide ByConf, Ids, Restrict, MergeAll, Gather;
      if state == Gop || state == Gtrans {
        failed := true;
        return;
      }
      if n.rep == sync[0] {
        own := own || n.last;
      } else {
        Enter(n);
      }
      if n.last {
        count := count + |n.sset|;
      }
      if count != |reg| { return; }
      MergeGathered(false);
      if failed { return; }
      own, count := false, 0;
      if state == Ggather {
        state := Gop;
      } else {
        state := Gop;
        HandleTrans(trans);
      }
    }

    /** Finds the representative's entry or adds one. */
    method Enter(n: Note)
      requires Valid() && ByConf(conf, n.sset)
      modifies `reps
      ensures Valid() && reps == Gather(old(reps), n)
    {
      for k := 0 to |reps|
        invariant reps == old(reps) && forall l :: 0 <= l < k ==> reps[l].id != n.rep
      {
        if reps[k].id == n.rep {
          MarkFound(reps, n, k);
          reps := reps[k := reps[k].(complete := reps[k].complete || n.last)];
          return;
        }
      }
      reps := [Rep(n.rep, n.last, n.sset)] + reps;
    }
  }

  lemma {:induction false} MarkFound(reps: seq<Rep>, n: Note, k: nat)
    requires k < |reps| && reps[k].id == n.rep && forall l :: 0 <= l < k ==> reps[l].id != n.rep
    ensures Mark(reps, n) == reps[k := reps[k].(complete := reps[k].complete || n.last)]
    decreases |reps|
  {
    if k > 0 {
      var e := reps[k].(complete := reps[k].complete || n.last);
      assert reps[1..][k - 1] == reps[k];
      MarkFound(reps[1..], n, k - 1);
      assert reps[k := e] == [reps[0]] + reps[1..][k - 1 := e];
    } else {
      assert reps == [reps[0]] + reps[1..];
    }
  }
}
