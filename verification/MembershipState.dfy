/** The membership protocol's handlers as they run, updating its state, token flag and timers. */
module MembershipState {
  import opened MembershipTimers

  class Membership {
    var state: State
    var alive: bool
    var pending: set<Timer>
    var started: set<Timer>
    var bug: bool

    function Model(): Memb
      reads this
    {
      Memb(state, alive, pending, started, bug)
    }

    /** Memb_init. */
    constructor ()
      ensures Model() == Start() && Inv(Model())
    {
      state, alive, pending, started, bug := OP, false, {}, {}, false;
      new;
      LoseToken();
    }

    method Queue(t: Timer)
      modifies `pending, `started
      ensures pending == old(pending) + {t} && started == old(started) + {t}
    {
      pending, started := pending + {t}, started + {t};
    }

    method Dequeue(t: Timer)
      modifies `pending, `started
      ensures pending == old(pending) - {t} && started == old(started) - {t}
    {
      pending, started := pending - {t}, started - {t};
    }

    /** Memb_token_loss. */
    method LoseToken()
      modifies this
      ensures Model() == MembershipTimers.LoseToken(old(Model()))
    {
      match state {
        case SEG => bug := true; return;
        case REPRESENTED => bug := true; return;
        case GATHER =>
          if !alive {
            bug := true;
            return;
          }
        case _ =>
      }
      alive := false;
      Dequeue(TokenLoss);
      Dequeue(SendJoin);
      Dequeue(FormOrFail);
      Dequeue(TokenHurry);
      Dequeue(Lookup);
      assert pending == old(pending) - {TokenLoss, SendJoin, FormOrFail, TokenHurry, Lookup};
      assert started == old(started) - {TokenLoss, SendJoin, FormOrFail, TokenHurry, Lookup};
      ToSeg();
    }

    method ToSeg()
      modifies this
      ensures Model() == MembershipTimers.ToSeg(old(Model()))
    {
      state := SEG;
      Queue(ScastAlive);
      Queue(GatherOrRepresented);
    }

    method ToGather()
      modifies this
      ensures Model() == MembershipTimers.ToGather(old(Model()))
    {
      state := GATHER;
      Dequeue(ScastAlive);
      Dequeue(Lookup);
      Queue(SendJoin);
      Queue(FormOrFail);
    }

    method ToRepresented()
      modifies this
      ensures Model() == MembershipTimers.ToRepresented(old(Model()))
    {
      state := REPRESENTED;
      Dequeue(ScastAlive);
      Dequeue(GatherOrRepresented);
      Queue(ShiftToSeg);
    }

    /** Form_or_fail, on its timer. */
    method FormOrFailEvent(smallest: bool, alone: bool)
      requires FormOrFail in pending
      modifies this
      ensures Model() == FireTimer(old(Model()), FormOrFail, smallest, alone, false, false)
    {
      Dequeue(FormOrFail);
      if smallest {
        if alive && alone {
          Dequeue(SendJoin);
          Queue(Lookup);
          state := OP;
        } else {
          CreateForm1();
        }
      } else if alive {
        Dequeue(SendJoin);
        Queue(Lookup);
        state := OP;
      } else {
        ToGather();
      }
    }

    method CreateForm1()
      modifies this
      ensures Model() == MembershipTimers.CreateForm1(old(Model()))
    {
      Dequeue(SendJoin);
      Queue(TokenLoss);
      Dequeue(TokenHurry);
      alive := false;
      state := FORM;
    }

    /** Memb_handle_form1 and the end of Fill_form1. */
    method HandleForm1(leader: bool, valid: bool)
      modifies this
      ensures Model() == MembershipTimers.HandleForm1(old(Model()), leader, valid)
    {
      match state {
        case OP => if leader || !valid { return; }
        case REPRESENTED => if !valid { return; }
        case GATHER => if !valid { return; }
        case _ => return;
      }
      Dequeue(SendJoin);
      Dequeue(FormOrFail);
      Dequeue(ShiftToSeg);
      Queue(TokenLoss);
      Dequeue(TokenHurry);
      assert pending == old(pending) - {SendJoin, FormOrFail, ShiftToSeg, TokenHurry} + {TokenLoss};
      assert started == old(started) - {SendJoin, FormOrFail, ShiftToSeg, TokenHurry} + {TokenLoss};
      alive := false;
      state := FORM;
    }

    method HandleAlive(mine: bool)
      modifies this
      ensures Model() == MembershipTimers.HandleAlive(old(Model()), mine)
    {
      match state {
        case OP => if mine { LoseToken(); }
        case SEG =>
        case REPRESENTED => Queue(ShiftToSeg);
        case GATHER => if alive && mine { LoseToken(); }
        case FORM =>
        case EVS => if mine { LoseToken(); }
      }
    }

    method HandleJoin(mine: bool, leader: bool, many: bool, represents: bool, smallest: bool)
      modifies this
      ensures Model() == MembershipTimers.HandleJoin(old(Model()), mine, leader, many, represents, smallest)
    {
      match state {
        case OP =>
          if !mine {
            if leader { ToGather(); }
          } else if many {
            LoseToken();
          }
        case SEG => if represents { ToRepresented(); }
        case REPRESENTED => if represents { Queue(ShiftToSeg); }
        case GATHER => if smallest { Queue(FormOrFail); }
        case FORM =>
        case EVS => if mine { LoseToken(); }
      }
    }

    /** What handling a token of the ring does to the membership. */
    method HandleToken(leader: bool, installs: bool, tooManyRounds: bool)
      modifies this
      ensures Model() == MembershipTimers.HandleToken(old(Model()), leader, installs, tooManyRounds)
    {
      if !alive { return; }
      if leader { Queue(TokenHurry); }
      Queue(TokenLoss);
      assert Model() == KeepToken(old(Model()), leader);
      if state == EVS && installs {
        if leader { Queue(Lookup); }
        state := OP;
      }
      if state == EVS && tooManyRounds {
        LoseToken();
      }
    }
  }
}
