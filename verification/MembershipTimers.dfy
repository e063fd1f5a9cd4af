/** The membership protocol's states, its token flag and its timers.

What a message says and how lists compare are the arguments of the events: whether the sender belongs to
the daemon's (future) membership, whether the daemon leads its ring, and so on. */
module MembershipTimers {

  datatype State = OP | SEG | REPRESENTED | GATHER | FORM | EVS

  /** The timed events; queueing one again replaces the one that is pending. */
  datatype Timer = TokenLoss | TokenHurry | ScastAlive | SendJoin | FormOrFail | GatherOrRepresented | ShiftToSeg | Lookup

  /** `started` are the timers that the present event has queued, whether they were pending before or not. `bug` records
      that an alarm of Memb_token_loss went off. */
  datatype Memb = Memb(state: State, alive: bool, pending: set<Timer>, started: set<Timer>, bug: bool)

  // ---- The protocol's building blocks ----

  function Queue(m: Memb, ts: set<Timer>): Memb { m.(pending := m.pending + ts, started := m.started + ts) }

  function Dequeue(m: Memb, ts: set<Timer>): Memb { m.(pending := m.pending - ts, started := m.started - ts) }

  function ToSeg(m: Memb): Memb { Queue(m.(state := SEG), {ScastAlive, GatherOrRepresented}) }

  function LoseToken(m: Memb): Memb {
    if m.state in {SEG, REPRESENTED} || (m.state == GATHER && !m.alive) then m.(bug := true)
    else ToSeg(Dequeue(m.(alive := false), {TokenLoss, SendJoin, FormOrFail, TokenHurry, Lookup}))
  }

  function ToGather(m: Memb): Memb {
    Queue(Dequeue(m.(state := GATHER), {ScastAlive, Lookup}), {SendJoin, FormOrFail})
  }

  function ToRepresented(m: Memb): Memb {
    Queue(Dequeue(m.(state := REPRESENTED), {ScastAlive, GatherOrRepresented}), {ShiftToSeg})
  }

  function BackToOp(m: Memb): Memb { Queue(Dequeue(m.(state := OP), {SendJoin}), {Lookup}) }

  function CreateForm1(m: Memb): Memb {
    Queue(Dequeue(m.(state := FORM, alive := false), {SendJoin, TokenHurry}), {TokenLoss})
  }

  function FillForm1(m: Memb): Memb {
    Queue(Dequeue(m.(state := FORM, alive := false), {SendJoin, FormOrFail, ShiftToSeg, TokenHurry}), {TokenLoss})
  }

  function ReadForm2(m: Memb): Memb { Queue(m.(state := EVS, alive := true), {TokenLoss}) }

  function Install(m: Memb, leader: bool): Memb { Queue(m.(state := OP), if leader then {Lookup} else {}) }

  function LookupMembers(m: Memb, missing: bool): Memb {
    if m.state == OP && missing then ToGather(m) else m
  }

  /** A sign of life from the ring puts off the loss of the token. */
  function KeepToken(m: Memb, leader: bool): Memb {
    Queue(m, {TokenLoss} + if leader then {TokenHurry} else {})
  }

  // ---- Events ----

  datatype Event =
    | AliveMessage(mine: bool)                               // the sender is in my (future) membership
    | JoinMessage(mine: bool, leader: bool, many: bool, represents: bool, smallest: bool)
    | ForeignMessage(leader: bool, missing: bool)
    | Form1(leader: bool, valid: bool)
    | Form2(valid: bool)
    | Packet(leader: bool)                                   // a packet of my ring
    | Token(leader: bool, installs: bool, tooManyRounds: bool)
    | HurryRequest(leader: bool, hold: bool)
    | Reload
    | Fire(t: Timer, smallest: bool, alone: bool, leader: bool, missing: bool)

  predicate Enabled(m: Memb, e: Event) {
    match e
    case Fire(t, _, _, _, _) => t in m.pending
    case _ => true
  }

  function HandleAlive(m: Memb, mine: bool): Memb {
    match m.state
    case OP => if mine then LoseToken(m) else m
    case SEG => m
    case REPRESENTED => Queue(m, {ShiftToSeg})
    case GATHER => if m.alive && mine then LoseToken(m) else m
    case FORM => m
    case EVS => if mine then LoseToken(m) else m
  }

  /** `represents`: the sender represents my segment; `smallest`: it is my smallest representative. */
  function HandleJoin(m: Memb, mine: bool, leader: bool, many: bool, represents: bool, smallest: bool): Memb {
    match m.state
    case OP => if !mine then (if leader then ToGather(m) else m) else if many then LoseToken(m) else m
    case SEG => if represents then ToRepresented(m) else m
    case REPRESENTED => if represents then Queue(m, {ShiftToSeg}) else m
    case GATHER => if smallest then Queue(m, {FormOrFail}) else m
    case FORM => m
    case EVS => if mine then LoseToken(m) else m
  }

  function HandleForm1(m: Memb, leader: bool, valid: bool): Memb {
    match m.state
    case OP => if !leader && valid then FillForm1(m) else m
    case REPRESENTED => if valid then FillForm1(m) else m
    case GATHER => if valid then FillForm1(m) else m
    case _ => m
  }

  /** A token of my ring: swallowed when mine is lost; in EVS it may pass the barrier. */
  function HandleToken(m: Memb, leader: bool, installs: bool, tooManyRounds: bool): Memb {
    if !m.alive then m
    else
      var kept := KeepToken(m, leader);
      var after := if m.state == EVS && installs then Install(kept, leader) else kept;
      if after.state == EVS && tooManyRounds then LoseToken(after) else after
  }

  function FireTimer(m: Memb, t: Timer, smallest: bool, alone: bool, leader: bool, missing: bool): Memb {
    var n := Dequeue(m, {t});
    match t
    case TokenLoss => LoseToken(n)
    case TokenHurry => if leader then Queue(n, {TokenHurry}) else n
    case ScastAlive => Queue(n, {ScastAlive})
    case SendJoin => Queue(n, {SendJoin})
    case FormOrFail =>
      if smallest then if n.alive && alone then BackToOp(n) else CreateForm1(n)
      else if n.alive then BackToOp(n)
      else ToGather(n)
    case GatherOrRepresented => if smallest then ToGather(n) else ToRepresented(n)
    case ShiftToSeg => ToSeg(n)
    case Lookup => LookupMembers(n, missing)
  }

  function Handle(m: Memb, e: Event): Memb
    requires Enabled(m, e)
  {
    match e
    case AliveMessage(mine) => HandleAlive(m, mine)
    case JoinMessage(mine, leader, many, represents, smallest) => HandleJoin(m, mine, leader, many, represents, smallest)
    case ForeignMessage(leader, missing) => if m.state == OP && leader then LookupMembers(m, missing) else m
    case Form1(leader, valid) => HandleForm1(m, leader, valid)
    case Form2(valid) => if m.state == FORM && valid then ReadForm2(m) else m
    case Packet(leader) => if m.alive then KeepToken(m, leader) else m
    case Token(leader, installs, tooManyRounds) => HandleToken(m, leader, installs, tooManyRounds)
    case HurryRequest(leader, hold) =>
      // only a leader in OP, or in GATHER with its token alive, can be holding the token
      if leader && hold && (m.state == OP || (m.state == GATHER && m.alive)) then Queue(m, {TokenHurry}) else m
    case Reload => if m.state == OP then Queue(m, {TokenLoss}) else m
    case Fire(t, smallest, alone, leader, missing) => FireTimer(m, t, smallest, alone, leader, missing)
  }

  function Next(m: Memb, e: Event): Memb
    requires Enabled(m, e)
  {
    Handle(m.(started := {}), e)
  }

  /** Memb_init calls Memb_token_loss in OP without a token. */
  function Start(): Memb { LoseToken(Memb(OP, false, {}, {}, false)) }

  predicate ValidRun(m: Memb, es: seq<Event>)
    decreases |es|
  {
    es == [] || (Enabled(m, es[0]) && ValidRun(Next(m, es[0]), es[1..]))
  }

  function Run(m: Memb, es: seq<Event>): Memb
    requires ValidRun(m, es)
    decreases |es|
  {
    if es == [] then m else Run(Next(m, es[0]), es[1..])
  }

  // ---- What holds in every run ----

  /** The timers that must be pending in a state: the one that ends it, and the periodic sender. */
  function Always(state: State, alive: bool): set<Timer> {
    match state
    case OP => {TokenLoss}
    case SEG => {ScastAlive, GatherOrRepresented}
    case REPRESENTED => {ShiftToSeg}
    case GATHER => {SendJoin, FormOrFail} + if alive then {TokenLoss} else {}
    case FORM => {TokenLoss}
    case EVS => {TokenLoss}
  }

  /** The timers that may be pending besides. */
  function Sometimes(state: State, alive: bool): set<Timer> {
    match state
    case OP => {TokenHurry, Lookup}
    case SEG => {}
    case REPRESENTED => {}
    case GATHER => if alive then {TokenHurry} else {}
    case FORM => {Lookup}
    case EVS => {TokenHurry, Lookup}
  }

  /** In which states the token can be alive, and in which it must be. */
  predicate TokenFits(state: State, alive: bool) {
    (alive ==> state in {OP, GATHER, EVS}) && (state in {OP, EVS} ==> alive)
  }

  predicate Inv(m: Memb) {
    && !m.bug && TokenFits(m.state, m.alive) && m.started <= m.pending
    && Always(m.state, m.alive) <= m.pending <= Always(m.state, m.alive) + Sometimes(m.state, m.alive)
  }

  lemma NextInv(m: Memb, e: Event)
    requires Inv(m) && Enabled(m, e)
    ensures Inv(Next(m, e))
  {
    var n := m.(started := {});
    match e
    case Fire(t, smallest, alone, leader, missing) => FireInv(n, t, smallest, alone, leader, missing);
    case AliveMessage(mine) => AliveInv(n, mine);
    case JoinMessage(mine, leader, many, represents, smallest) => JoinInv(n, mine, leader, many, represents, smallest);
    case Form1(leader, valid) => Form1Inv(n, leader, valid);
    case Token(leader, installs, tooManyRounds) => TokenInv(n, leader, installs, tooManyRounds);
    case _ => RestInv(n, e);
  }

  lemma FireInv(m: Memb, t: Timer, smallest: bool, alone: bool, leader: bool, missing: bool)
    requires Inv(m) && t in m.pending
    ensures Inv(FireTimer(m, t, smallest, alone, leader, missing))
  {}

  lemma AliveInv(m: Memb, mine: bool)
    requires Inv(m)
    ensures Inv(HandleAlive(m, mine))
  {}

  lemma JoinInv(m: Memb, mine: bool, leader: bool, many: bool, represents: bool, smallest: bool)
    requires Inv(m)
    ensures Inv(HandleJoin(m, mine, leader, many, represents, smallest))
  {}

  lemma Form1Inv(m: Memb, leader: bool, valid: bool)
    requires Inv(m)
    ensures Inv(HandleForm1(m, leader, valid))
  {}

  lemma TokenInv(m: Memb, leader: bool, installs: bool, tooManyRounds: bool)
    requires Inv(m)
    ensures Inv(HandleToken(m, leader, installs, tooManyRounds))
  {}

  lemma RestInv(m: Memb, e: Event)
    requires Inv(m) && (e.ForeignMessage? || e.Form2? || e.Packet? || e.HurryRequest? || e.Reload?)
    ensures Inv(Handle(m, e))
  {}

  /** In every run, whatever messages arrive and whenever timers fire: Memb_token_loss never finds the daemon
      in a state it calls a bug; the token is alive only in OP, GATHER and EVS, and always in OP and EVS;
      every timer is pending only in its own states; and every state has the timer pending that ends it, so a
      daemon that hears nothing more never stays where it is. */
  lemma {:induction false} EveryRun(m: Memb, es: seq<Event>)
    requires Inv(m) && ValidRun(m, es)
    ensures Inv(Run(m, es))
    decreases |es|
  {
    if es != [] {
      NextInv(m, es[0]);
      EveryRun(Next(m, es[0]), es[1..]);
    }
  }

  lemma RunsFromStart(es: seq<Event>)
    requires ValidRun(Start(), es)
    ensures Inv(Run(Start(), es))
  {
    EveryRun(Start(), es);
  }

  /** The same, timer by timer. */
  lemma TimersInTheirStates(es: seq<Event>, t: Timer)
    requires ValidRun(Start(), es) && t in Run(Start(), es).pending
    ensures var m := Run(Start(), es);
            match t
            case TokenLoss => m.alive || m.state == FORM
            case TokenHurry => m.alive
            case ScastAlive => m.state == SEG
            case SendJoin => m.state == GATHER
            case FormOrFail => m.state == GATHER
            case GatherOrRepresented => m.state == SEG
            case ShiftToSeg => m.state == REPRESENTED
            case Lookup => m.state in {OP, FORM, EVS}
    ensures Run(Start(), es).alive || Run(Start(), es).state == FORM ==> TokenLoss in Run(Start(), es).pending
  {
    RunsFromStart(es);
  }

  // ---- The transitions, event by event ----

  /** The token is given up for lost: the loss timer fires, too many rounds went by in recovery, or a member of the ring
      turns out not to be in it any more, because it is alone or gathers. A JOIN counts only in a configuration of more
      than one segment, and during recovery. */
  predicate Lost(m: Memb, e: Event) {
    match e
    case Fire(t, _, _, _, _) => t == TokenLoss
    case AliveMessage(mine) => m.alive && mine
    case JoinMessage(mine, _, many, _, _) => mine && (m.state == EVS || (m.state == OP && many))
    case Token(_, installs, tooManyRounds) => m.state == EVS && !installs && tooManyRounds
    case _ => false
  }

  /** The daemon answers a FORM1 token, which a leader in OP never does. */
  predicate Answers(m: Memb, e: Event) {
    e.Form1? && e.valid && (m.state in {REPRESENTED, GATHER} || (m.state == OP && !e.leader))
  }

  /** A gathering daemon's time is up: it creates FORM1, goes back to its ring, or gathers again. */
  predicate Creates(m: Memb, e: Event) {
    e.Fire? && e.t == FormOrFail && e.smallest && !(m.alive && e.alone)
  }

  predicate GoesBack(m: Memb, e: Event) {
    e.Fire? && e.t == FormOrFail && m.alive && (e.smallest ==> e.alone)
  }

  predicate GathersAgain(m: Memb, e: Event) {
    e.Fire? && e.t == FormOrFail && !m.alive && !e.smallest
  }

  /** A ring leader hears of daemons outside of its ring, or looks for them. */
  predicate LooksOutside(m: Memb, e: Event) {
    m.state == OP &&
    match e
    case JoinMessage(mine, leader, _, _, _) => !mine && leader
    case ForeignMessage(leader, missing) => leader && missing
    case Fire(t, _, _, _, missing) => t == Lookup && missing
    case _ => false
  }

  /** Every change of state, from any state that a run can reach. */
  lemma Transitions(m: Memb, e: Event)
    requires Inv(m) && Enabled(m, e)
    ensures var n := Next(m, e);
            && (m.state != SEG ==> (n.state == SEG <==> Lost(m, e) || (e.Fire? && e.t == ShiftToSeg)))
            && (m.state != FORM ==> (n.state == FORM <==> Answers(m, e) || Creates(m, e)))
            && (m.state != EVS ==> (n.state == EVS <==> m.state == FORM && e == Form2(true)))
            && (m.state != OP ==> (n.state == OP <==> GoesBack(m, e) || (m.state == EVS && e.Token? && e.installs)))
            && (m.state != GATHER ==>
                  (n.state == GATHER <==> LooksOutside(m, e) || (e.Fire? && e.t == GatherOrRepresented && e.smallest)))
            && (m.state != REPRESENTED ==>
                  (n.state == REPRESENTED <==>
                   m.state == SEG && ((e.JoinMessage? && e.represents) || (e.Fire? && e.t == GatherOrRepresented && !e.smallest))))
  {}

  /** The token dies when it is lost or a FORM1 token takes its place, and comes alive only with FORM2. */
  lemma TokenLives(m: Memb, e: Event)
    requires Inv(m) && Enabled(m, e)
    ensures m.alive ==> (!Next(m, e).alive <==> Lost(m, e) || Answers(m, e) || Creates(m, e))
    ensures !m.alive ==> (Next(m, e).alive <==> m.state == FORM && e == Form2(true))
  {}

  /** What queues a timer, anew or again: each is put off by exactly these events. */
  predicate Queues(m: Memb, e: Event, t: Timer) {
    match t
    case TokenLoss =>
      Answers(m, e) || Creates(m, e) || (m.state == FORM && e == Form2(true)) || (m.state == OP && e.Reload?)
      || (m.alive && (e.Packet? || e.Token?) && !Lost(m, e))
    case TokenHurry =>
      || (m.alive && ((e.Packet? && e.leader) || (e.Token? && e.leader)) && !Lost(m, e))
      || (m.alive && m.state != EVS && e.HurryRequest? && e.leader && e.hold)
      || (e.Fire? && e.t == TokenHurry && e.leader)
    case ScastAlive => Lost(m, e) || (e.Fire? && e.t in {ScastAlive, ShiftToSeg})
    case GatherOrRepresented => Lost(m, e) || (e.Fire? && e.t == ShiftToSeg)
    case ShiftToSeg =>
      || (m.state == REPRESENTED && (e.AliveMessage? || (e.JoinMessage? && e.represents)))
      || (m.state == SEG && ((e.JoinMessage? && e.represents) || (e.Fire? && e.t == GatherOrRepresented && !e.smallest)))
    case SendJoin => Gathers(m, e) || (e.Fire? && e.t == SendJoin)
    case FormOrFail => Gathers(m, e) || (m.state == GATHER && e.JoinMessage? && e.smallest)
    case Lookup => GoesBack(m, e) || (m.state == EVS && e.Token? && e.installs && e.leader)
  }

  predicate Gathers(m: Memb, e: Event) {
    LooksOutside(m, e) || GathersAgain(m, e) || (e.Fire? && e.t == GatherOrRepresented && e.smallest)
  }

  lemma TimersQueued(m: Memb, e: Event, t: Timer)
    requires Inv(m) && Enabled(m, e)
    ensures t in Next(m, e).started <==> Queues(m, e, t)
  {
    if e.Fire? && e.t in {FormOrFail, GatherOrRepresented, Lookup} {
      EndingQueue(m, e, t);
    } else if e.Fire? {
      FiredQueue(m, e, t);
    } else if e.AliveMessage? || e.JoinMessage? || e.ForeignMessage? {
      HeardQueue(m, e, t);
    } else {
      ArrivedQueue(m, e, t);
    }
  }

  lemma EndingQueue(m: Memb, e: Event, t: Timer)
    requires Inv(m) && Enabled(m, e) && e.Fire? && e.t in {FormOrFail, GatherOrRepresented, Lookup}
    ensures t in Next(m, e).started <==> Queues(m, e, t)
  {}

  lemma FiredQueue(m: Memb, e: Event, t: Timer)
    requires Inv(m) && Enabled(m, e) && e.Fire? && e.t !in {FormOrFail, GatherOrRepresented, Lookup}
    ensures t in Next(m, e).started <==> Queues(m, e, t)
  {}

  lemma HeardQueue(m: Memb, e: Event, t: Timer)
    requires Inv(m) && Enabled(m, e) && (e.AliveMessage? || e.JoinMessage? || e.ForeignMessage?)
    ensures t in Next(m, e).started <==> Queues(m, e, t)
  {}

  lemma ArrivedQueue(m: Memb, e: Event, t: Timer)
    requires Inv(m) && Enabled(m, e) && !e.Fire? && !e.AliveMessage? && !e.JoinMessage? && !e.ForeignMessage?
    ensures t in Next(m, e).started <==> Queues(m, e, t)
  {}

  /** What ends a pending timer besides its own firing: leaving the states it belongs to. */
  predicate Ends(m: Memb, e: Event, t: Timer, state: State) {
    (e.Fire? && e.t == t) ||
    match t
    case TokenLoss => Lost(m, e)
    case TokenHurry => Lost(m, e) || state == FORM
    case Lookup => Lost(m, e) || state == GATHER
    case _ => state != m.state
  }

  lemma TimersEnded(m: Memb, e: Event, t: Timer)
    requires Inv(m) && Enabled(m, e) && t in m.pending
    ensures t !in Next(m, e).pending <==> !Queues(m, e, t) && Ends(m, e, t, Next(m, e).state)
  {
    TimersQueued(m, e, t);
    NextInv(m, e);
    hide Queues;
    if e.Fire? {
      FiredEnds(m, e, t);
    } else {
      ArrivedEnds(m, e, t);
    }
  }

  lemma FiredEnds(m: Memb, e: Event, t: Timer)
    requires Inv(m) && Enabled(m, e) && t in m.pending && e.Fire?
    ensures t !in Next(m, e).pending <==> t !in Next(m, e).started && Ends(m, e, t, Next(m, e).state)
  {}

  lemma ArrivedEnds(m: Memb, e: Event, t: Timer)
    requires Inv(m) && Enabled(m, e) && t in m.pending && !e.Fire?
    ensures t !in Next(m, e).pending <==> t !in Next(m, e).started && Ends(m, e, t, Next(m, e).state)
  {}
}
