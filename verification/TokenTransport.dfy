/** How a daemon tells the current token from copies of old ones.

The token is resent when it seems lost, so any number of copies of it travel at once.  Daemon 0 is
the leader; every copy is marked with a 4-bit ARQ value that the leader raises by one each time it
passes the token on.  The first token of a ring is sent by its last daemon. */
module TokenTransport {

  /** Both marks are 4-bit fields of the token's type. */
  const FIELD_VALUES := 16

  const MAX_AGE := 15

  /** What a daemon keeps of the token it passed on last.  `visit` names that token, -1 being the ring's
      first and anything below -1 that it passed on none yet; no decision looks at it. */
  datatype Daemon = Daemon(arq: int, retrans: int, visit: int)

  /** A copy on the network; `visit` says which passing-on of the token it stems from. */
  datatype Copy = Copy(sender: nat, arq: int, retrans: int, visit: int)

  datatype Verdict = WrongSender | Swallow | ResendMine | Process

  function Predecessor(n: nat, i: nat): int { if i == 0 then n - 1 else i - 1 }

  /** The checks Prot_handle_token makes before it touches any other state. */
  function Judge(n: nat, i: nat, d: Daemon, c: Copy): Verdict {
    if c.sender != Predecessor(n, i) then WrongSender
    else if i == 0 then
      if c.arq != d.arq then Swallow else Process
    else if c.arq == d.arq then
      if c.retrans > d.retrans then ResendMine else Swallow
    else if c.arq != (d.arq + 1) % FIELD_VALUES then Swallow
    else Process
  }

  /** The marks of the token that daemon i passes on after processing copy c. */
  function PassOn(i: nat, c: Copy, visit: int): Daemon {
    if i == 0 then Daemon((c.arq + 1) % FIELD_VALUES, 0, visit) else Daemon(c.arq, c.retrans, visit)
  }

  /** `processed` lists, in order, which daemon processed a token and which visit that token stems from. */
  datatype Ring = Ring(daemons: seq<Daemon>, network: set<Copy>, processed: seq<(nat, int)>)

  function Current(r: Ring): int { |r.processed| - 1 }

  /** The first token is on the network and nobody has processed any. */
  function Start(n: nat): Ring
    requires n > 0
  {
    Ring(seq(n, i requires 0 <= i < n => Daemon(0, 0, i - n)), {Copy(n - 1, 0, 0, -1)}, [])
  }

  function CopyOf(i: nat, d: Daemon): Copy { Copy(i, d.arq, d.retrans, d.visit) }

  function Send(r: Ring, i: nat, d: Daemon): Ring
    requires i < |r.daemons|
  {
    r.(daemons := r.daemons[i := d], network := r.network + {CopyOf(i, d)})
  }

  function Receive(r: Ring, i: nat, c: Copy): Ring
    requires i < |r.daemons|
  {
    match Judge(|r.daemons|, i, r.daemons[i], c)
    case WrongSender => r
    case Swallow => r
    case ResendMine => Send(r, i, r.daemons[i].(retrans := c.retrans))
    case Process => Send(r, i, PassOn(i, c, |r.processed|)).(processed := r.processed + [(i, c.visit)])
  }

  /** A resend on the daemon's own initiative; only the leader raises the retransmission mark. */
  function Hurry(r: Ring, i: nat): Ring
    requires i < |r.daemons|
  {
    var d := r.daemons[i];
    Send(r, i, if i == 0 then d.(retrans := (d.retrans + 1) % FIELD_VALUES) else d)
  }

  datatype Step = Arrive(i: nat, c: Copy) | Resend(i: nat)

  /** No copy older than 15 rotations arrives any more, and only a daemon that passed on a token resends it. */
  predicate Enabled(r: Ring, step: Step) {
    step.i < |r.daemons| &&
    match step
    case Arrive(i, c) => c in r.network && Current(r) - c.visit <= MAX_AGE * |r.daemons|
    case Resend(i) => r.daemons[i].visit >= -1
  }

  function Next(r: Ring, step: Step): Ring
    requires Enabled(r, step)
  {
    match step
    case Arrive(i, c) => Receive(r, i, c)
    case Resend(i) => Hurry(r, i)
  }

  ghost predicate Reachable(r: Ring, steps: nat, n: nat)
    requires n > 0
    decreases steps
  {
    if steps == 0 then r == Start(n)
    else exists before, step :: Reachable(before, steps - 1, n) && Enabled(before, step) && r == Next(before, step)
  }

  // ---- Counting visits ----

  /** Daemon and rotation of a visit: visit k is made by daemon k mod n in rotation k div n. */
  predicate IsVisit(n: nat, k: int, rotation: int, i: nat) {
    i < n && k == rotation * n + i
  }

  lemma Times(n: nat, a: int, b: int)
    requires a <= b
    ensures a * n <= b * n && (b - a) * n == b * n - a * n
  {}

  lemma VisitUnique(n: nat, k: int, q: int, i: nat, p: int, j: nat)
    requires IsVisit(n, k, q, i) && IsVisit(n, k, p, j)
    ensures q == p && i == j
  {
    if q < p {
      Times(n, q + 1, p);
    } else if p < q {
      Times(n, p + 1, q);
    }
  }

  /** A token that stems from visit k carries the ARQ value of its rotation. */
  predicate Stamped(n: nat, i: nat, visit: int, arq: int, rotation: int) {
    IsVisit(n, visit, rotation, i) && arq == (rotation + 1) % FIELD_VALUES
  }

  /** Daemon i's last visit is its latest turn: within one rotation of the current one. */
  ghost predicate Remembers(r: Ring, i: nat)
    requires i < |r.daemons|
  {
    var d := r.daemons[i];
    && Current(r) - |r.daemons| < d.visit <= Current(r)
    && exists q :: q >= -1 && Stamped(|r.daemons|, i, d.visit, d.arq, q)
  }

  ghost predicate Authentic(r: Ring, c: Copy) {
    -1 <= c.visit <= Current(r) && exists q :: Stamped(|r.daemons|, c.sender, c.visit, c.arq, q)
  }

  /** Turn k was taken by daemon k mod n, on the token that the turn before it passed on. */
  ghost predicate InTurn(n: nat, k: nat, turn: (nat, int)) {
    turn.1 == k - 1 && exists q :: IsVisit(n, k, q, turn.0)
  }

  ghost predicate Inv(r: Ring) {
    && |r.daemons| > 0
    && (forall i :: 0 <= i < |r.daemons| ==> Remembers(r, i))
    && (forall c :: c in r.network ==> Authentic(r, c))
    && (forall k :: 0 <= k < |r.processed| ==> InTurn(|r.daemons|, k, r.processed[k]))
  }

  lemma StartInv(n: nat)
    requires n > 0
    ensures Inv(Start(n))
  {
    var r := Start(n);
    forall i | 0 <= i < n ensures Remembers(r, i) {
      assert Stamped(n, i, i - n, 0, -1);
    }
    assert Stamped(n, n - 1, -1, 0, -1);
  }

  /** The visit daemon i waits for, in terms of its own last visit: n - 1 visits later. */
  lemma Awaited(n: nat, i: nat, mine: int, q: int, k: int, p: int)
    requires IsVisit(n, mine, q, i) && IsVisit(n, k, p, Predecessor(n, i))
    ensures var wait := if i == 0 then q else q + 1;
            && (p == wait ==> k == mine + n - 1)
            && (p > wait ==> k >= mine + 2 * n - 1)
            && (p < wait - 15 ==> k <= mine - 15 * n - 1)
  {
    var wait := if i == 0 then q else q + 1;
    Times(n, q, q + 1);
    if p > wait {
      Times(n, wait + 1, p);
    } else if p < wait - 15 {
      Times(n, p, wait - 16);
    }
  }

  lemma SameMark(p: int, wait: int)
    requires wait - 15 <= p <= wait
    ensures (p + 1) % FIELD_VALUES == (wait + 1) % FIELD_VALUES <==> p == wait
  {}

  lemma NextMark(q: int)
    ensures ((q + 1) % FIELD_VALUES + 1) % FIELD_VALUES == (q + 2) % FIELD_VALUES
    ensures (q + 1) % FIELD_VALUES != (q + 2) % FIELD_VALUES
  {}

  /** Daemon i processes a copy exactly when it stems from the latest visit and i's turn is next. */
  lemma ProcessedInTurn(r: Ring, i: nat, c: Copy)
    requires Inv(r) && i < |r.daemons| && c in r.network && Current(r) - c.visit <= MAX_AGE * |r.daemons|
    ensures Judge(|r.daemons|, i, r.daemons[i], c).Process? <==>
            c.visit == Current(r) && c.sender == Predecessor(|r.daemons|, i)
  {
    var n, d := |r.daemons|, r.daemons[i];
    assert Remembers(r, i) && Authentic(r, c);
    var q :| q >= -1 && Stamped(n, i, d.visit, d.arq, q);
    var p :| Stamped(n, c.sender, c.visit, c.arq, p);
    if c.sender == Predecessor(n, i) {
      var wait := if i == 0 then q else q + 1;
      JudgeByRotation(r, i, c, q, p);
      LatestIsAwaited(r, i, c, q, p);
    }
  }

  lemma JudgeByRotation(r: Ring, i: nat, c: Copy, q: int, p: int)
    requires i < |r.daemons| && c.sender == Predecessor(|r.daemons|, i)
    requires Stamped(|r.daemons|, i, r.daemons[i].visit, r.daemons[i].arq, q)
    requires Stamped(|r.daemons|, c.sender, c.visit, c.arq, p)
    requires Current(r) - |r.daemons| < r.daemons[i].visit <= Current(r)
    requires c.visit <= Current(r) && Current(r) - c.visit <= MAX_AGE * |r.daemons|
    ensures Judge(|r.daemons|, i, r.daemons[i], c).Process? <==> p == if i == 0 then q else q + 1
  {
    var wait := if i == 0 then q else q + 1;
    Awaited(|r.daemons|, i, r.daemons[i].visit, q, c.visit, p);
    SameMark(p, wait);
    NextMark(q);
  }

  /** The awaited copy is the latest visit's. */
  lemma LatestIsAwaited(r: Ring, i: nat, c: Copy, q: int, p: int)
    requires i < |r.daemons| && c.sender == Predecessor(|r.daemons|, i)
    requires IsVisit(|r.daemons|, r.daemons[i].visit, q, i)
    requires IsVisit(|r.daemons|, c.visit, p, c.sender)
    requires Current(r) - |r.daemons| < r.daemons[i].visit <= Current(r) && c.visit <= Current(r)
    ensures c.visit == Current(r) <==> p == if i == 0 then q else q + 1
  {
    var n, wait := |r.daemons|, if i == 0 then q else q + 1;
    Awaited(n, i, r.daemons[i].visit, q, c.visit, p);
    Times(n, q, q + 1);
    if p < wait {
      Times(n, p, wait - 1);
    }
  }

  /** Passing on the latest token is the next visit, made by the daemon whose turn it is. */
  lemma PassOnStamped(n: nat, i: nat, c: Copy, p: int)
    requires i < n && c.sender == Predecessor(n, i) && Stamped(n, c.sender, c.visit, c.arq, p)
    ensures var e := PassOn(i, c, c.visit + 1); Stamped(n, i, e.visit, e.arq, if i == 0 then p + 1 else p)
  {
    NextMark(p);
    Times(n, p, p + 1);
  }

  lemma SendInv(r: Ring, i: nat, d: Daemon)
    requires Inv(r) && i < |r.daemons| && -1 <= r.daemons[i].visit == d.visit && r.daemons[i].arq == d.arq
    ensures Inv(Send(r, i, d))
  {
    var s := Send(r, i, d);
    assert Remembers(r, i);
    forall j | 0 <= j < |r.daemons| ensures Remembers(s, j) {
      assert Remembers(r, j);
    }
    forall c | c in s.network ensures Authentic(s, c) {
      if c in r.network { assert Authentic(r, c); }
    }
  }

  lemma ProcessInv(r: Ring, i: nat, c: Copy)
    requires Inv(r) && i < |r.daemons| && c in r.network
    requires c.visit == Current(r) && c.sender == Predecessor(|r.daemons|, i)
    ensures Inv(Send(r, i, PassOn(i, c, |r.processed|)).(processed := r.processed + [(i, c.visit)]))
  {
    var n, e := |r.daemons|, PassOn(i, c, |r.processed|);
    var s := Send(r, i, e).(processed := r.processed + [(i, c.visit)]);
    assert Authentic(r, c);
    var p :| Stamped(n, c.sender, c.visit, c.arq, p);
    var next := if i == 0 then p + 1 else p;
    PassOnStamped(n, i, c, p);
    assert Stamped(n, i, e.visit, e.arq, next);
    RotationAtLeast(n, next, i, e.visit);
    forall j | 0 <= j < n ensures Remembers(s, j) {
      assert Remembers(r, j);
      if j != i {
        StillRecent(n, i, e.visit, next, j, r.daemons[j].visit);
      }
    }
    forall x | x in s.network ensures Authentic(s, x) {
      if x in r.network { assert Authentic(r, x); }
    }
    assert InTurn(n, |r.processed|, (i, c.visit)) by {
      assert IsVisit(n, |r.processed|, next, i);
    }
  }

  lemma RotationAtLeast(n: nat, q: int, i: nat, k: int)
    requires IsVisit(n, k, q, i) && k >= 0
    ensures q >= -1
  {
    if q < -1 { Times(n, q, -2); }
  }

  /** Another daemon's last visit was not exactly one rotation ago. */
  lemma StillRecent(n: nat, i: nat, k: int, q: int, j: nat, other: int)
    requires IsVisit(n, k, q, i) && i != j && k - n <= other < k && j < n
    requires exists p :: IsVisit(n, other, p, j)
    ensures k - n < other
  {
    var p :| IsVisit(n, other, p, j);
    if other == k - n {
      Times(n, q - 1, q);
      VisitUnique(n, other, q - 1, i, p, j);
    }
  }

  /** Which of the predecessor's copies has the mark of the daemon's own last token: the one that token came from. */
  lemma OwnRotation(r: Ring, i: nat, c: Copy)
    requires Inv(r) && 0 < i < |r.daemons| && c in r.network && Current(r) - c.visit <= MAX_AGE * |r.daemons|
    requires c.sender == Predecessor(|r.daemons|, i)
    ensures c.arq == r.daemons[i].arq <==> c.visit + 1 == r.daemons[i].visit
  {
    var n, d := |r.daemons|, r.daemons[i];
    assert Remembers(r, i) && Authentic(r, c);
    var q :| q >= -1 && Stamped(n, i, d.visit, d.arq, q);
    var p :| Stamped(n, c.sender, c.visit, c.arq, p);
    Awaited(n, i, d.visit, q, c.visit, p);
    if c.arq == d.arq {
      SameRotation(p, q);
    }
    if c.visit + 1 == d.visit {
      VisitUnique(n, c.visit, p, c.sender, q, i - 1);
    }
  }

  /** Every verdict, in terms of visits: a copy is refused if it does not come from the predecessor, processed if it is the
      latest visit's, and answered if it is the copy that the daemon's own last token came from with a higher
      retransmission mark than that token has; the leader answers none. */
  lemma Verdicts(r: Ring, i: nat, c: Copy)
    requires Inv(r) && i < |r.daemons| && c in r.network && Current(r) - c.visit <= MAX_AGE * |r.daemons|
    ensures var n, d := |r.daemons|, r.daemons[i]; var verdict := Judge(n, i, d, c);
            && (verdict.WrongSender? <==> c.sender != Predecessor(n, i))
            && (verdict.Process? <==> c.sender == Predecessor(n, i) && c.visit == Current(r))
            && (verdict.ResendMine? <==>
                  i != 0 && c.sender == Predecessor(n, i) && c.visit + 1 == d.visit && c.retrans > d.retrans)
  {
    ProcessedInTurn(r, i, c);
    if i != 0 && c.sender == Predecessor(|r.daemons|, i) {
      OwnRotation(r, i, c);
    }
  }

  /** Being asked leaves a copy of the daemon's own last token with the raised mark, and nothing else changes. */
  lemma AskedToResend(r: Ring, i: nat, c: Copy)
    requires Inv(r) && i < |r.daemons| && c in r.network && Current(r) - c.visit <= MAX_AGE * |r.daemons|
    requires Judge(|r.daemons|, i, r.daemons[i], c).ResendMine?
    ensures var d := r.daemons[i];
            && d.visit == c.visit + 1 && c.retrans > d.retrans
            && Next(r, Arrive(i, c)) == Ring(r.daemons[i := Daemon(d.arq, c.retrans, d.visit)],
                                             r.network + {Copy(i, d.arq, c.retrans, d.visit)}, r.processed)
  {
    Verdicts(r, i, c);
  }

  /** Processing a copy leaves one new copy, of the next visit and with that visit's ARQ value; the leader starts the
      retransmission mark again, the others pass it on. Any other copy that is not answered changes nothing. */
  lemma PassesOn(r: Ring, i: nat, c: Copy)
    requires Inv(r) && i < |r.daemons| && c in r.network && Current(r) - c.visit <= MAX_AGE * |r.daemons|
    ensures var n := |r.daemons|; var verdict := Judge(n, i, r.daemons[i], c); var s := Next(r, Arrive(i, c));
            if verdict.Process? then
              var m := s.daemons[i];
              && s.network == r.network + {Copy(i, m.arq, m.retrans, m.visit)} && s.processed == r.processed + [(i, c.visit)]
              && m.visit == Current(r) + 1 == Current(s) && m.retrans == (if i == 0 then 0 else c.retrans)
              && (exists q :: Stamped(n, i, m.visit, m.arq, q))
              && (forall j :: 0 <= j < n && j != i ==> s.daemons[j] == r.daemons[j])
            else verdict.ResendMine? || s == r
  {
    Verdicts(r, i, c);
    if Judge(|r.daemons|, i, r.daemons[i], c).Process? {
      assert Authentic(r, c);
      var p :| Stamped(|r.daemons|, c.sender, c.visit, c.arq, p);
      PassOnStamped(|r.daemons|, i, c, p);
    }
  }

  lemma SameRotation(p: int, q: int)
    requires q - 14 <= p <= q + 1 && (p + 1) % FIELD_VALUES == (q + 1) % FIELD_VALUES
    ensures p == q
  {}

  lemma NextInv(r: Ring, step: Step)
    requires Inv(r) && Enabled(r, step)
    ensures Inv(Next(r, step))
  {
    var i := step.i;
    assert Remembers(r, i);
    match step
    case Resend(_) =>
      var d := r.daemons[i];
      SendInv(r, i, if i == 0 then d.(retrans := (d.retrans + 1) % FIELD_VALUES) else d);
    case Arrive(_, c) =>
      ProcessedInTurn(r, i, c);
      var verdict := Judge(|r.daemons|, i, r.daemons[i], c);
      if verdict.Process? {
        ProcessInv(r, i, c);
      } else if verdict.ResendMine? {
        AskedToResend(r, i, c);
        SendInv(r, i, r.daemons[i].(retrans := c.retrans));
      }
  }

  lemma {:induction false} RunInv(r: Ring, steps: nat, n: nat)
    requires n > 0 && Reachable(r, steps, n)
    ensures Inv(r) && |r.daemons| == n
    decreases steps
  {
    if steps == 0 {
      StartInv(n);
    } else {
      var before, step :| Reachable(before, steps - 1, n) && Enabled(before, step) && r == Next(before, step);
      RunInv(before, steps - 1, n);
      NextInv(before, step);
    }
  }

  /** In every run, whatever is lost, duplicated or delayed for up to 15 rotations, the tokens are processed
      once each and in order: turn k is taken by daemon k mod n, on the token that turn k - 1 passed on. */
  lemma ProcessedOnceInOrder(r: Ring, steps: nat, n: nat)
    requires n > 0 && Reachable(r, steps, n)
    ensures forall k :: 0 <= k < |r.processed| ==> r.processed[k] == (k % n, k - 1)
  {
    RunInv(r, steps, n);
    hide Reachable;
    forall k | 0 <= k < |r.processed| ensures r.processed[k] == (k % n, k - 1) {
      TurnOf(n, k, r.processed[k]);
    }
  }

  lemma TurnOf(n: nat, k: nat, turn: (nat, int))
    requires n > 0 && InTurn(n, k, turn)
    ensures turn == (k % n, k - 1)
  {
    var q :| IsVisit(n, k, q, turn.0);
    VisitUnique(n, k, q, turn.0, k / n, k % n);
  }

  /** Every token that was ever passed on still has a copy on the network. */
  ghost predicate AllCopies(r: Ring) {
    forall v :: -1 <= v <= Current(r) ==> HasCopy(r, v)
  }

  ghost predicate HasCopy(r: Ring, visit: int) {
    exists c :: c in r.network && c.visit == visit
  }

  /** Whose copy a visit left behind. */
  lemma SenderOf(n: nat, c: Copy, k: nat)
    requires n > 0 && c.visit == k - 1 && exists q :: Stamped(n, c.sender, c.visit, c.arq, q)
    ensures c.sender == Predecessor(n, k % n)
  {
    var q :| Stamped(n, c.sender, c.visit, c.arq, q);
    var i := k % n;
    var p := if i == 0 then k / n - 1 else k / n;
    Times(n, k / n - 1, k / n);
    VisitUnique(n, k - 1, q, c.sender, p, Predecessor(n, i));
  }

  /** Any number of turns can be taken without a copy disappearing. */
  lemma {:induction false} TurnsTaken(n: nat, k: nat) returns (r: Ring)
    requires n > 0
    ensures Reachable(r, k, n) && |r.processed| == k && AllCopies(r)
    decreases k
  {
    if k == 0 {
      r := Start(n);
      assert HasCopy(r, -1) by { assert Copy(n - 1, 0, 0, -1) in r.network; }
    } else {
      var before := TurnsTaken(n, k - 1);
      RunInv(before, k - 1, n);
      assert HasCopy(before, Current(before));
      var c :| c in before.network && c.visit == Current(before);
      var i := (k - 1) % n;
      assert Authentic(before, c);
      SenderOf(n, c, k - 1);
      ProcessedInTurn(before, i, c);
      r := Next(before, Arrive(i, c));
      forall v | -1 <= v <= Current(r) ensures HasCopy(r, v) {
        if v <= Current(before) {
          assert HasCopy(before, v);
          var x :| x in before.network && x.visit == v;
          assert x in r.network;
        } else {
          assert CopyOf(i, PassOn(i, c, k - 1)) in r.network;
        }
      }
    }
  }

  /** With 16 marks no later arrival can be allowed: in every ring of two or more there is a run after which a copy that
      is one visit older than 15 rotations is still under way, carries the awaited mark again and would be
      processed a second time. */
  lemma AgeBoundIsTight(n: nat) returns (r: Ring, c: Copy)
    requires n >= 2
    ensures Reachable(r, MAX_AGE * n + 2, n) && |r.daemons| == n && c in r.network
    ensures |r.processed| == MAX_AGE * n + 2 && Current(r) - c.visit == MAX_AGE * n + 1
    ensures r.processed[1] == (1, c.visit) && Judge(n, 1, r.daemons[1], c).Process?
  {
    r := TurnsTaken(n, MAX_AGE * n + 2);
    RunInv(r, MAX_AGE * n + 2, n);
    ProcessedOnceInOrder(r, MAX_AGE * n + 2, n);
    hide Reachable;
    assert HasCopy(r, 0);
    c :| c in r.network && c.visit == 0;
    OldCopyAccepted(r, n, c);
    TurnIsOne(n);
  }

  lemma TurnIsOne(n: nat)
    requires n >= 2
    ensures 1 % n == 1
  {}

  lemma OldCopyAccepted(r: Ring, n: nat, c: Copy)
    requires n >= 2 && Inv(r) && |r.daemons| == n && |r.processed| == MAX_AGE * n + 2
    requires c in r.network && c.visit == 0
    ensures Judge(n, 1, r.daemons[1], c).Process?
  {
    assert Authentic(r, c) && Remembers(r, 1);
    var p :| Stamped(n, c.sender, c.visit, c.arq, p);
    VisitUnique(n, 0, p, c.sender, 0, 0);
    var d := r.daemons[1];
    var q :| Stamped(n, 1, d.visit, d.arq, q);
    if q < MAX_AGE {
      Times(n, q + 1, MAX_AGE);
    } else if q > MAX_AGE {
      Times(n, MAX_AGE + 1, q);
    }
  }

  // ---- Hurrying the token ----

  ghost predicate ValidRun(r: Ring, steps: seq<Step>)
    decreases |steps|
  {
    steps == [] || (Enabled(r, steps[0]) && ValidRun(Next(r, steps[0]), steps[1..]))
  }

  ghost function Run(r: Ring, steps: seq<Step>): Ring
    requires ValidRun(r, steps)
    decreases |steps|
  {
    if steps == [] then r else Run(Next(r, steps[0]), steps[1..])
  }

  /** As long as a daemon other than the leader keeps a token, it only raises its mark. */
  lemma MarkRises(r: Ring, step: Step, i: nat)
    requires Inv(r) && Enabled(r, step) && 0 < i < |r.daemons|
    ensures var d, e := r.daemons[i], Next(r, step).daemons[i];
            d.visit <= e.visit && (d.visit == e.visit ==> e.arq == d.arq && d.retrans <= e.retrans)
  {
    assert Remembers(r, i);
    if step.Arrive? && step.i == i && Judge(|r.daemons|, i, r.daemons[i], step.c).ResendMine? {
      AskedToResend(r, i, step.c);
    }
  }

  lemma {:induction false} MarkRisesInRun(r: Ring, steps: seq<Step>, i: nat)
    requires Inv(r) && ValidRun(r, steps) && 0 < i < |r.daemons|
    ensures |Run(r, steps).daemons| == |r.daemons|
    ensures var d, e := r.daemons[i], Run(r, steps).daemons[i];
            d.visit <= e.visit && (d.visit == e.visit ==> e.arq == d.arq && d.retrans <= e.retrans)
    decreases |steps|
  {
    hide Inv, Next, Enabled;
    if steps != [] {
      MarkRises(r, steps[0], i);
      NextInv(r, steps[0]);
      SameSize(r, steps[0]);
      MarkRisesInRun(Next(r, steps[0]), steps[1..], i);
    }
  }

  lemma SameSize(r: Ring, step: Step)
    requires Enabled(r, step)
    ensures |Next(r, step).daemons| == |r.daemons|
  {}

  /** A daemon answers each mark once: after any run in which it has not passed on a later token, no copy of the same
      token with that mark or a lower one is answered. */
  lemma AnsweredOnce(r: Ring, i: nat, c: Copy, steps: seq<Step>, again: Copy)
    requires Inv(r) && i < |r.daemons| && Enabled(r, Arrive(i, c)) && Judge(|r.daemons|, i, r.daemons[i], c).ResendMine?
    requires ValidRun(Next(r, Arrive(i, c)), steps)
    requires i < |Run(Next(r, Arrive(i, c)), steps).daemons|
    requires Run(Next(r, Arrive(i, c)), steps).daemons[i].visit == r.daemons[i].visit
    requires again.arq == c.arq && again.retrans <= c.retrans
    ensures !Judge(|r.daemons|, i, Run(Next(r, Arrive(i, c)), steps).daemons[i], again).ResendMine?
  {
    AskedToResend(r, i, c);
    NextInv(r, Arrive(i, c));
    hide Inv;
    MarkRisesInRun(Next(r, Arrive(i, c)), steps, i);
  }

  /** The retransmission mark has not been raised around its field for the leader's last token: nobody has a higher one. */
  ghost predicate Unwrapped(r: Ring) {
    && |r.daemons| > 0
    && (forall i :: 0 < i < |r.daemons| && r.daemons[i].visit > r.daemons[0].visit ==> r.daemons[i].retrans <= r.daemons[0].retrans)
    && (forall c :: c in r.network && c.visit >= r.daemons[0].visit ==> c.retrans <= r.daemons[0].retrans)
  }

  lemma StartUnwrapped(n: nat)
    requires n > 0
    ensures Unwrapped(Start(n))
  {}

  lemma RaisedMark(mark: int)
    requires mark < FIELD_VALUES - 1
    ensures (mark + 1) % FIELD_VALUES >= mark + 1 && (mark >= 0 ==> (mark + 1) % FIELD_VALUES == mark + 1)
  {}

  /** Sending a token again keeps it so, if the mark does not fall and is not above the leader's. */
  lemma SendUnwrapped(r: Ring, i: nat, d: Daemon)
    requires Unwrapped(r) && i < |r.daemons| && d.visit == r.daemons[i].visit
    requires if i == 0 then d.retrans >= r.daemons[0].retrans
             else d.visit < r.daemons[0].visit || d.retrans <= r.daemons[0].retrans
    ensures Unwrapped(Send(r, i, d))
  {}

  /** Passing a token on: every other token is older than the leader's new one, or not older than its present one. */
  lemma ProcessUnwrapped(r: Ring, i: nat, c: Copy)
    requires Unwrapped(r) && i < |r.daemons| && c in r.network && c.visit == Current(r)
    requires forall x :: x in r.network ==> x.visit <= Current(r)
    requires forall j :: 0 <= j < |r.daemons| ==> r.daemons[j].visit <= Current(r)
    ensures Unwrapped(Send(r, i, PassOn(i, c, |r.processed|)).(processed := r.processed + [(i, c.visit)]))
  {}

  lemma VisitsBelow(r: Ring)
    requires Inv(r)
    ensures forall x :: x in r.network ==> x.visit <= Current(r)
    ensures forall j :: 0 <= j < |r.daemons| ==> r.daemons[j].visit <= Current(r)
  {
    assert forall x :: x in r.network ==> Authentic(r, x);
    forall j | 0 <= j < |r.daemons| ensures r.daemons[j].visit <= Current(r) {
      assert Remembers(r, j);
    }
  }

  lemma OtherVisit(r: Ring, i: nat)
    requires Inv(r) && 0 < i < |r.daemons|
    ensures r.daemons[i].visit != r.daemons[0].visit
  {
    assert Remembers(r, 0) && Remembers(r, i);
    var p :| p >= -1 && Stamped(|r.daemons|, 0, r.daemons[0].visit, r.daemons[0].arq, p);
    var q :| q >= -1 && Stamped(|r.daemons|, i, r.daemons[i].visit, r.daemons[i].arq, q);
    if r.daemons[i].visit == r.daemons[0].visit {
      VisitUnique(|r.daemons|, r.daemons[0].visit, p, 0, q, i);
    }
  }

  /** It stays that way unless the leader hurries one token sixteen times. */
  lemma UnwrappedStays(r: Ring, step: Step)
    requires Inv(r) && Unwrapped(r) && Enabled(r, step)
    requires step == Resend(0) ==> r.daemons[0].retrans < FIELD_VALUES - 1
    ensures Unwrapped(Next(r, step))
  {
    VisitsBelow(r);
    match step
    case Resend(i) =>
      var d := r.daemons[i];
      if i == 0 {
        RaisedMark(d.retrans);
        SendUnwrapped(r, i, d.(retrans := (d.retrans + 1) % FIELD_VALUES));
      } else {
        OtherVisit(r, i);
        SendUnwrapped(r, i, d);
      }
    case Arrive(i, c) =>
      Verdicts(r, i, c);
      var verdict := Judge(|r.daemons|, i, r.daemons[i], c);
      if verdict.Process? {
        ProcessUnwrapped(r, i, c);
      } else if verdict.ResendMine? {
        OtherVisit(r, i);
        SendUnwrapped(r, i, r.daemons[i].(retrans := c.retrans));
      }
  }

  /** The daemons that the token has passed since the leader had it: the next ones, in the leader's rotation. */
  lemma SinceLeader(r: Ring, t: nat)
    requires Inv(r) && t <= Current(r) - r.daemons[0].visit
    ensures t < |r.daemons| && r.daemons[t].visit == r.daemons[0].visit + t && r.daemons[t].arq == r.daemons[0].arq
  {
    var n := |r.daemons|;
    assert Remembers(r, 0) && t < n;
    assert Remembers(r, t);
    var p :| p >= -1 && Stamped(n, 0, r.daemons[0].visit, r.daemons[0].arq, p);
    var q :| q >= -1 && Stamped(n, t, r.daemons[t].visit, r.daemons[t].arq, q);
    NearVisits(n, r.daemons[0].visit, p, t, r.daemons[t].visit, q, Current(r));
  }

  lemma NearVisits(n: nat, first: int, p: int, t: nat, visit: int, q: int, current: int)
    requires IsVisit(n, first, p, 0) && IsVisit(n, visit, q, t)
    requires current - n < first && current - n < visit <= current && first + t <= current
    ensures q == p
  {
    if q < p {
      Times(n, q + 1, p);
    } else if q > p {
      Times(n, p + 1, q);
    }
  }

  /** A hurried copy has come down to daemon k and would raise the mark of each daemon behind it up to j. */
  ghost predicate OnItsWay(r: Ring, mark: int, k: nat, j: nat) {
    && |r.daemons| > 0 && k <= j && Current(r) == r.daemons[0].visit + j
    && Copy(k, r.daemons[0].arq, mark, r.daemons[0].visit + k) in r.network
    && forall t :: k < t <= j ==> t < |r.daemons| && r.daemons[t].retrans < mark
  }

  lemma OneFurther(r: Ring, mark: int, k: nat, j: nat)
    requires Inv(r) && OnItsWay(r, mark, k, j) && k < j
    ensures var step := Arrive(k + 1, Copy(k, r.daemons[0].arq, mark, r.daemons[0].visit + k));
            && Enabled(r, step) && OnItsWay(Next(r, step), mark, k + 1, j) && Next(r, step).processed == r.processed
            && Next(r, step).daemons[0] == r.daemons[0]
  {
    SinceLeader(r, k + 1);
    assert Remembers(r, 0);
    var c := Copy(k, r.daemons[0].arq, mark, r.daemons[0].visit + k);
    Verdicts(r, k + 1, c);
    AskedToResend(r, k + 1, c);
  }

  lemma {:induction false} PassedDown(r: Ring, mark: int, k: nat, j: nat) returns (steps: seq<Step>)
    requires Inv(r) && OnItsWay(r, mark, k, j)
    ensures |steps| == j - k && ValidRun(r, steps)
    ensures var s := Run(r, steps);
            Inv(s) && OnItsWay(s, mark, j, j) && s.processed == r.processed && s.daemons[0] == r.daemons[0]
    decreases j - k
  {
    hide Inv, Next, Enabled;
    if k == j {
      steps := [];
    } else {
      var step := Arrive(k + 1, Copy(k, r.daemons[0].arq, mark, r.daemons[0].visit + k));
      OneFurther(r, mark, k, j);
      NextInv(r, step);
      var rest := PassedDown(Next(r, step), mark, k + 1, j);
      steps := [step] + rest;
      assert steps[1..] == rest;
    }
  }

  /** Hurrying recovers a lost token. Wherever the token was when all its copies were lost, the leader's hurried copy makes
      each daemon in turn send its own last token again, until the last one that had the token sends it on: the next
      daemon processes that copy. */
  lemma HurryRecovers(r: Ring) returns (steps: seq<Step>, c: Copy)
    requires Inv(r) && Unwrapped(r) && r.daemons[0].visit >= -1 && r.daemons[0].retrans < FIELD_VALUES - 1
    ensures |steps| == 1 + Current(r) - r.daemons[0].visit > 0 && steps[0] == Resend(0) && ValidRun(r, steps)
    ensures var s := Run(r, steps); var n := |r.daemons|;
            && s.processed == r.processed && |s.daemons| == n && c in s.network && c.visit == Current(r)
            && c.retrans == (r.daemons[0].retrans + 1) % FIELD_VALUES > r.daemons[0].retrans
            && Judge(n, (c.sender + 1) % n, s.daemons[(c.sender + 1) % n], c).Process?
  {
    var d, first := r.daemons[0], Resend(0);
    var mark := (d.retrans + 1) % FIELD_VALUES;
    RaisedMark(d.retrans);
    HurryStarts(r, mark);
    var j := Current(r) - d.visit;
    var r1 := Next(r, first);
    NextInv(r, first);
    SameSize(r, first);
    hide Inv, Next, Enabled, Judge, Unwrapped;
    var rest := PassedDown(r1, mark, 0, j);
    steps := [first] + rest;
    assert steps[1..] == rest;
    var s := Run(r1, rest);
    SameSizes(r1, rest);
    c := Copy(j, s.daemons[0].arq, mark, s.daemons[0].visit + j);
    NextDaemon(s, c, j);
  }

  lemma HurryStarts(r: Ring, mark: int)
    requires Inv(r) && Unwrapped(r) && r.daemons[0].visit >= -1
    requires mark == (r.daemons[0].retrans + 1) % FIELD_VALUES > r.daemons[0].retrans
    ensures var j := Current(r) - r.daemons[0].visit;
            && 0 <= j < |r.daemons| && Enabled(r, Resend(0))
            && OnItsWay(Next(r, Resend(0)), mark, 0, j) && Next(r, Resend(0)).processed == r.processed
            && Next(r, Resend(0)).daemons[0].visit == r.daemons[0].visit
  {
    assert Remembers(r, 0);
    var j := Current(r) - r.daemons[0].visit;
    forall t | 0 < t <= j ensures t < |r.daemons| && r.daemons[t].retrans < mark {
      SinceLeader(r, t);
    }
  }

  lemma {:induction false} SameSizes(r: Ring, steps: seq<Step>)
    requires ValidRun(r, steps)
    ensures |Run(r, steps).daemons| == |r.daemons|
    decreases |steps|
  {
    if steps != [] {
      SameSizes(Next(r, steps[0]), steps[1..]);
    }
  }

  lemma NextDaemon(s: Ring, c: Copy, j: nat)
    requires Inv(s) && c in s.network && c.visit == Current(s) && c.sender == j < |s.daemons|
    ensures var n := |s.daemons|; Judge(n, (j + 1) % n, s.daemons[(j + 1) % n], c).Process?
  {
    var n := |s.daemons|;
    assert (j + 1) % n == if j + 1 == n then 0 else j + 1;
    ProcessedInTurn(s, (j + 1) % n, c);
  }

  /** The sixteenth hurry of one token sends mark 0 again, which nobody answers. */
  lemma SixteenthIgnored(r: Ring, i: nat)
    requires Inv(r) && 0 < i < |r.daemons| && r.daemons[0].visit >= -1 && r.daemons[0].retrans == FIELD_VALUES - 1
    requires r.daemons[i].retrans >= 0
    ensures var s := Next(r, Resend(0)); var c := Copy(0, r.daemons[0].arq, 0, r.daemons[0].visit);
            && s.network == r.network + {c} && !Judge(|s.daemons|, i, s.daemons[i], c).ResendMine?
  {
  }
}
