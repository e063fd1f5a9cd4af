/** How a daemon puts the messages of all senders together again, from packets of many senders and from
floating packets that overtake the order. */
module Reassembly {
  import opened SpreadTypes
  import opened Packing
  import opened Delivery

  /** The unfinished messages by sender, what each delivered packet completed, and whether the fatal
      sequence check fired. */
  datatype Up = Up(parts: map<int, seq<seq<byte>>>, out: seq<seq<seq<seq<byte>>>>, failed: bool)

  function Part(up: Up, sender: int): seq<seq<byte>> {
    if sender in up.parts then up.parts[sender] else []
  }

  /** Floating packets use a queue of their own, in which nothing ever stays. */
  function DeliverOne(up: Up, p: Packet): Up {
    var part := if IsFloating(p) then [] else Part(up, p.sender);
    if |part| + 1 != Position(p) then up.(failed := true)
    else
      up.(parts := if IsFloating(p) then up.parts else up.parts[p.sender := NextPart(part, p)],
          out := up.out + [Completed(part, p)])
  }

  function DeliverAll(log: seq<Event>): Up
    requires forall i :: 0 <= i < |log| ==> log[i].Message?
  {
    if log == [] then Up(map[], [], false)
    else
      var before := DeliverAll(log[..|log| - 1]);
      if before.failed then before else DeliverOne(before, log[|log| - 1].p)
  }

  /** The packets of one sender among the ring's. */
  function OfSender(sent: seq<Packet>, id: int): seq<Packet> {
    if sent == [] then []
    else
      var last := sent[|sent| - 1];
      OfSender(sent[..|sent| - 1], id) + if last.sender == id then [last] else []
  }

  /** Every sender's packets come from a queue of its own. */
  ghost predicate FromQueues(sent: seq<Packet>) {
    forall id :: FromQueue(sent, id)
  }

  ghost predicate FromQueue(sent: seq<Packet>, id: int) {
    exists steps, s :: SenderRun(id, steps, s) && s.packets == OfSender(sent, id)
  }

  /** The fragments of a sender's unfinished message when the ring has numbered j packets. */
  function PartAt(sent: seq<Packet>, id: int, j: nat): seq<seq<byte>>
    requires j <= |sent|
  {
    PartOf(OfSender(sent[..j], id))
  }

  /** What the sender's queue completed with packet s. */
  function CompletedBy(sent: seq<Packet>, s: int): seq<seq<seq<byte>>>
    requires 1 <= s <= |sent|
  {
    Completed(PartAt(sent, At(sent, s).sender, s - 1), At(sent, s))
  }

  lemma {:induction false} OfSenderPrefix(sent: seq<Packet>, id: int, j: nat)
    requires j <= |sent|
    ensures OfSender(sent[..j], id) <= OfSender(sent, id)
    decreases |sent|
  {
    if j < |sent| {
      OfSenderPrefix(sent[..|sent| - 1], id, j);
      assert sent[..|sent| - 1][..j] == sent[..j];
    } else {
      assert sent[..j] == sent;
    }
  }

  lemma PartAtNext(sent: seq<Packet>, id: int, j: nat)
    requires j < |sent|
    ensures PartAt(sent, id, j + 1) ==
            if sent[j].sender == id then NextPart(PartAt(sent, id, j), sent[j]) else PartAt(sent, id, j)
    ensures OfSender(sent[..j + 1], id) == OfSender(sent[..j], id) + if sent[j].sender == id then [sent[j]] else []
  {
    var more, before := sent[..j + 1], OfSender(sent[..j], id);
    assert more[..|more| - 1] == sent[..j] && more[|more| - 1] == sent[j];
    assert OfSender(more, id) == if sent[j].sender == id then before + [sent[j]] else before;
    PartOfSnoc(before, sent[j]);
  }

  lemma PartOfSnoc(ps: seq<Packet>, p: Packet)
    ensures PartOf(ps + [p]) == NextPart(PartOf(ps), p)
  {
    assert (ps + [p])[..|ps|] == ps;
  }

  /** The position of every packet is the one its sender's earlier packets call for; a floating packet
      falls between messages. */
  lemma Expected(sent: seq<Packet>, s: int)
    requires FromQueues(sent) && 1 <= s <= |sent|
    ensures var p := At(sent, s); var part := PartAt(sent, p.sender, s - 1);
            && Position(p) == |part| + 1
            && (IsFloating(p) ==> part == [] && PartAt(sent, p.sender, s) == [])
  {
    var p := At(sent, s);
    PartAtNext(sent, p.sender, s - 1);
    OfSenderPrefix(sent, p.sender, s);
    SenderInSequence(sent, p.sender);
    hide FromQueues, PartOf, OfSender, InSequence;
    AtPosition(OfSender(sent, p.sender), OfSender(sent[..s - 1], p.sender), p);
  }

  lemma SenderInSequence(sent: seq<Packet>, id: int)
    requires FromQueues(sent)
    ensures InSequence(OfSender(sent, id))
  {
    assert FromQueue(sent, id);
    hide InSequence;
    var steps, sender :| SenderRun(id, steps, sender) && sender.packets == OfSender(sent, id);
    SenderRebuilds(id, steps, sender);
  }

  lemma AtPosition(ps: seq<Packet>, before: seq<Packet>, p: Packet)
    requires InSequence(ps) && before + [p] <= ps
    ensures Position(p) == |PartOf(before)| + 1
  {
    assert ps[..|before|] == before && ps[|before|] == p;
  }

  // ---- What a log contains of one sender ----

  /** The ordered packets of one sender in a log. */
  function OrderedOf(log: seq<Event>, id: int): seq<Packet> {
    if log == [] then []
    else
      var last := log[|log| - 1];
      OrderedOf(log[..|log| - 1], id) + if last.Message? && !IsFloating(last.p) && last.p.sender == id then [last.p] else []
  }

  /** The log has the sender's ordered packets numbered up to k. */
  ghost predicate Follows(log: seq<Event>, sent: seq<Packet>, id: int, k: nat) {
    k <= |sent| && OrderedOf(log, id) == OrderedOf(OrderedPrefix(sent, k), id)
  }

  /** Every sender's ordered packets come in order and without a gap; how far, may differ between senders. */
  ghost predicate SenderOrder(log: seq<Event>, sent: seq<Packet>) {
    forall id :: FollowsSome(log, sent, id)
  }

  ghost predicate FollowsSome(log: seq<Event>, sent: seq<Packet>, id: int) {
    exists k: nat :: Follows(log, sent, id, k)
  }

  lemma OrderedOfSnoc(log: seq<Event>, e: Event, id: int)
    ensures OrderedOf(log + [e], id) ==
            OrderedOf(log, id) + if e.Message? && !IsFloating(e.p) && e.p.sender == id then [e.p] else []
  {
    assert (log + [e])[..|log|] == log;
  }

  lemma PrefixOf(sent: seq<Packet>, id: int, k: nat)
    requires 0 < k <= |sent|
    ensures OrderedOf(OrderedPrefix(sent, k), id) == OrderedOf(OrderedPrefix(sent, k - 1), id)
              + if !IsFloating(At(sent, k)) && At(sent, k).sender == id then [At(sent, k)] else []
  {
    OrderedOfSnoc(OrderedPrefix(sent, k - 1), Message(At(sent, k)), id);
    assert OrderedPrefix(sent, k - 1) + [] == OrderedPrefix(sent, k - 1);
  }

  lemma {:induction false} PrefixOfGrows(sent: seq<Packet>, id: int, j: nat, k: nat)
    requires j <= k <= |sent|
    ensures OrderedOf(OrderedPrefix(sent, j), id) <= OrderedOf(OrderedPrefix(sent, k), id)
    decreases k
  {
    if j < k {
      PrefixOfGrows(sent, id, j, k - 1);
      PrefixOf(sent, id, k);
    }
  }

  /** Between two numbers without ordered packets of a sender nothing changes for it. */
  lemma {:induction false} NothingBetween(sent: seq<Packet>, id: int, j: nat, k: nat)
    requires FromQueues(sent) && j <= k <= |sent|
    requires OrderedOf(OrderedPrefix(sent, j), id) == OrderedOf(OrderedPrefix(sent, k), id)
    ensures PartAt(sent, id, j) == PartAt(sent, id, k) && SentInOrder(sent, id, j) == SentInOrder(sent, id, k)
    decreases k
  {
    hide FromQueues, PartAt, OrderedOf, OrderedPrefix, CompletedBy;
    if j < k {
      PrefixOf(sent, id, k);
      PrefixOfGrows(sent, id, j, k - 1);
      PartAtNext(sent, id, k - 1);
      if At(sent, k).sender == id && IsFloating(At(sent, k)) {
        Expected(sent, k);
      }
      NothingBetween(sent, id, j, k - 1);
    }
  }

  /** Whatever two numbers describe the same log, they agree on what is unfinished and what is complete. */
  lemma SameFor(log: seq<Event>, sent: seq<Packet>, id: int, j: nat, k: nat)
    requires FromQueues(sent) && Follows(log, sent, id, j) && Follows(log, sent, id, k)
    ensures PartAt(sent, id, j) == PartAt(sent, id, k) && SentInOrder(sent, id, j) == SentInOrder(sent, id, k)
  {
    if j <= k {
      NothingBetween(sent, id, j, k);
    } else {
      NothingBetween(sent, id, k, j);
    }
  }

  /** The last ordered packet of a sender is the one its number says. */
  lemma {:induction false} LastOf(init: seq<Event>, e: Event, sent: seq<Packet>, k: nat) returns (last: nat)
    requires e.Message? && !IsFloating(e.p) && Follows(init + [e], sent, e.p.sender, k)
    ensures 1 <= last <= k && At(sent, last) == e.p
    ensures Follows(init, sent, e.p.sender, last - 1) && Follows(init + [e], sent, e.p.sender, last)
    decreases k
  {
    var id := e.p.sender;
    OrderedOfSnoc(init, e, id);
    assert k > 0 by {
      assert OrderedOf(init + [e], id) != [];
    }
    PrefixOf(sent, id, k);
    hide OrderedOf, OrderedPrefix;
    var a, b := OrderedOf(init, id), OrderedOf(OrderedPrefix(sent, k - 1), id);
    if !IsFloating(At(sent, k)) && At(sent, k).sender == id {
      last := k;
      SameEnd(a, e.p, b, At(sent, k));
    } else {
      last := LastOf(init, e, sent, k - 1);
    }
  }

  lemma SameEnd(a: seq<Packet>, x: Packet, b: seq<Packet>, y: Packet)
    requires a + [x] == b + [y]
    ensures a == b && x == y
  {
    assert (a + [x])[|a|] == (b + [y])[|b|];
    assert (a + [x])[..|a|] == (b + [y])[..|b|];
  }

  // ---- The fatal check never fires ----

  ghost predicate Genuines(log: seq<Event>, sent: seq<Packet>) {
    forall i :: 0 <= i < |log| ==> Genuine(log[i], sent)
  }

  ghost predicate Complete(up: Up, log: seq<Event>, sent: seq<Packet>) {
    |up.out| == |log| &&
    forall i :: 0 <= i < |log| ==> Genuine(log[i], sent) && up.out[i] == CompletedBy(sent, log[i].p.seqNo)
  }

  /** For every sender the unfinished message is the one its last delivered packet leaves. */
  ghost predicate InStep(up: Up, log: seq<Event>, sent: seq<Packet>) {
    !up.failed && forall id, k: nat :: Follows(log, sent, id, k) ==> Part(up, id) == PartAt(sent, id, k)
  }

  lemma SameOrder(log: seq<Event>, init: seq<Event>, sent: seq<Packet>, id: int)
    requires OrderedOf(log, id) == OrderedOf(init, id)
    ensures forall k: nat :: Follows(log, sent, id, k) <==> Follows(init, sent, id, k)
  {}

  lemma FloatingStep(up: Up, init: seq<Event>, e: Event, sent: seq<Packet>)
    requires FromQueues(sent) && InStep(up, init, sent) && Genuine(e, sent) && IsFloating(e.p)
    ensures var next := DeliverOne(up, e.p);
            InStep(next, init + [e], sent) && next.out == up.out + [CompletedBy(sent, e.p.seqNo)]
  {
    Expected(sent, e.p.seqNo);
    hide PartAt, OrderedOf, FromQueues;
    forall id ensures OrderedOf(init + [e], id) == OrderedOf(init, id) {
      OrderedOfSnoc(init, e, id);
    }
  }

  lemma OrderedStep(up: Up, init: seq<Event>, e: Event, sent: seq<Packet>, s: nat)
    requires FromQueues(sent) && InStep(up, init, sent) && 1 <= s <= |sent| && e == Message(At(sent, s)) && !IsFloating(e.p)
    requires Follows(init, sent, e.p.sender, s - 1) && Follows(init + [e], sent, e.p.sender, s)
    ensures var next := DeliverOne(up, e.p);
            InStep(next, init + [e], sent) && next.out == up.out + [CompletedBy(sent, s)]
  {
    Expected(sent, s);
    PartAtNext(sent, e.p.sender, s - 1);
    StepPart(up, init, sent, e.p.sender, s - 1);
    Unfailed(up, init, sent);
    DeliverOneParts(up, e.p);
    hide PartAt, Follows, FromQueues, DeliverOne, Part, InStep;
    var next := DeliverOne(up, e.p);
    forall id, k: nat | Follows(init + [e], sent, id, k) ensures Part(next, id) == PartAt(sent, id, k) {
      if id == e.p.sender {
        SameFor(init + [e], sent, id, k, s);
      } else {
        OtherSender(init, e, sent, id, k);
        StepPart(up, init, sent, id, k);
      }
    }
    StepIs(next, init + [e], sent);
  }

  lemma StepPart(up: Up, log: seq<Event>, sent: seq<Packet>, id: int, k: nat)
    requires InStep(up, log, sent) && Follows(log, sent, id, k)
    ensures Part(up, id) == PartAt(sent, id, k)
  {}

  lemma StepIs(up: Up, log: seq<Event>, sent: seq<Packet>)
    requires !up.failed && forall id, k: nat :: Follows(log, sent, id, k) ==> Part(up, id) == PartAt(sent, id, k)
    ensures InStep(up, log, sent)
  {}

  lemma OtherSender(init: seq<Event>, e: Event, sent: seq<Packet>, id: int, k: nat)
    requires Follows(init + [e], sent, id, k) && e.Message? && e.p.sender != id
    ensures Follows(init, sent, id, k)
  {
    OrderedOfSnoc(init, e, id);
  }

  lemma DeliverOneParts(up: Up, p: Packet)
    requires !IsFloating(p) && |Part(up, p.sender)| + 1 == Position(p) && !up.failed
    ensures var next := DeliverOne(up, p);
            && !next.failed && next.out == up.out + [Completed(Part(up, p.sender), p)]
            && Part(next, p.sender) == NextPart(Part(up, p.sender), p)
            && forall id :: id != p.sender ==> Part(next, id) == Part(up, id)
  {}

  lemma NothingYet(sent: seq<Packet>)
    requires FromQueues(sent)
    ensures InStep(DeliverAll([]), [], sent) && Complete(DeliverAll([]), [], sent)
  {
    hide FromQueues;
    forall id, k: nat | Follows([], sent, id, k) ensures [] == PartAt(sent, id, k) {
      NothingBetween(sent, id, 0, k);
      assert sent[..0] == [];
    }
  }

  /** If the log is in order for every sender, so is its beginning. */
  lemma OrderBefore(init: seq<Event>, e: Event, sent: seq<Packet>)
    requires SenderOrder(init + [e], sent) && Genuine(e, sent)
    ensures SenderOrder(init, sent)
  {
    hide OrderedOf;
    forall id ensures FollowsSome(init, sent, id) {
      assert FollowsSome(init + [e], sent, id);
      var k: nat :| Follows(init + [e], sent, id, k);
      OrderedOfSnoc(init, e, id);
      if !IsFloating(e.p) && e.p.sender == id {
        var last := LastOf(init, e, sent, k);
        assert Follows(init, sent, id, last - 1);
      } else {
        assert Follows(init, sent, id, k);
      }
    }
  }

  /** Whatever a daemon delivers, as long as every sender's ordered packets come in order and without a gap: the fatal
      sequence check does not fire, and each packet yields exactly the messages that its sender completed with it,
      floating packets included. */
  lemma {:induction false} DeliveredAsSent(log: seq<Event>, sent: seq<Packet>)
    requires FromQueues(sent) && Numbered(sent) && Genuines(log, sent) && SenderOrder(log, sent)
    ensures InStep(DeliverAll(log), log, sent) && Complete(DeliverAll(log), log, sent)
    decreases |log|
  {
    hide FromQueues, InStep, Complete, Numbered, SenderOrder, CompletedBy, Follows;
    if log == [] {
      NothingYet(sent);
    } else {
      var init, e := log[..|log| - 1], log[|log| - 1];
      assert log == init + [e] && Genuine(e, sent) && Genuines(init, sent);
      OrderBefore(init, e, sent);
      DeliveredAsSent(init, sent);
      Unfailed(DeliverAll(init), init, sent);
      if IsFloating(e.p) {
        FloatingStep(DeliverAll(init), init, e, sent);
      } else {
        var s := LastNumber(init, e, sent);
        OrderedStep(DeliverAll(init), init, e, sent, s);
      }
      CompleteGrows(DeliverAll(init), init, sent, log, e.p.seqNo);
    }
  }

  lemma Unfailed(up: Up, log: seq<Event>, sent: seq<Packet>)
    requires InStep(up, log, sent)
    ensures !up.failed
  {}

  lemma LastNumber(init: seq<Event>, e: Event, sent: seq<Packet>) returns (s: nat)
    requires SenderOrder(init + [e], sent) && Genuine(e, sent) && !IsFloating(e.p) && Numbered(sent)
    ensures s == e.p.seqNo && 1 <= s <= |sent| && e == Message(At(sent, s))
    ensures Follows(init, sent, e.p.sender, s - 1) && Follows(init + [e], sent, e.p.sender, s)
  {
    hide Follows;
    assert FollowsSome(init + [e], sent, e.p.sender);
    var k: nat :| Follows(init + [e], sent, e.p.sender, k);
    BoundOf(init + [e], sent, e.p.sender, k);
    s := LastOf(init, e, sent, k);
    assert At(sent, s).seqNo == s;
  }

  lemma BoundOf(log: seq<Event>, sent: seq<Packet>, id: int, k: nat)
    requires Follows(log, sent, id, k)
    ensures k <= |sent|
  {}

  lemma CompleteGrows(before: Up, init: seq<Event>, sent: seq<Packet>, log: seq<Event>, s: int)
    requires Complete(before, init, sent) && log != [] && init == log[..|log| - 1]
    requires Genuine(log[|log| - 1], sent) && log[|log| - 1].p.seqNo == s
    ensures forall after: Up :: after.out == before.out + [CompletedBy(sent, s)] ==> Complete(after, log, sent)
  {
    forall after: Up | after.out == before.out + [CompletedBy(sent, s)] ensures Complete(after, log, sent) {
      forall i | 0 <= i < |log| ensures Genuine(log[i], sent) && after.out[i] == CompletedBy(sent, log[i].p.seqNo) {
        if i < |init| {
          assert log[i] == init[i];
        }
      }
    }
  }

  // ---- The messages of one sender ----

  /** What a daemon has got from a sender's ordered packets, in the order in which it got it. */
  function Received(log: seq<Event>, out: seq<seq<seq<seq<byte>>>>, id: int): seq<seq<seq<byte>>>
    requires |out| == |log| && forall i :: 0 <= i < |log| ==> log[i].Message?
  {
    if log == [] then []
    else
      var n := |log| - 1;
      Received(log[..n], out[..n], id) + if log[n].p.sender == id && !IsFloating(log[n].p) then out[n] else []
  }

  /** What a sender's ordered packets among the ring's first k complete. */
  function SentInOrder(sent: seq<Packet>, id: int, k: nat): seq<seq<seq<byte>>>
    requires k <= |sent|
  {
    if k == 0 then []
    else SentInOrder(sent, id, k - 1) +
         if At(sent, k).sender == id && !IsFloating(At(sent, k)) then CompletedBy(sent, k) else []
  }

  lemma {:induction false} ReceivedAsSent(log: seq<Event>, out: seq<seq<seq<seq<byte>>>>, sent: seq<Packet>, id: int, k: nat)
    requires FromQueues(sent) && Numbered(sent) && Follows(log, sent, id, k)
    requires |out| == |log|
    requires forall i :: 0 <= i < |log| ==> Genuine(log[i], sent) && out[i] == CompletedBy(sent, log[i].p.seqNo)
    ensures forall i :: 0 <= i < |log| ==> log[i].Message?
    ensures Received(log, out, id) == SentInOrder(sent, id, k)
    decreases |log|
  {
    hide CompletedBy, OrderedOf, OrderedPrefix, Received, SentInOrder, FromQueues;
    if log == [] {
      ReceivedNothing(sent, out, id, k);
    } else {
      var n, e := |log| - 1, log[|log| - 1];
      var init := log[..n];
      assert log == init + [e] && Genuine(e, sent);
      ReceivedNext(log, out, id);
      OrderedOfSnoc(init, e, id);
      if e.p.sender == id && !IsFloating(e.p) {
        var s := LastOf(init, e, sent, k);
        assert e.p.seqNo == s;
        ReceivedAsSent(init, out[..n], sent, id, s - 1);
        SameFor(log, sent, id, s, k);
        SentNext(sent, id, s);
      } else {
        ReceivedAsSent(init, out[..n], sent, id, k);
      }
    }
  }

  lemma ReceivedNothing(sent: seq<Packet>, out: seq<seq<seq<seq<byte>>>>, id: int, k: nat)
    requires FromQueues(sent) && |out| == 0 && Follows([], sent, id, k)
    ensures Received([], out, id) == SentInOrder(sent, id, k)
  {
    NothingBetween(sent, id, 0, k);
  }

  lemma ReceivedNext(log: seq<Event>, out: seq<seq<seq<seq<byte>>>>, id: int)
    requires |out| == |log| > 0 && forall i :: 0 <= i < |log| ==> log[i].Message?
    ensures var n := |log| - 1;
            Received(log, out, id) ==
            if log[n].p.sender == id && !IsFloating(log[n].p) then Received(log[..n], out[..n], id) + out[n]
            else Received(log[..n], out[..n], id)
  {}

  lemma SentNext(sent: seq<Packet>, id: int, k: nat)
    requires k <= |sent|
    ensures if k == 0 then SentInOrder(sent, id, k) == []
            else SentInOrder(sent, id, k) == SentInOrder(sent, id, k - 1)
                 + if At(sent, k).sender == id && !IsFloating(At(sent, k)) then CompletedBy(sent, k) else []
  {}

  /** For a sender without floating packets that is the beginning of what it queued. */
  lemma {:induction false} SentInOrderIsRebuilt(sent: seq<Packet>, id: int, k: nat)
    requires k <= |sent| && forall s :: 1 <= s <= k && At(sent, s).sender == id ==> !IsFloating(At(sent, s))
    ensures SentInOrder(sent, id, k) == Rebuilt(OfSender(sent[..k], id))
  {
    if k == 0 {
      assert sent[..0] == [];
    } else {
      SentInOrderIsRebuilt(sent, id, k - 1);
      RebuiltNext(sent, id, k);
      SentNext(sent, id, k);
    }
  }

  lemma RebuiltNext(sent: seq<Packet>, id: int, k: nat)
    requires 1 <= k <= |sent|
    ensures Rebuilt(OfSender(sent[..k], id)) == Rebuilt(OfSender(sent[..k - 1], id))
              + if At(sent, k).sender == id then CompletedBy(sent, k) else []
  {
    hide OfSender, Rebuilt, CompletedBy, PartAt, Completed, PartOf;
    PartAtNext(sent, id, k - 1);
    var before := OfSender(sent[..k - 1], id);
    if At(sent, k).sender == id {
      CompletedIs(sent, id, k);
      RebuiltSnoc(before, At(sent, k));
    } else {
      assert before + [] == before;
    }
  }

  lemma CompletedIs(sent: seq<Packet>, id: int, k: nat)
    requires 1 <= k <= |sent| && At(sent, k).sender == id
    ensures CompletedBy(sent, k) == Completed(PartOf(OfSender(sent[..k - 1], id)), At(sent, k))
  {}

  lemma RebuiltSnoc(ps: seq<Packet>, p: Packet)
    ensures Rebuilt(ps + [p]) == Rebuilt(ps) + Completed(PartOf(ps), p)
  {
    assert (ps + [p])[..|ps|] == ps;
  }

  lemma {:induction false} RebuiltPrefix(a: seq<Packet>, b: seq<Packet>)
    requires a <= b
    ensures Rebuilt(a) <= Rebuilt(b)
    decreases |b|
  {
    if |a| < |b| {
      assert a <= b[..|b| - 1];
      RebuiltPrefix(a, b[..|b| - 1]);
      assert Rebuilt(b[..|b| - 1]) <= Rebuilt(b);
    } else {
      assert a == b;
    }
  }

  /** End to end: what a daemon gets from a sender that sends no floating packets is a prefix of the
      messages that sender ever queued, whole and in order. */
  lemma RoundTrip(log: seq<Event>, sent: seq<Packet>, id: int, steps: seq<Step>, s: Sender)
    requires FromQueues(sent) && Numbered(sent) && Genuines(log, sent) && SenderOrder(log, sent)
    requires SenderRun(id, steps, s) && s.packets == OfSender(sent, id)
    requires forall p :: p in s.packets ==> !IsFloating(p)
    ensures !DeliverAll(log).failed && |DeliverAll(log).out| == |log|
    ensures Received(log, DeliverAll(log).out, id) <= Elements(s.queued)
  {
    DeliveredAsSent(log, sent);
    Unfailed(DeliverAll(log), log, sent);
    CompleteIs(DeliverAll(log), log, sent);
    assert FollowsSome(log, sent, id);
    var k: nat :| Follows(log, sent, id, k);
    hide *;
    BoundOf(log, sent, id, k);
    ReceivedAsSent(log, DeliverAll(log).out, sent, id, k);
    SentIsQueued(sent, id, k, steps, s);
  }

  lemma CompleteIs(up: Up, log: seq<Event>, sent: seq<Packet>)
    requires Complete(up, log, sent)
    ensures |up.out| == |log|
    ensures forall i :: 0 <= i < |log| ==> Genuine(log[i], sent) && up.out[i] == CompletedBy(sent, log[i].p.seqNo)
    ensures forall i :: 0 <= i < |log| ==> log[i].Message?
  {}

  lemma SentIsQueued(sent: seq<Packet>, id: int, k: nat, steps: seq<Step>, s: Sender)
    requires k <= |sent| && SenderRun(id, steps, s) && s.packets == OfSender(sent, id)
    requires forall p :: p in s.packets ==> !IsFloating(p)
    ensures SentInOrder(sent, id, k) <= Elements(s.queued)
  {
    hide *;
    forall n | 1 <= n <= k && At(sent, n).sender == id ensures !IsFloating(At(sent, n)) {
      SentBy(sent, id, n);
    }
    SentInOrderIsRebuilt(sent, id, k);
    OfSenderPrefix(sent, id, k);
    RebuiltPrefix(OfSender(sent[..k], id), OfSender(sent, id));
    SenderRebuilds(id, steps, s);
  }

  lemma SentBy(sent: seq<Packet>, id: int, n: nat)
    requires 1 <= n <= |sent| && At(sent, n).sender == id
    ensures At(sent, n) in OfSender(sent, id)
  {
    PartAtNext(sent, id, n - 1);
    OfSenderPrefix(sent, id, n);
    hide OfSender;
    assert OfSender(sent[..n], id)[|OfSender(sent[..n - 1], id)|] == At(sent, n);
  }

  // ---- Logs that are in order for every sender ----

  lemma {:induction false} OrderedKeepsSender(log: seq<Event>, id: int)
    ensures OrderedOf(Ordered(log), id) == OrderedOf(log, id)
  {
    if log != [] {
      var init, e := log[..|log| - 1], log[|log| - 1];
      assert log == init + [e];
      OrderedKeepsSender(init, id);
      OrderedAppend(init, e);
      OrderedOfSnoc(init, e, id);
      OrderedOfSnoc(Ordered(init), e, id);
      assert Ordered(init) + [] == Ordered(init);
    }
  }

  /** A daemon of an operating ring has all senders' packets up to the same number. */
  lemma OperationalOrder(log: seq<Event>, sent: seq<Packet>, k: nat)
    requires k <= |sent| && Ordered(log) == OrderedPrefix(sent, k)
    ensures SenderOrder(log, sent)
  {
    hide OrderedOf, OrderedPrefix, Ordered;
    forall id ensures FollowsSome(log, sent, id) {
      OrderedKeepsSender(log, id);
      assert Follows(log, sent, id, k);
    }
  }

  // ---- What the sequence check notices ----

  /** A sender's packet is left out and its next one delivered: the check notices it exactly if the packet was part of a
      message of more than one fragment. */
  lemma GapNoticed(up: Up, p: Packet, q: Packet)
    requires !up.failed && !IsFloating(p) && !IsFloating(q) && p.sender == q.sender
    requires Position(p) == |Part(up, p.sender)| + 1 && Position(q) == |NextPart(Part(up, p.sender), p)| + 1
    ensures DeliverOne(up, q).failed <==> p.first.index != -1
    ensures DeliverOne(up, q).failed ==> DeliverOne(up, q).out == up.out && DeliverOne(up, q).parts == up.parts
  {}
}
