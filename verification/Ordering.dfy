/** Order beyond a lane: for which two messages of one source the receiver's handlers always
    start in the order in which they were queued. */
module Ordering {
  import opened Ump
  import opened Outbox
  import opened Receiver
  import opened Handling
  import opened Channel
  import opened Delivery

  predicate QueuedAt(queue: seq<Entry>, x: int, e: Envelope) {
    0 <= x < |queue| && queue[x].envelope == e
  }

  ghost predicate QueuedBefore(queue: seq<Entry>, e: Envelope, f: Envelope) {
    exists x, y :: x < y && QueuedAt(queue, x, e) && QueuedAt(queue, y, f)
  }

  /** No start of `f` without an earlier start of `e`. */
  predicate StartedAfter(log: seq<Event>, e: Envelope, f: Envelope) {
    forall t :: 0 <= t < |log| && log[t] == Start(f) ==> Begun(log[..t], e)
  }

  /** In every run that queues `e` before `f`, handling respects that order. */
  ghost predicate KeepsOrder(e: Envelope, f: Envelope) {
    forall s :: Channel.Reachable(s) && QueuedBefore(s.queue, e, f) ==> StartedAfter(s.node.log, e, f)
  }

  /** The two share stream and session, or `e` is the first message of its session in the shared stream. */
  predicate Ordered(e: Envelope, f: Envelope) {
    e.stream == f.stream && (e.session == f.session || e.sequence == 1)
  }

  // ---------------------------------------------------------------- inbox order of a flow

  predicate EarlierRow(s: System, x: nat, b: nat)
  {
    x < |s.queue| && exists a :: a in s.node.inbox && a < b && s.node.inbox[a].envelope == s.queue[x].envelope
  }

  /** A stored row comes after the rows of everything queued before it in its flow. */
  predicate RowInOrder(s: System, b: nat, y: nat)
  {
    && y < |s.queue|
    && forall x :: 0 <= x < y && SameFlow(s.queue[x].envelope, s.queue[y].envelope) ==> EarlierRow(s, x, b)
  }

  predicate FlowOrdered(s: System) {
    forall b, y :: b in s.node.inbox && 0 <= y < |s.queue| && s.queue[y].envelope == s.node.inbox[b].envelope ==>
      RowInOrder(s, b, y)
  }

  lemma RowStaysInOrder(s: System, s': System, b: nat, y: nat)
    requires y < |s.queue| <= |s'.queue| && Kept(s.node, s'.node) && RowInOrder(s, b, y)
    requires forall x :: 0 <= x < |s.queue| ==> s'.queue[x].envelope == s.queue[x].envelope
    ensures RowInOrder(s', b, y)
  {
    forall x | 0 <= x < y && SameFlow(s'.queue[x].envelope, s'.queue[y].envelope) ensures EarlierRow(s', x, b) {
      assert EarlierRow(s, x, b);
      var a :| a in s.node.inbox && a < b && s.node.inbox[a].envelope == s.queue[x].envelope;
      assert s'.node.inbox[a].envelope == s'.queue[x].envelope;
    }
  }

  lemma NewRowInOrder(s: System, s': System, b: nat, y: nat)
    requires SystemInv(s) && y < |s.queue| && s.queue[y].envelope in s.sent && b == s.node.next
    requires s'.queue == s.queue && Kept(s.node, s'.node)
    ensures RowInOrder(s', b, y)
  {
    forall x | 0 <= x < y && SameFlow(s.queue[x].envelope, s.queue[y].envelope) ensures EarlierRow(s', x, b) {
      var a := SafeRow(s, x);
      assert a in s'.node.inbox && s'.node.inbox[a].envelope == s.queue[x].envelope;
    }
  }

  lemma ReceiveKeepsFlow(s: System, s': System, act: Action)
    requires SystemInv(s) && FlowOrdered(s) && Legal(s, Receive(act)) && s' == s.(node := Act(s.node, act))
    ensures FlowOrdered(s')
  {
    assert !Discards(s.node, act);
    StepKeepsRows(s.node, act);
    forall b, y | b in s'.node.inbox && 0 <= y < |s'.queue| && s'.queue[y].envelope == s'.node.inbox[b].envelope
      ensures RowInOrder(s', b, y)
    {
      if b in s.node.inbox {
        assert RowInOrder(s, b, y);
        RowStaysInOrder(s, s', b, y);
      } else {
        InboxGrowth(s.node, act, b);
        NewRowInOrder(s, s', b, y);
      }
    }
  }

  lemma QueueStepKeepsFlow(s: System, s': System)
    requires SystemInv(s) && FlowOrdered(s) && s'.node == s.node && |s.queue| <= |s'.queue|
    requires forall x :: 0 <= x < |s.queue| ==> s'.queue[x].envelope == s.queue[x].envelope
    requires forall x :: |s.queue| <= x < |s'.queue| ==> !HasId(s.node, s'.queue[x].envelope.id)
    ensures FlowOrdered(s')
  {
    forall b, y | b in s'.node.inbox && 0 <= y < |s'.queue| && s'.queue[y].envelope == s'.node.inbox[b].envelope
      ensures RowInOrder(s', b, y)
    {
      assert y < |s.queue|;
      assert RowInOrder(s, b, y);
      RowStaysInOrder(s, s', b, y);
    }
  }

  // ---------------------------------------------------------------- ordered pairs

  /** A claim of `f` finds `e` already begun. */
  lemma ClaimFindsEarlierBegun(s: System, b: nat, x: nat, y: nat)
    requires SystemInv(s) && FlowOrdered(s) && b in s.node.inbox && IsNext(s.node, b)
    requires x < y < |s.queue| && s.queue[y].envelope == s.node.inbox[b].envelope
    requires s.queue[x].envelope.source == s.queue[y].envelope.source
    requires Ordered(s.queue[x].envelope, s.queue[y].envelope)
    ensures Begun(s.node.log, s.queue[x].envelope)
  {
    var a := SafeRow(s, x);
    assert RowInOrder(s, b, y);
    assert EarlierRow(s, x, b);
    assert a < b;
    EarlierIsNotWaiting(s, a, b);
    assert RowMatchesLog(s.node.log, s.node.inbox[a]);
  }

  /** The row a worker takes leaves no earlier one of an ordered pair waiting. */
  lemma EarlierIsNotWaiting(s: System, a: nat, b: nat)
    requires SystemInv(s) && a in s.node.inbox && b in s.node.inbox && a < b && IsNext(s.node, b)
    requires s.node.inbox[a].envelope.source == s.node.inbox[b].envelope.source
    requires Ordered(s.node.inbox[a].envelope, s.node.inbox[b].envelope)
    ensures s.node.inbox[a].status != Received
  {
    if s.node.inbox[a].envelope.session != s.node.inbox[b].envelope.session {
      forall j | j in s.node.inbox && LaneOf(s.node.inbox[j].envelope) == LaneOf(s.node.inbox[a].envelope)
        ensures a <= j
      {
        var z := PositionOf(s, s.node.inbox[j].envelope);
        assert s.queue[z].envelope.sequence >= 1;
      }
      assert s.node.inbox[a].status == Received ==> Claimable(s.node, a);
    }
  }

  lemma AppendKeepsStarted(log: seq<Event>, ev: Event, e: Envelope, f: Envelope)
    requires StartedAfter(log, e, f) && (ev == Start(f) ==> Begun(log, e))
    ensures StartedAfter(log + [ev], e, f)
  {
    forall t | 0 <= t < |log + [ev]| && (log + [ev])[t] == Start(f) ensures Begun((log + [ev])[..t], e) {
      if t < |log| {
        assert (log + [ev])[..t] == log[..t];
      } else {
        assert (log + [ev])[..t] == log;
      }
    }
  }

  lemma StartKeepsStarted(s: System, b: nat, e: Envelope, f: Envelope)
    requires SystemInv(s) && FlowOrdered(s) && StartedAfter(s.node.log, e, f) && QueuedBefore(s.queue, e, f)
    requires e.source == f.source && Ordered(e, f) && b in s.node.inbox && IsNext(s.node, b)
    ensures StartedAfter(s.node.log + [Start(s.node.inbox[b].envelope)], e, f)
  {
    if s.node.inbox[b].envelope == f {
      var x, y :| x < y && QueuedAt(s.queue, x, e) && QueuedAt(s.queue, y, f);
      ClaimFindsEarlierBegun(s, b, x, y);
    }
    AppendKeepsStarted(s.node.log, Start(s.node.inbox[b].envelope), e, f);
  }

  lemma ReceiveKeepsStarted(s: System, act: Action, log: seq<Event>, e: Envelope, f: Envelope)
    requires SystemInv(s) && FlowOrdered(s) && StartedAfter(s.node.log, e, f) && QueuedBefore(s.queue, e, f)
    requires e.source == f.source && Ordered(e, f) && LogStep(s.node, act, log)
    ensures StartedAfter(log, e, f)
  {
    if log != s.node.log {
      var ev := log[|s.node.log|];
      assert log == s.node.log + [ev];
      if ev.Start? {
        StartKeepsStarted(s, act.order, e, f);
      } else {
        AppendKeepsStarted(s.node.log, ev, e, f);
      }
    }
  }

  lemma EnqueueKeepsStarted(s: System, g: Envelope, e: Envelope, f: Envelope)
    requires SystemInv(s) && WellNumbered(s, g) && (QueuedBefore(s.queue, e, f) ==> StartedAfter(s.node.log, e, f))
    requires QueuedBefore(s.queue + [Entry(g, false)], e, f)
    ensures StartedAfter(s.node.log, e, f)
  {
    var longer := s.queue + [Entry(g, false)];
    var x, y :| x < y && QueuedAt(longer, x, e) && QueuedAt(longer, y, f);
    if y < |s.queue| {
      assert QueuedAt(s.queue, x, e) && QueuedAt(s.queue, y, f);
    } else if Begun(s.node.log, f) {
      assert false;
    }
  }

  lemma MoveKeepsStarted(s: System, s': System, m: Move, e: Envelope, f: Envelope)
    requires SystemInv(s) && FlowOrdered(s) && Legal(s, m) && s' == Step(s, m) && e.source == f.source && Ordered(e, f)
    requires QueuedBefore(s.queue, e, f) ==> StartedAfter(s.node.log, e, f)
    ensures FlowOrdered(s') && (QueuedBefore(s'.queue, e, f) ==> StartedAfter(s'.node.log, e, f))
  {
    match m {
      case Enqueue(g) =>
        forall i | i in s.node.inbox ensures s.node.inbox[i].envelope.id != g.id {
          var x := PositionOf(s, s.node.inbox[i].envelope);
        }
        QueueStepKeepsFlow(s, s');
        if QueuedBefore(s'.queue, e, f) { EnqueueKeepsStarted(s, g, e, f); }
      case SendHead(i) => QueueStepKeepsFlow(s, s');
      case Confirm(i) =>
        QueueStepKeepsFlow(s, s');
        if QueuedBefore(s'.queue, e, f) {
          var x, y :| x < y && QueuedAt(s'.queue, x, e) && QueuedAt(s'.queue, y, f);
          assert QueuedAt(s.queue, x, e) && QueuedAt(s.queue, y, f);
        }
      case Receive(act) =>
        ReceiveKeepsFlow(s, s', act);
        StepsLog(s.node, act);
        if QueuedBefore(s.queue, e, f) { ReceiveKeepsStarted(s, act, s'.node.log, e, f); }
    }
  }

  lemma {:induction false} RunKeepsStarted(moves: seq<Move>, e: Envelope, f: Envelope)
    requires AllLegal(START, moves) && e.source == f.source && Ordered(e, f)
    ensures FlowOrdered(RunMoves(START, moves))
    ensures QueuedBefore(RunMoves(START, moves).queue, e, f) ==> StartedAfter(RunMoves(START, moves).node.log, e, f)
  {
    if moves != [] {
      var init := moves[..|moves| - 1];
      RunKeepsStarted(init, e, f);
      RunKeepsInv(init);
      MoveKeepsStarted(RunMoves(START, init), RunMoves(START, moves), moves[|moves| - 1], e, f);
    }
  }

  // ---------------------------------------------------------------- runs that break the order

  lemma FirstQueued(e: Envelope) returns (s: System)
    requires e.sequence >= 1
    ensures Channel.Reachable(s) && s == START.(queue := [Entry(e, false)])
  {
    LeadsSelf(START);
    s := Queued(START, START, e);
    assert START.queue + [Entry(e, false)] == [Entry(e, false)];
  }

  lemma Claimed(s: System, b: nat) returns (u: System)
    requires Channel.Reachable(s) && b in s.node.inbox && IsNext(s.node, b)
    ensures Channel.Reachable(u) && u.queue == s.queue && u.node.connections == s.node.connections
    ensures u.node.next == s.node.next
    ensures u.node.inbox == s.node.inbox[b := InRow(s.node.inbox[b].envelope, Processing)]
    ensures u.node.log == s.node.log + [Start(s.node.inbox[b].envelope)]
  {
    u := NodeActs(START, s, ClaimRow(b));
  }

  /** Different streams: the message queued second is sent, delivered and started first. */
  lemma OtherStreamOvertakes(e: Envelope, f: Envelope) returns (s: System)
    requires e.sequence >= 1 && f.sequence >= 1 && e.id != f.id && e.stream != f.stream
    ensures Channel.Reachable(s) && QueuedBefore(s.queue, e, f) && s.node.log == [Start(f)]
  {
    s := FirstQueued(e);
    s := Queued(START, s, f);
    s := DeliverHead(s, 1);
    assert s.node.inbox == map[0 := InRow(f, Received)];
    assert QueuedAt(s.queue, 0, e) && QueuedAt(s.queue, 1, f);
    s := Claimed(s, 0);
  }

  /** `first` and `e` share a lane in which `first` comes first, `f` follows in another session of their flow. */
  predicate Blocking(first: Envelope, e: Envelope, f: Envelope) {
    && first.sequence == 1 < e.sequence && f.sequence >= 1
    && first.id != e.id && first.id != f.id && e.id != f.id
    && LaneOf(first) == LaneOf(e) && SameFlow(e, f) && e.session != f.session
  }

  lemma FirstInHandling(first: Envelope, e: Envelope, f: Envelope) returns (s: System)
    requires Blocking(first, e, f)
    ensures Channel.Reachable(s) && s.queue == [Entry(first, true), Entry(e, false), Entry(f, false)]
    ensures s.node.inbox == map[0 := InRow(first, Processing)] && s.node.next == 1
    ensures s.node.connections == map[] && s.node.log == [Start(first)]
  {
    s := FirstQueued(first);
    s := Queued(START, s, e);
    s := Queued(START, s, f);
    assert s.queue == [Entry(first, false), Entry(e, false), Entry(f, false)];
    s := DeliverHead(s, 0);
    assert s.node.inbox == map[0 := InRow(first, Received)];
    s := Claimed(s, 0);
  }

  lemma OthersDelivered(s: System, first: Envelope, e: Envelope, f: Envelope) returns (u: System)
    requires Blocking(first, e, f)
    requires Channel.Reachable(s) && s.queue == [Entry(first, true), Entry(e, false), Entry(f, false)]
    requires s.node.inbox == map[0 := InRow(first, Processing)] && s.node.next == 1 && s.node.connections == map[]
    ensures Channel.Reachable(u) && u.queue == [Entry(first, true), Entry(e, true), Entry(f, true)]
    ensures u.node.log == s.node.log
    ensures u.node.inbox == map[0 := InRow(first, Processing), 1 := InRow(e, Received), 2 := InRow(f, Received)]
  {
    u := DeliverHead(s, 1);
    assert u.node.inbox == map[0 := InRow(first, Processing), 1 := InRow(e, Received)];
    u := DeliverHead(u, 2);
  }

  /** While the first message of a session is being handled the second waits, and a message
      of another session that was queued after it is started. */
  lemma OtherSessionOvertakes(first: Envelope, e: Envelope, f: Envelope) returns (s: System)
    requires Blocking(first, e, f)
    ensures Channel.Reachable(s) && QueuedBefore(s.queue, e, f) && s.node.log == [Start(first), Start(f)]
  {
    s := FirstInHandling(first, e, f);
    s := OthersDelivered(s, first, e, f);
    ThirdIsNext(s.node, first, e, f);
    s := Claimed(s, 2);
    assert QueuedAt(s.queue, 1, e) && QueuedAt(s.queue, 2, f);
  }

  lemma ThirdIsNext(n: Node, first: Envelope, e: Envelope, f: Envelope)
    requires Blocking(first, e, f)
    requires n.inbox == map[0 := InRow(first, Processing), 1 := InRow(e, Received), 2 := InRow(f, Received)]
    ensures IsNext(n, 2)
  {
    assert n.inbox[0] == InRow(first, Processing) && n.inbox[1] == InRow(e, Received);
    assert n.inbox[2] == InRow(f, Received);
    assert !Claimable(n, 0);
    assert !Claimable(n, 1) by {
      assert 0 in n.inbox && LaneOf(n.inbox[0].envelope) == LaneOf(n.inbox[1].envelope);
    }
    assert Claimable(n, 2);
  }

  /** Two messages of one source keep their order in every run if and only if they share the
      stream and either share the session too or the earlier one is the first of its session.
      `spare` is an identifier that neither of them bears. */
  lemma KeepsOrderExactly(e: Envelope, f: Envelope, spare: Text)
    requires e.source == f.source && e.sequence >= 1 && f.sequence >= 1 && e.id != f.id && spare != e.id
    requires spare != f.id
    ensures KeepsOrder(e, f) <==> Ordered(e, f)
  {
    if Ordered(e, f) {
      forall s | Channel.Reachable(s) && QueuedBefore(s.queue, e, f) ensures StartedAfter(s.node.log, e, f) {
        var moves :| AllLegal(START, moves) && RunMoves(START, moves) == s;
        RunKeepsStarted(moves, e, f);
      }
    } else if e.stream != f.stream {
      var s := OtherStreamOvertakes(e, f);
      assert s.node.log[0] == Start(f) && !Begun(s.node.log[..0], e);
    } else {
      var s := OtherSessionOvertakes(e.(id := spare, sequence := 1), e, f);
      assert s.node.log[1] == Start(f) && !Begun(s.node.log[..1], e);
    }
  }
}
