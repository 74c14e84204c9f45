/** Senders' durable queues and one receiver, joined by a network that loses frames and
    acknowledgements, with crashes on either side: handling is first-in first-out per
    source, session and stream. */
module Channel {
  import opened Ump
  import opened Outbox
  import opened Receiver
  import opened Handling

  /** A row bound for this receiver; the outboxes of all sources are merged in enqueue order. */
  datatype Entry = Entry(envelope: Envelope, delivered: bool)

  /** `sent` holds every frame ever put on the wire; a frame may be served late, repeatedly or never. */
  datatype System = System(queue: seq<Entry>, sent: set<Envelope>, node: Node)

  const START := System([], {}, INITIAL)

  datatype Move =
    | Enqueue(envelope: Envelope)
    | SendHead(index: nat)
    | Confirm(index: nat)
    | Receive(act: Action)

  predicate SameFlow(a: Envelope, b: Envelope) {
    a.source == b.source && a.stream == b.stream
  }

  /** The oldest undelivered row of its source and stream. */
  predicate IsHead(s: System, i: nat) {
    && i < |s.queue| && !s.queue[i].delivered
    && forall j :: 0 <= j < i && SameFlow(s.queue[j].envelope, s.queue[i].envelope) ==> s.queue[j].delivered
  }

  /** Identifiers are fresh and sequences increase in queue order within a session and stream. */
  predicate WellNumbered(s: System, e: Envelope) {
    && e.sequence >= 1
    && forall j :: 0 <= j < |s.queue| ==>
      s.queue[j].envelope.id != e.id &&
        (LaneOf(s.queue[j].envelope) == LaneOf(e) ==> s.queue[j].envelope.sequence < e.sequence)
  }

  function Step(s: System, m: Move): System {
    match m
    case Enqueue(e) => s.(queue := s.queue + [Entry(e, false)])
    case SendHead(i) => if IsHead(s, i) then s.(sent := s.sent + {s.queue[i].envelope}) else s
    case Confirm(i) =>
      if IsHead(s, i) && s.queue[i].envelope.id in s.node.acks then
        s.(queue := s.queue[i := s.queue[i].(delivered := true)])
      else s
    case Receive(act) => s.(node := Act(s.node, act))
  }

  predicate Legal(s: System, m: Move) {
    && (m.Enqueue? ==> WellNumbered(s, m.envelope))
    && (m.Receive? ==> Apart(s.node, m.act) && (m.act.Open? ==> m.act.envelope in s.sent))
  }

  function RunMoves(s: System, moves: seq<Move>): System {
    if moves == [] then s else Step(RunMoves(s, moves[..|moves| - 1]), moves[|moves| - 1])
  }

  predicate AllLegal(s: System, moves: seq<Move>) {
    moves == [] || (AllLegal(s, moves[..|moves| - 1]) && Legal(RunMoves(s, moves[..|moves| - 1]), moves[|moves| - 1]))
  }

  /** Some legal run goes from one state to the other. */
  ghost predicate Leads(s: System, s': System) {
    exists moves :: AllLegal(s, moves) && RunMoves(s, moves) == s'
  }

  /** A state some run of senders, network and receiver can reach. */
  ghost predicate Reachable(s: System) {
    Leads(START, s)
  }

  // ---------------------------------------------------------------- invariant

  predicate QueueOk(s: System) {
    && (forall i, j :: 0 <= i < j < |s.queue| ==> s.queue[i].envelope.id != s.queue[j].envelope.id)
    && (forall i, j :: 0 <= i < j < |s.queue| && LaneOf(s.queue[i].envelope) == LaneOf(s.queue[j].envelope) ==>
      s.queue[i].envelope.sequence < s.queue[j].envelope.sequence)
    && (forall i :: 0 <= i < |s.queue| ==> s.queue[i].envelope.sequence >= 1)
    && (forall i :: 0 <= i < |s.queue| && s.queue[i].delivered ==> s.queue[i].envelope.id in s.node.acks)
  }

  /** The frame is row `x` of the queue and every earlier row of its flow is delivered. */
  predicate SentAs(s: System, e: Envelope, x: nat) {
    && x < |s.queue| && s.queue[x].envelope == e
    && forall j :: 0 <= j < x && SameFlow(s.queue[j].envelope, e) ==> s.queue[j].delivered
  }

  ghost predicate SentOk(s: System) {
    && (forall e :: e in s.sent ==> exists x :: SentAs(s, e, x))
    && (forall i :: i in s.node.inbox ==> s.node.inbox[i].envelope in s.sent)
    && (forall k :: k in s.node.connections ==> s.node.connections[k].envelope in s.sent)
  }

  /** Within a lane, inbox order is sequence order. */
  predicate InboxOrdered(n: Node) {
    forall a, b ::
      a in n.inbox && b in n.inbox && a < b && LaneOf(n.inbox[a].envelope) == LaneOf(n.inbox[b].envelope) ==>
        n.inbox[a].envelope.sequence < n.inbox[b].envelope.sequence
  }

  /** Each floor is the sequence of some stored row, and a new message is always above it. */
  predicate FloorsOk(n: Node) {
    && (forall l :: l in n.floors ==> FloorStored(n, l))
    && (forall k :: k in n.connections && n.connections[k].Enqueued? && n.connections[k].isNew ==>
      Floor(n, LaneOf(n.connections[k].envelope)) < n.connections[k].envelope.sequence &&
        n.connections[k].envelope.id !in n.acks)
    && (forall k :: k in n.connections && n.connections[k].Replayed? ==> !n.connections[k].isNew)
  }

  predicate Done(s: Status) {
    s == Processed || s == HandlerFailed
  }

  predicate AllDoneBefore(n: Node, b: nat)
  {
    && b in n.inbox
    && forall a :: a in n.inbox && a < b && LaneOf(n.inbox[a].envelope) == LaneOf(n.inbox[b].envelope) ==>
      Done(n.inbox[a].status)
  }

  /** Whatever is being handled, everything before it in its lane is finished. */
  predicate OneAtATime(n: Node) {
    forall b :: b in n.inbox && n.inbox[b].status == Processing ==> AllDoneBefore(n, b)
  }

  ghost predicate SystemInv(s: System) {
    Receiver.Inv(s.node) && LogOk(s.node) && QueueOk(s) && SentOk(s) && InboxOrdered(s.node) && FloorsOk(s.node) &&
      OneAtATime(s.node)
  }

  // ---------------------------------------------------------------- consequences of the invariant

  /** The stored row with the identifier of queue row `x` is that very message. */
  lemma SafeRow(s: System, x: nat) returns (a: nat)
    requires SystemInv(s) && x < |s.queue| && SafeId(s.node, s.queue[x].envelope.id)
    ensures a in s.node.inbox && s.node.inbox[a].envelope == s.queue[x].envelope && s.node.inbox[a].status != Staged
  {
    a :| a in s.node.inbox && s.node.inbox[a].envelope.id == s.queue[x].envelope.id && s.node.inbox[a].status != Staged;
    var z :| SentAs(s, s.node.inbox[a].envelope, z);
    assert z == x;
  }

  lemma PositionOf(s: System, e: Envelope) returns (x: nat)
    requires SystemInv(s) && e in s.sent
    ensures SentAs(s, e, x)
  {
    x :| SentAs(s, e, x);
  }

  /** A claimable row has every earlier row of its lane finished. */
  lemma ClaimableFollowsFinished(s: System, b: nat)
    requires SystemInv(s) && Claimable(s.node, b)
    ensures AllDoneBefore(s.node, b)
  {
  }

  // ---------------------------------------------------------------- what a receiver step can change

  predicate At(n: Node, k: nat, c: Connection) {
    k in n.connections && n.connections[k] == c
  }

  /** A step adds at most one row, the staged message of the stepping connection, and then only if it is new. */
  lemma InboxGrowth(n: Node, act: Action, i: nat)
    requires i in Act(n, act).inbox && i !in n.inbox
    ensures act.Stage? && act.connection in n.connections && i == n.next
    ensures Act(n, act).inbox[i] == InRow(n.connections[act.connection].envelope, Staged)
    ensures !HasId(n, n.connections[act.connection].envelope.id)
    ensures Act(n, act).inbox == n.inbox[i := Act(n, act).inbox[i]]
  {
  }

  lemma FloorChange(n: Node, act: Action)
    ensures Act(n, act).floors == n.floors ||
      (act.Judge? && act.connection in n.connections && n.connections[act.connection].Enqueued? && (
      var e := n.connections[act.connection].envelope;
      Act(n, act).floors == n.floors[LaneOf(e) := e.sequence] && At(Act(n, act), act.connection, Admitted(e))))
  {
  }

  lemma AckChange(n: Node, act: Action)
    ensures n.acks <= Act(n, act).acks
    ensures forall id :: id in Act(n, act).acks && id !in n.acks ==>
      act.Acknowledge? && act.connection in n.connections && n.connections[act.connection].envelope.id == id &&
        Act(n, act).connections == n.connections - {act.connection}
  {
  }

  /** Where a connection that may still discard its row comes from. */
  lemma NewnessOrigin(n: Node, act: Action, k: nat, e: Envelope)
    ensures At(Act(n, act), k, Enqueued(e, true)) ==>
      At(n, k, Enqueued(e, true)) ||
        (act == Stage(k) && At(n, k, Opened(e)) && !HasId(n, e.id) && Act(n, act).floors == n.floors &&
          Act(n, act).acks == n.acks)
    ensures At(Act(n, act), k, Replayed(e, true)) ==>
      At(n, k, Replayed(e, true)) || (At(n, k, Enqueued(e, true)) && e.sequence <= Floor(n, LaneOf(e)))
  {
  }

  // ---------------------------------------------------------------- preservation by the receiver

  lemma ReceiveKeepsQueue(s: System, act: Action)
    requires QueueOk(s)
    ensures QueueOk(s.(node := Act(s.node, act)))
  {
    AckChange(s.node, act);
  }

  lemma ReceiveKeepsSent(s: System, s': System, act: Action)
    requires SentOk(s) && Legal(s, Receive(act)) && s' == s.(node := Act(s.node, act)) && Kept(s.node, s'.node)
    ensures SentOk(s')
  {
    forall e | e in s'.sent ensures exists x :: SentAs(s', e, x) {
      var x :| SentAs(s, e, x);
      assert SentAs(s', e, x);
    }
    forall i | i in s'.node.inbox ensures s'.node.inbox[i].envelope in s.sent {
      if i !in s.node.inbox {
        InboxGrowth(s.node, act, i);
      }
    }
    forall k | k in s'.node.connections ensures s'.node.connections[k].envelope in s.sent {
      ConnectionMoves(s.node, act, k);
    }
  }

  lemma ReceiveKeepsOrder(s: System, n': Node, act: Action)
    requires SystemInv(s) && n' == Act(s.node, act) && Kept(s.node, n')
    ensures InboxOrdered(n')
  {
    forall a, b | a in n'.inbox && b in n'.inbox && a < b &&
      LaneOf(n'.inbox[a].envelope) == LaneOf(n'.inbox[b].envelope)
      ensures n'.inbox[a].envelope.sequence < n'.inbox[b].envelope.sequence
    {
      if a !in s.node.inbox {
        InboxGrowth(s.node, act, a);
        assert false;
      } else if b !in s.node.inbox {
        InboxGrowth(s.node, act, b);
      }
    }
  }

  lemma NewIsAboveFloor(s: System, e: Envelope)
    requires SystemInv(s) && e in s.sent && !HasId(s.node, e.id)
    ensures Floor(s.node, LaneOf(e)) < e.sequence && e.id !in s.node.acks
  {
  }

  /** Raising a floor never overtakes a message that is staged as new. */
  lemma RaisedFloorStaysBelow(s: System, e: Envelope, f: Envelope)
    requires SystemInv(s) && e in s.sent && f in s.sent && LaneOf(e) == LaneOf(f) && e.id != f.id
    requires e.id !in s.node.acks
    ensures f.sequence < e.sequence
  {
  }

  lemma ReceiveKeepsFloors(s: System, s': System, act: Action)
    requires SystemInv(s) && Legal(s, Receive(act)) && s' == s.(node := Act(s.node, act)) && Kept(s.node, s'.node)
    ensures FloorsOk(s'.node)
  {
    FloorChange(s.node, act);
    forall k, e | At(s'.node, k, Enqueued(e, true))
      ensures Floor(s'.node, LaneOf(e)) < e.sequence && e.id !in s'.node.acks
    {
      NewStaysAbove(s, s'.node, act, k, e);
    }
    forall k | k in s'.node.connections && s'.node.connections[k].Enqueued? && s'.node.connections[k].isNew
      ensures Floor(s'.node, LaneOf(s'.node.connections[k].envelope)) < s'.node.connections[k].envelope.sequence
      ensures s'.node.connections[k].envelope.id !in s'.node.acks
    {
      assert At(s'.node, k, Enqueued(s'.node.connections[k].envelope, true));
    }
    forall k | k in s'.node.connections && s'.node.connections[k].Replayed? ensures !s'.node.connections[k].isNew {
      NewnessOrigin(s.node, act, k, s'.node.connections[k].envelope);
    }
  }

  predicate SequenceStored(n: Node, l: Lane, sequence: nat) {
    exists i :: i in n.inbox && LaneOf(n.inbox[i].envelope) == l && n.inbox[i].envelope.sequence == sequence
  }

  /** Each floor is the sequence of some stored row. */
  predicate FloorStored(n: Node, l: Lane)
  {
    l in n.floors && (n.floors[l] == 0 || SequenceStored(n, l, n.floors[l]))
  }

  lemma NewStaysAbove(s: System, n': Node, act: Action, k: nat, e: Envelope)
    requires SystemInv(s) && n' == Act(s.node, act) && At(n', k, Enqueued(e, true))
    ensures Floor(n', LaneOf(e)) < e.sequence && e.id !in n'.acks
  {
    NewnessOrigin(s.node, act, k, e);
    if At(s.node, k, Enqueued(e, true)) {
      AckChange(s.node, act);
      FloorChange(s.node, act);
      var j := if act.Judge? then act.connection else k;
      if n'.floors != s.node.floors && LaneOf(s.node.connections[j].envelope) == LaneOf(e) {
        RaisedFloorStaysBelow(s, e, s.node.connections[j].envelope);
      }
    } else {
      NewIsAboveFloor(s, e);
    }
  }

  // ---------------------------------------------------------------- handling

  /** What a step other than a claim does to the stored rows' status. */
  predicate Orderly(before: Status, after: Status) {
    && (after == Processing ==> before == Processing)
    && (Done(before) ==> Done(after))
  }

  predicate OrderlyStep(n: Node, n': Node) {
    && (forall i :: i in n.inbox && i in n'.inbox ==>
      n'.inbox[i].envelope == n.inbox[i].envelope && Orderly(n.inbox[i].status, n'.inbox[i].status))
    && (forall i :: i in n'.inbox && i !in n.inbox ==> n'.inbox[i].status == Staged && i >= n.next)
  }

  lemma StageIsOrderly(n: Node, k: nat, e: Envelope)
    requires UniqueIds(n)
    ensures OrderlyStep(n, StageEnvelope(n, k, e))
  {
  }

  lemma ActivateIsOrderly(n: Node, id: Text)
    ensures OrderlyStep(n, ActivateRow(n, id))
  {
  }

  lemma StepIsOrderly(n: Node, act: Action)
    requires UniqueIds(n) && !act.ClaimRow?
    ensures OrderlyStep(n, Act(n, act))
  {
    if act.Stage? {
      if act.connection in n.connections { StageIsOrderly(n, act.connection, n.connections[act.connection].envelope); }
    } else if act.Activate? {
      if act.connection in n.connections {
        ActivateIsOrderly(Advance(n, act.connection, Activated(n.connections[act.connection].envelope)),
          n.connections[act.connection].envelope.id);
      }
    }
  }

  lemma ReceiveKeepsOneAtATime(s: System, act: Action)
    requires SystemInv(s)
    ensures OneAtATime(Act(s.node, act))
  {
    if act.ClaimRow? {
      if act.order in s.node.inbox && IsNext(s.node, act.order) {
        ClaimableFollowsFinished(s, act.order);
      } else {
        assert Act(s.node, act) == s.node;
      }
    } else {
      StepIsOrderly(s.node, act);
    }
  }

  lemma ReceiveKeepsInv(s: System, s': System, act: Action)
    requires SystemInv(s) && Legal(s, Receive(act)) && s' == s.(node := Act(s.node, act))
    ensures SystemInv(s')
  {
    assert !Discards(s.node, act);
    StepKeepsRows(s.node, act);
    StepKeepsInv(s.node, act);
    StepKeepsLog(s.node, act);
    ReceiveKeepsQueue(s, act);
    ReceiveKeepsSent(s, s', act);
    ReceiveKeepsOrder(s, s'.node, act);
    ReceiveKeepsFloors(s, s', act);
    ReceiveKeepsOneAtATime(s, act);
  }

  // ---------------------------------------------------------------- preservation by the senders

  lemma EnqueueKeepsInv(s: System, s': System, e: Envelope)
    requires SystemInv(s) && WellNumbered(s, e) && s' == s.(queue := s.queue + [Entry(e, false)])
    ensures SystemInv(s')
  {
    forall f | f in s'.sent ensures exists x :: SentAs(s', f, x) {
      var x := PositionOf(s, f);
      assert SentAs(s', f, x);
    }
  }

  lemma SendKeepsInv(s: System, s': System, i: nat)
    requires SystemInv(s) && IsHead(s, i) && s' == s.(sent := s.sent + {s.queue[i].envelope})
    ensures SystemInv(s')
  {
    forall f | f in s'.sent ensures exists x :: SentAs(s', f, x) {
      var x := i;
      if f in s.sent { x := PositionOf(s, f); }
      assert SentAs(s', f, x);
    }
  }

  lemma ConfirmKeepsQueue(s: System, s': System, i: nat)
    requires QueueOk(s) && i < |s.queue| && s.queue[i].envelope.id in s.node.acks
    requires s' == s.(queue := s.queue[i := s.queue[i].(delivered := true)])
    ensures QueueOk(s')
  {
  }

  lemma ConfirmKeepsSent(s: System, s': System, i: nat)
    requires SentOk(s) && i < |s.queue| && s' == s.(queue := s.queue[i := s.queue[i].(delivered := true)])
    ensures SentOk(s')
  {
    forall f | f in s'.sent ensures exists x :: SentAs(s', f, x) {
      var x :| SentAs(s, f, x);
      assert SentAs(s', f, x);
    }
  }

  lemma ConfirmKeepsInv(s: System, s': System, i: nat)
    requires SystemInv(s) && i < |s.queue| && s.queue[i].envelope.id in s.node.acks
    requires s' == s.(queue := s.queue[i := s.queue[i].(delivered := true)])
    ensures SystemInv(s')
  {
    ConfirmKeepsQueue(s, s', i);
    ConfirmKeepsSent(s, s', i);
  }

  lemma MoveKeepsInv(s: System, m: Move)
    requires SystemInv(s) && Legal(s, m)
    ensures SystemInv(Step(s, m))
  {
    match m {
      case Enqueue(e) => EnqueueKeepsInv(s, Step(s, m), e);
      case SendHead(i) => if IsHead(s, i) { SendKeepsInv(s, Step(s, m), i); }
      case Confirm(i) => if IsHead(s, i) && s.queue[i].envelope.id in s.node.acks { ConfirmKeepsInv(s, Step(s, m), i); }
      case Receive(act) => ReceiveKeepsInv(s, Step(s, m), act);
    }
  }

  lemma {:induction false} RunKeepsInv(moves: seq<Move>)
    requires AllLegal(START, moves)
    ensures SystemInv(RunMoves(START, moves)) && FirstInFirstOut(RunMoves(START, moves))
  {
    if moves != [] {
      var init := moves[..|moves| - 1];
      RunKeepsInv(init);
      MoveKeepsInv(RunMoves(START, init), moves[|moves| - 1]);
      MoveKeepsFifo(RunMoves(START, init), moves[|moves| - 1]);
    }
  }

  // ---------------------------------------------------------------- first in, first out

  /** The messages of a lane in enqueue order. */
  function LaneQueue(queue: seq<Entry>, l: Lane): seq<Envelope> {
    if queue == [] then []
    else
      var last := queue[|queue| - 1].envelope;
      LaneQueue(queue[..|queue| - 1], l) + if LaneOf(last) == l then [last] else []
  }

  /** The messages of a lane in the order in which their handlers first started. */
  function FirstStarts(log: seq<Event>, l: Lane): seq<Envelope> {
    if log == [] then []
    else
      var earlier, last := FirstStarts(log[..|log| - 1], l), log[|log| - 1];
      earlier + if last.Start? && LaneOf(last.envelope) == l && last.envelope !in earlier then [last.envelope] else []
  }

  ghost predicate FirstInFirstOut(s: System) {
    forall l :: FirstStarts(s.node.log, l) <= LaneQueue(s.queue, l)
  }

  lemma {:induction false} FirstStartsMembers(log: seq<Event>, l: Lane, e: Envelope)
    ensures e in FirstStarts(log, l) <==> Begun(log, e) && LaneOf(e) == l
  {
    if log != [] {
      FirstStartsMembers(log[..|log| - 1], l, e);
      assert log == log[..|log| - 1] + [log[|log| - 1]];
    }
  }

  lemma {:induction false} LaneQueueMembers(queue: seq<Entry>, l: Lane, e: Envelope) returns (x: nat)
    requires e in LaneQueue(queue, l)
    ensures x < |queue| && queue[x].envelope == e && LaneOf(e) == l
  {
    var last := queue[|queue| - 1].envelope;
    if LaneOf(last) == l && last == e {
      x := |queue| - 1;
    } else {
      x := LaneQueueMembers(queue[..|queue| - 1], l, e);
    }
  }

  /** Row `y` comes in its lane right after the lane's rows among the first `y`. */
  lemma {:induction false} LaneQueueSplits(queue: seq<Entry>, l: Lane, y: nat)
    requires y < |queue| && LaneOf(queue[y].envelope) == l
    ensures LaneQueue(queue[..y], l) + [queue[y].envelope] <= LaneQueue(queue, l)
  {
    var init := queue[..|queue| - 1];
    if y < |init| {
      LaneQueueSplits(init, l, y);
      assert init[..y] == queue[..y];
    }
  }

  lemma {:induction false} LaneQueueDistinct(queue: seq<Entry>, l: Lane)
    requires forall i, j :: 0 <= i < j < |queue| ==> queue[i].envelope.id != queue[j].envelope.id
    ensures Distinct(LaneQueue(queue, l))
  {
    if queue != [] {
      var init, last := queue[..|queue| - 1], queue[|queue| - 1].envelope;
      LaneQueueDistinct(init, l);
      if last in LaneQueue(init, l) {
        var x := LaneQueueMembers(init, l, last);
        assert false;
      }
    }
  }

  /** Adding the next message of a list to a prefix that holds everything before it. */
  lemma PrefixExtends(first: seq<Envelope>, before: seq<Envelope>, all: seq<Envelope>, e: Envelope)
    requires Distinct(all) && first <= all && before + [e] <= all && e !in first
    requires forall f :: f in before ==> f in first
    ensures first + [e] <= all
  {
    var p, m := |before|, |first|;
    assert all[p] == (before + [e])[p] == e;
    assert p >= m;
    assert forall i :: 0 <= i < p ==> (before + [e])[i] == all[i] && before[i] == all[i] && before[i] in first;
  }

  /** Everything queued before a claimable message has begun. */
  lemma EarlierHasBegun(s: System, b: nat, x: nat, y: nat)
    requires SystemInv(s) && Claimable(s.node, b) && x < y < |s.queue|
    requires s.node.inbox[b].envelope == s.queue[y].envelope
    requires LaneOf(s.queue[x].envelope) == LaneOf(s.queue[y].envelope)
    ensures Begun(s.node.log, s.queue[x].envelope)
  {
  }

  lemma ClaimKeepsFifo(s: System, b: nat, log: seq<Event>)
    requires SystemInv(s) && FirstInFirstOut(s) && Claimable(s.node, b)
    requires log == s.node.log + [Start(s.node.inbox[b].envelope)]
    ensures forall l :: FirstStarts(log, l) <= LaneQueue(s.queue, l)
  {
    var e := s.node.inbox[b].envelope;
    var l := LaneOf(e);
    var y := PositionOf(s, e);
    var first, before := FirstStarts(s.node.log, l), LaneQueue(s.queue[..y], l);
    assert log[..|log| - 1] == s.node.log;
    if e !in first {
      LaneQueueSplits(s.queue, l, y);
      LaneQueueDistinct(s.queue, l);
      forall f | f in before ensures f in first {
        var x := LaneQueueMembers(s.queue[..y], l, f);
        EarlierHasBegun(s, b, x, y);
        FirstStartsMembers(s.node.log, l, f);
      }
      PrefixExtends(first, before, LaneQueue(s.queue, l), e);
    }
  }

  lemma {:induction false} LaneQueueIgnoresDelivery(queue: seq<Entry>, other: seq<Entry>, l: Lane)
    requires |other| == |queue| && forall i :: 0 <= i < |queue| ==> other[i].envelope == queue[i].envelope
    ensures LaneQueue(other, l) == LaneQueue(queue, l)
  {
    if queue != [] {
      LaneQueueIgnoresDelivery(queue[..|queue| - 1], other[..|queue| - 1], l);
    }
  }

  /** The log after a step: a start is logged exactly by a claim of the next row. */
  predicate LogStep(n: Node, act: Action, log: seq<Event>) {
    || log == n.log
    || (|log| == |n.log| + 1 && log[..|n.log|] == n.log && !log[|n.log|].Start?)
    || (act.ClaimRow? && IsNext(n, act.order) && log == n.log + [Start(n.inbox[act.order].envelope)])
  }

  lemma StepsLog(n: Node, act: Action)
    ensures LogStep(n, act, Act(n, act).log)
  {
  }

  lemma LogStepKeepsFifo(s: System, act: Action, log: seq<Event>)
    requires SystemInv(s) && FirstInFirstOut(s) && LogStep(s.node, act, log)
    ensures forall l :: FirstStarts(log, l) <= LaneQueue(s.queue, l)
  {
    if act.ClaimRow? && Claimable(s.node, act.order) && log == s.node.log + [Start(s.node.inbox[act.order].envelope)] {
      ClaimKeepsFifo(s, act.order, log);
    }
  }

  lemma MoveKeepsFifo(s: System, m: Move)
    requires SystemInv(s) && FirstInFirstOut(s)
    ensures FirstInFirstOut(Step(s, m))
  {
    var s' := Step(s, m);
    match m {
      case Enqueue(e) => assert s'.queue[..|s.queue|] == s.queue;
      case SendHead(i) =>
      case Confirm(i) =>
        forall l ensures LaneQueue(s'.queue, l) == LaneQueue(s.queue, l) {
          LaneQueueIgnoresDelivery(s.queue, s'.queue, l);
        }
      case Receive(act) =>
        StepsLog(s.node, act);
        LogStepKeepsFifo(s, act, s'.node.log);
    }
  }

  lemma ReachableInv(s: System)
    ensures Reachable(s) ==> SystemInv(s) && FirstInFirstOut(s)
  {
    if Reachable(s) {
      var moves :| AllLegal(START, moves) && RunMoves(START, moves) == s;
      RunKeepsInv(moves);
    }
  }

  /** Over every run, with frames and acknowledgements lost, repeated or late and crashes
      anywhere, the first handler starts of every lane are a prefix of its enqueue order. */
  lemma HandlingIsFirstInFirstOut(s: System)
    requires Reachable(s)
    ensures FirstInFirstOut(s)
  {
    ReachableInv(s);
  }

  /** Over the same runs, a message is handled again only after a crash interrupted it. */
  lemma RepeatedHandlingFollowsCrash(s: System)
    requires Reachable(s)
    ensures RestartsOnlyAfterCrash(s.node.log)
  {
    ReachableInv(s);
  }

  /** At most one message of a lane is being handled, and everything before it is finished. */
  lemma OneHandlerPerLane(s: System, a: nat, b: nat)
    requires Reachable(s) && a in s.node.inbox && b in s.node.inbox
    requires LaneOf(s.node.inbox[a].envelope) == LaneOf(s.node.inbox[b].envelope)
    requires s.node.inbox[b].status == Processing
    ensures a < b ==> Done(s.node.inbox[a].status)
    ensures a != b ==> s.node.inbox[a].status != Processing
  {
    ReachableInv(s);
    assert AllDoneBefore(s.node, b);
  }

  /** What the sender counts as delivered is in the inbox, activated. */
  lemma DeliveredIsStored(s: System, i: nat)
    requires Reachable(s) && i < |s.queue| && s.queue[i].delivered
    ensures Safe(s.node, s.queue[i].envelope)
  {
    ReachableInv(s);
    var a := SafeRow(s, i);
  }
}
