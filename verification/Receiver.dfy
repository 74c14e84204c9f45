/** The receive path: concurrent connections that stage, judge, activate and acknowledge
    a message, the replay floors, and the workers that drain the inbox. */
module Receiver {
  import opened Ump
  import opened Outbox

  datatype Lane = Lane(source: Text, session: Text, stream: Stream)

  function LaneOf(e: Envelope): Lane {
    Lane(e.source, e.session, e.stream)
  }

  datatype Status = Staged | Received | Processing | Processed | HandlerFailed

  datatype InRow = InRow(envelope: Envelope, status: Status)

  /** How far a connection has come with the envelope it carries. */
  datatype Connection =
    | Opened(envelope: Envelope)
    | Enqueued(envelope: Envelope, isNew: bool)
    | Admitted(envelope: Envelope)
    | Replayed(envelope: Envelope, isNew: bool)
    | Matched(envelope: Envelope)
    | Activated(envelope: Envelope)

  datatype Event = Start(envelope: Envelope) | Finish(envelope: Envelope) | Restart

  /** `inbox` is keyed by inbox order and, like `floors`, durable; `connections` are lost
      in a crash. `acks` and `log` record what happened. */
  datatype Node = Node(
    inbox: map<nat, InRow>,
    next: nat,
    floors: map<Lane, nat>,
    connections: map<nat, Connection>,
    acks: set<Text>,
    log: seq<Event>)

  const INITIAL := Node(map[], 0, map[], map[], {}, [])

  datatype Action =
    | Open(connection: nat, envelope: Envelope)
    | Stage(connection: nat)
    | Judge(connection: nat)
    | Check(connection: nat)
    | Activate(connection: nat)
    | Acknowledge(connection: nat)
    | Drop(connection: nat)
    | ClaimRow(order: nat)
    | FinishRow(order: nat, ok: bool)
    | Crash

  // ---------------------------------------------------------------- inbox operations

  predicate HasId(n: Node, id: Text) {
    exists i :: i in n.inbox && n.inbox[i].envelope.id == id
  }

  predicate ContainsExact(n: Node, e: Envelope) {
    exists i :: i in n.inbox && n.inbox[i].envelope == e
  }

  predicate SlotUsed(n: Node, e: Envelope) {
    exists i :: i in n.inbox && LaneOf(n.inbox[i].envelope) == LaneOf(e) && n.inbox[i].envelope.sequence == e.sequence
  }

  function ActivateRow(n: Node, id: Text): Node {
    n.(inbox := map i | i in n.inbox :: if n.inbox[i].envelope.id == id && n.inbox[i].status == Staged then
      n.inbox[i].(status := Received) else n.inbox[i])
  }

  function DiscardStaged(n: Node, id: Text): Node {
    n.(inbox := map i | i in n.inbox && !(n.inbox[i].envelope.id == id && n.inbox[i].status == Staged) :: n.inbox[i])
  }

  function FloorOf(floors: map<Lane, nat>, l: Lane): nat {
    if l in floors then floors[l] else 0
  }

  function Floor(n: Node, l: Lane): nat {
    FloorOf(n.floors, l)
  }

  /** A received row that no earlier unfinished row of its lane holds back. */
  predicate Claimable(n: Node, i: nat) {
    && i in n.inbox && n.inbox[i].status == Received
    && forall j :: j in n.inbox && j < i && LaneOf(n.inbox[j].envelope) == LaneOf(n.inbox[i].envelope) ==>
      n.inbox[j].status != Received && n.inbox[j].status != Processing
  }

  predicate Before(n: Node, i: nat, j: nat)
  {
    && i in n.inbox && j in n.inbox
    && if n.inbox[i].envelope.stream != n.inbox[j].envelope.stream then n.inbox[i].envelope.stream == Safety else i <= j
  }

  /** The row a worker takes: safety messages first, then inbox order. */
  predicate IsNext(n: Node, i: nat) {
    Claimable(n, i) && forall j :: j in n.inbox && Claimable(n, j) ==> Before(n, i, j)
  }

  // ---------------------------------------------------------------- steps

  function Close(n: Node, k: nat): Node {
    n.(connections := n.connections - {k})
  }

  function Advance(n: Node, k: nat, c: Connection): Node {
    n.(connections := n.connections[k := c])
  }

  function StageEnvelope(n: Node, k: nat, e: Envelope): Node {
    if HasId(n, e.id) then
      if ContainsExact(n, e) then Advance(n, k, Enqueued(e, false)) else Close(n, k)
    else if SlotUsed(n, e) then Close(n, k)
    else Advance(n, k, Enqueued(e, true)).(inbox := n.inbox[n.next := InRow(e, Staged)], next := n.next + 1)
  }

  function JudgeEnvelope(n: Node, k: nat, c: Connection): Node
    requires c.Enqueued?
  {
    var e := c.envelope;
    if e.sequence <= Floor(n, LaneOf(e)) then Advance(n, k, Replayed(e, c.isNew))
    else Advance(n, k, Admitted(e)).(floors := n.floors[LaneOf(e) := e.sequence])
  }

  function CheckReplay(n: Node, k: nat, c: Connection): Node
    requires c.Replayed?
  {
    if !c.isNew && ContainsExact(n, c.envelope) then Advance(n, k, Matched(c.envelope))
    else if c.isNew then DiscardStaged(Close(n, k), c.envelope.id)
    else Close(n, k)
  }

  /** One step; an action that is not enabled changes nothing. */
  function Act(n: Node, act: Action): Node {
    match act
    case Open(k, e) => if k in n.connections then n else Advance(n, k, Opened(e))
    case Stage(k) =>
      if k in n.connections && n.connections[k].Opened? then StageEnvelope(n, k, n.connections[k].envelope) else n
    case Judge(k) =>
      if k in n.connections && n.connections[k].Enqueued? then JudgeEnvelope(n, k, n.connections[k]) else n
    case Check(k) => if k in n.connections && n.connections[k].Replayed? then CheckReplay(n, k, n.connections[k]) else n
    case Activate(k) =>
      if k in n.connections && (n.connections[k].Admitted? || n.connections[k].Matched?) then
        ActivateRow(Advance(n, k, Activated(n.connections[k].envelope)), n.connections[k].envelope.id)
      else n
    case Acknowledge(k) =>
      if k in n.connections && n.connections[k].Activated? then
        Close(n, k).(acks := n.acks + {n.connections[k].envelope.id})
      else n
    case Drop(k) => Close(n, k)
    case ClaimRow(i) =>
      if i in n.inbox && IsNext(n, i) then
        n.(inbox := n.inbox[i := n.inbox[i].(status := Processing)], log := n.log + [Start(n.inbox[i].envelope)])
      else n
    case FinishRow(i, ok) =>
      if i in n.inbox && n.inbox[i].status == Processing then
        n.(
          inbox := n.inbox[i := n.inbox[i].(status := if ok then Processed else HandlerFailed)],
          log := n.log + [Finish(n.inbox[i].envelope)])
      else n
    case Crash =>
      n.(
        inbox := map i | i in n.inbox ::
          if n.inbox[i].status == Processing then n.inbox[i].(status := Received) else n.inbox[i],
        connections := map[],
        log := n.log + [Restart])
  }

  /** A connection that breaks leaves everything but itself as it was. */
  lemma DropEndsConnection(n: Node, k: nat)
    ensures Act(n, Drop(k)) == n.(connections := Act(n, Drop(k)).connections)
    ensures forall l :: l in Act(n, Drop(k)).connections <==> l in n.connections && l != k
    ensures forall l :: l in n.connections && l != k ==> Act(n, Drop(k)).connections[l] == n.connections[l]
  {
  }

  function RunAll(n: Node, acts: seq<Action>): Node {
    if acts == [] then n else Act(RunAll(n, acts[..|acts| - 1]), acts[|acts| - 1])
  }

  /** The hypothesis of the guarantees: a message is not carried by two open connections at once. */
  predicate Apart(n: Node, act: Action) {
    act.Open? ==> forall k :: k in n.connections ==> n.connections[k].envelope.id != act.envelope.id
  }

  predicate AllApart(n: Node, acts: seq<Action>) {
    acts == [] || (AllApart(n, acts[..|acts| - 1]) && Apart(RunAll(n, acts[..|acts| - 1]), acts[|acts| - 1]))
  }

  // ---------------------------------------------------------------- invariant

  predicate UniqueIds(n: Node) {
    && (forall i :: i in n.inbox ==> i < n.next)
    && (forall i, j :: i in n.inbox && j in n.inbox && i != j ==> n.inbox[i].envelope.id != n.inbox[j].envelope.id)
  }

  predicate OnePerMessage(n: Node) {
    forall k, l :: k in n.connections && l in n.connections && k != l ==>
      n.connections[k].envelope.id != n.connections[l].envelope.id
  }

  /** The message is in the inbox past `staged`. */
  predicate Safe(n: Node, e: Envelope) {
    exists i :: i in n.inbox && n.inbox[i].envelope == e && n.inbox[i].status != Staged
  }

  predicate SafeId(n: Node, id: Text) {
    exists i :: i in n.inbox && n.inbox[i].envelope.id == id && n.inbox[i].status != Staged
  }

  predicate ConnectionOk(n: Node, c: Connection) {
    match c
    case Opened(_) => true
    case Activated(e) => Safe(n, e)
    case _ => ContainsExact(n, c.envelope)
  }

  predicate Inv(n: Node) {
    && UniqueIds(n) && OnePerMessage(n)
    && (forall k :: k in n.connections ==> ConnectionOk(n, n.connections[k]))
    && (forall id :: id in n.acks ==> SafeId(n, id))
  }

  // ---------------------------------------------------------------- what a step keeps

  /** Existing rows stay, and none goes back to `staged`. */
  predicate Kept(n: Node, n': Node) {
    forall i :: i in n.inbox ==>
      i in n'.inbox && n'.inbox[i].envelope == n.inbox[i].envelope &&
        (n.inbox[i].status != Staged ==> n'.inbox[i].status != Staged)
  }

  predicate Discards(n: Node, act: Action) {
    act.Check? && act.connection in n.connections && n.connections[act.connection].Replayed? &&
      n.connections[act.connection].isNew
  }

  lemma StageKeepsRows(n: Node, k: nat, e: Envelope)
    requires UniqueIds(n)
    ensures Kept(n, StageEnvelope(n, k, e)) && UniqueIds(StageEnvelope(n, k, e))
  {
  }

  lemma ActivateKeepsRows(n: Node, id: Text)
    requires UniqueIds(n)
    ensures Kept(n, ActivateRow(n, id)) && UniqueIds(ActivateRow(n, id))
  {
  }

  lemma HandlingKeepsRows(n: Node, act: Action)
    requires UniqueIds(n) && (act.ClaimRow? || act.FinishRow? || act.Crash?)
    ensures Kept(n, Act(n, act)) && UniqueIds(Act(n, act)) && Act(n, act).acks == n.acks
    ensures Act(n, act).connections == n.connections || Act(n, act).connections == map[]
  {
  }

  lemma StepKeepsRows(n: Node, act: Action)
    requires UniqueIds(n) && !Discards(n, act)
    ensures Kept(n, Act(n, act)) && UniqueIds(Act(n, act))
  {
    if act.ClaimRow? || act.FinishRow? || act.Crash? {
      HandlingKeepsRows(n, act);
    } else if act.Stage? {
      if act.connection in n.connections { StageKeepsRows(n, act.connection, n.connections[act.connection].envelope); }
    } else if act.Activate? {
      if act.connection in n.connections {
        ActivateKeepsRows(Advance(n, act.connection, Activated(n.connections[act.connection].envelope)),
          n.connections[act.connection].envelope.id);
      }
    } else {
      assert Act(n, act).inbox == n.inbox && Act(n, act).next == n.next;
    }
  }

  lemma DiscardEffect(n: Node, act: Action)
    requires UniqueIds(n) && Discards(n, act)
    ensures var e := n.connections[act.connection].envelope;
      && UniqueIds(Act(n, act))
      && (forall i :: i in n.inbox && (n.inbox[i].envelope.id != e.id || n.inbox[i].status != Staged) ==>
        i in Act(n, act).inbox && Act(n, act).inbox[i] == n.inbox[i])
      && (forall i :: i in Act(n, act).inbox ==> i in n.inbox && Act(n, act).inbox[i] == n.inbox[i])
  {
  }

  lemma KeptConnection(n: Node, n': Node, c: Connection)
    requires Kept(n, n') && ConnectionOk(n, c)
    ensures ConnectionOk(n', c)
  {
  }

  /** What a step does to the connections: at most one opens or moves, none changes its envelope. */
  lemma ConnectionMoves(n: Node, act: Action, k: nat)
    requires k in Act(n, act).connections
    ensures k in n.connections ==> Act(n, act).connections[k].envelope == n.connections[k].envelope
    ensures k !in n.connections ==>
      act.Open? && act.connection == k && Act(n, act).connections[k] == Opened(act.envelope)
    ensures k in n.connections && Act(n, act).connections[k] != n.connections[k] ==>
      (act.Stage? || act.Judge? || act.Check? || act.Activate?) && act.connection == k
  {
  }

  /** The connection that moved satisfies its own obligation. */
  lemma MovedConnection(n: Node, act: Action)
    requires Inv(n) && !Discards(n, act) && (act.Stage? || act.Judge? || act.Check? || act.Activate?)
    requires act.connection in n.connections && act.connection in Act(n, act).connections
    ensures ConnectionOk(Act(n, act), Act(n, act).connections[act.connection])
  {
    var n', c := Act(n, act), n.connections[act.connection];
    StepKeepsRows(n, act);
    KeptConnection(n, n', c);
    if act.Stage? && n'.next != n.next {
      assert n'.inbox[n.next].envelope == c.envelope;
    } else if act.Activate? && n'.connections[act.connection] != c {
      var i :| i in n.inbox && n.inbox[i].envelope == c.envelope;
      assert n'.inbox[i].envelope == c.envelope && n'.inbox[i].status != Staged;
    }
  }

  lemma QuietStepKeepsInv(n: Node, act: Action)
    requires Inv(n) && Apart(n, act) && !Discards(n, act)
    ensures Inv(Act(n, act))
  {
    var n' := Act(n, act);
    StepKeepsRows(n, act);
    forall k | k in n'.connections ensures ConnectionOk(n', n'.connections[k]) {
      ConnectionMoves(n, act, k);
      if k in n.connections {
        if n'.connections[k] == n.connections[k] {
          KeptConnection(n, n', n.connections[k]);
        } else {
          MovedConnection(n, act);
        }
      }
    }
    StepKeepsOnePerMessage(n, act);
    AcksAreSafe(n, act);
  }

  lemma StepKeepsOnePerMessage(n: Node, act: Action)
    requires OnePerMessage(n) && Apart(n, act)
    ensures OnePerMessage(Act(n, act))
  {
    var n' := Act(n, act);
    forall k, l | k in n'.connections && l in n'.connections && k != l
      ensures n'.connections[k].envelope.id != n'.connections[l].envelope.id
    {
      ConnectionMoves(n, act, k);
      ConnectionMoves(n, act, l);
    }
  }

  lemma AcksAreSafe(n: Node, act: Action)
    requires Inv(n) && Kept(n, Act(n, act))
    ensures forall id :: id in Act(n, act).acks ==> SafeId(Act(n, act), id)
  {
  }

  lemma DiscardKeepsInv(n: Node, act: Action)
    requires Inv(n) && Discards(n, act)
    ensures Inv(Act(n, act))
  {
    var n', e := Act(n, act), n.connections[act.connection].envelope;
    DiscardEffect(n, act);
    forall k | k in n'.connections ensures ConnectionOk(n', n'.connections[k]) {
      var c := n.connections[k];
      assert c.envelope.id != e.id && ConnectionOk(n, c);
      if !c.Opened? {
        var i :| i in n.inbox && n.inbox[i].envelope == c.envelope && (c.Activated? ==> n.inbox[i].status != Staged);
        assert n'.inbox[i] == n.inbox[i];
      }
    }
    forall id | id in n'.acks ensures SafeId(n', id) {
      var i :| i in n.inbox && n.inbox[i].envelope.id == id && n.inbox[i].status != Staged;
      assert n'.inbox[i] == n.inbox[i];
    }
  }

  lemma StepKeepsInv(n: Node, act: Action)
    requires Inv(n) && Apart(n, act)
    ensures Inv(Act(n, act))
  {
    if Discards(n, act) {
      DiscardKeepsInv(n, act);
    } else {
      QuietStepKeepsInv(n, act);
    }
  }

  lemma {:induction false} HistoryKeepsInv(n: Node, acts: seq<Action>)
    requires Inv(n) && AllApart(n, acts)
    ensures Inv(RunAll(n, acts))
  {
    if acts != [] {
      var init := acts[..|acts| - 1];
      HistoryKeepsInv(n, init);
      StepKeepsInv(RunAll(n, init), acts[|acts| - 1]);
    }
  }

  lemma {:induction false} AcksAccumulate(n: Node, acts: seq<Action>, id: Text)
    requires id in n.acks
    ensures id in RunAll(n, acts).acks
  {
    if acts != [] {
      AcksAccumulate(n, acts[..|acts| - 1], id);
    }
  }

  /** Two overlapping connections with the same message can acknowledge it and lose it:
      the second takes the sequence number, the first then discards the row it staged. */
  lemma OverlapLosesAcknowledgedMessage(e: Envelope)
    requires e.sequence >= 1
    ensures var n := Act(Act(Act(Act(Act(Act(Act(Act(Act(INITIAL, Open(0, e)), Open(1, e)), Stage(0)), Stage(1)),
      Judge(1)), Judge(0)), Check(0)), Activate(1)), Acknowledge(1));
      e.id in n.acks && !HasId(n, e.id)
  {
    var first := Act(Act(Act(INITIAL, Open(0, e)), Open(1, e)), Stage(0));
    assert first.inbox == map[0 := InRow(e, Staged)];
    assert first.connections == map[0 := Enqueued(e, true), 1 := Opened(e)];
    var staged := Act(first, Stage(1));
    assert staged.inbox[0] == InRow(e, Staged);
    assert staged.connections == map[0 := Enqueued(e, true), 1 := Enqueued(e, false)];
    var judged := Act(Act(staged, Judge(1)), Judge(0));
    assert judged.connections == map[0 := Replayed(e, true), 1 := Admitted(e)];
    var discarded := Act(judged, Check(0));
    assert discarded.inbox == map[];
  }

  // ---------------------------------------------------------------- one connection

  /** A connection that runs to its end; steps its path does not take are not enabled. */
  function Serve(n: Node, k: nat, e: Envelope): Node {
    Act(BeforeAck(n, k, e), Acknowledge(k))
  }

  function AfterStage(n: Node, k: nat, e: Envelope): Node {
    Act(Act(n, Open(k, e)), Stage(k))
  }

  function AfterCheck(n: Node, k: nat, e: Envelope): Node {
    Act(Act(AfterStage(n, k, e), Judge(k)), Check(k))
  }

  function BeforeAck(n: Node, k: nat, e: Envelope): Node {
    Act(AfterCheck(n, k, e), Activate(k))
  }

  /** Decidable before the connection starts: the exact message is stored, or it is new in
      identifier and slot and above the replay floor. */
  predicate Acceptable(n: Node, e: Envelope) {
    ContainsExact(n, e) || (!HasId(n, e.id) && !SlotUsed(n, e) && e.sequence > Floor(n, LaneOf(e)))
  }

  predicate OnlyRow(n: Node, id: Text, i: nat) {
    forall j :: j in n.inbox && n.inbox[j].envelope.id == id ==> j == i
  }

  predicate OneActiveRow(n: Node, e: Envelope) {
    exists i :: i in n.inbox && n.inbox[i].envelope == e && n.inbox[i].status != Staged && OnlyRow(n, e.id, i)
  }

  lemma StageOutcome(n: Node, k: nat, e: Envelope)
    requires k !in n.connections
    ensures AfterStage(n, k, e) == StageEnvelope(Advance(n, k, Opened(e)), k, e)
    ensures ContainsExact(n, e) ==> AfterStage(n, k, e) == Advance(n, k, Enqueued(e, false))
    ensures !HasId(n, e.id) && !SlotUsed(n, e) ==>
      AfterStage(n, k, e)
      == Advance(n, k, Enqueued(e, true)).(inbox := n.inbox[n.next := InRow(e, Staged)], next := n.next + 1)
    ensures !ContainsExact(n, e) && (HasId(n, e.id) || SlotUsed(n, e)) ==> AfterStage(n, k, e) == n
  {
  }

  /** The verdict on a staged message, and what a replayed one leads to. */
  lemma VerdictOutcome(n: Node, k: nat, e: Envelope, isNew: bool)
    requires k in n.connections && n.connections[k] == Enqueued(e, isNew)
    ensures var r := Act(Act(n, Judge(k)), Check(k));
      if e.sequence > Floor(n, LaneOf(e)) then
        r == Advance(n, k, Admitted(e)).(floors := n.floors[LaneOf(e) := e.sequence])
      else if isNew then r == DiscardStaged(Close(n, k), e.id)
      else if ContainsExact(n, e) then r == Advance(n, k, Matched(e))
      else r == Close(n, k)
  {
  }

  lemma ActivationOutcome(n: Node, k: nat, e: Envelope, i: nat)
    requires UniqueIds(n) && k in n.connections && (n.connections[k] == Admitted(e) || n.connections[k] == Matched(e))
    requires i in n.inbox && n.inbox[i].envelope == e
    ensures Act(n, Activate(k)).connections == n.connections[k := Activated(e)] && OneActiveRow(Act(n, Activate(k)), e)
  {
    var r := Act(n, Activate(k));
    assert r.inbox[i].envelope == e && r.inbox[i].status != Staged;
  }

  lemma ServeStored(n: Node, k: nat, e: Envelope)
    requires UniqueIds(n) && k !in n.connections && ContainsExact(n, e)
    ensures BeforeAck(n, k, e).connections == n.connections[k := Activated(e)] && OneActiveRow(BeforeAck(n, k, e), e)
  {
    var i :| i in n.inbox && n.inbox[i].envelope == e;
    var staged := Advance(n, k, Enqueued(e, false));
    StageOutcome(n, k, e);
    VerdictOutcome(staged, k, e, false);
    assert staged.inbox[i].envelope == e;
    ActivationOutcome(AfterCheck(n, k, e), k, e, i);
  }

  lemma ServeNew(n: Node, k: nat, e: Envelope)
    requires UniqueIds(n) && k !in n.connections && !HasId(n, e.id) && !SlotUsed(n, e)
    requires e.sequence > Floor(n, LaneOf(e))
    ensures BeforeAck(n, k, e).connections == n.connections[k := Activated(e)] && OneActiveRow(BeforeAck(n, k, e), e)
  {
    StageOutcome(n, k, e);
    VerdictOutcome(AfterStage(n, k, e), k, e, true);
    ActivationOutcome(AfterCheck(n, k, e), k, e, n.next);
  }

  lemma ServeRefused(n: Node, k: nat, e: Envelope)
    requires UniqueIds(n) && k !in n.connections && !Acceptable(n, e)
    ensures BeforeAck(n, k, e).connections == n.connections && BeforeAck(n, k, e).inbox == n.inbox
    ensures BeforeAck(n, k, e).acks == n.acks
  {
    StageOutcome(n, k, e);
    if !HasId(n, e.id) && !SlotUsed(n, e) {
      var staged := AfterStage(n, k, e);
      VerdictOutcome(staged, k, e, true);
      var r := DiscardStaged(Close(staged, k), e.id);
      assert r.inbox == n.inbox;
      assert r.connections == n.connections;
    }
  }

  /** A connection served to its end acknowledges exactly the acceptable messages, leaving one
      activated row; any other message leaves the inbox as it was. */
  lemma ServedExactlyWhenAcceptable(n: Node, k: nat, e: Envelope)
    requires UniqueIds(n) && k !in n.connections
    ensures BeforeAck(n, k, e).connections ==
      (if Acceptable(n, e) then n.connections[k := Activated(e)] else n.connections)
    ensures Acceptable(n, e) ==> e.id in Serve(n, k, e).acks && OneActiveRow(Serve(n, k, e), e)
    ensures !Acceptable(n, e) ==> Serve(n, k, e).inbox == n.inbox && Serve(n, k, e).acks == n.acks
  {
    var b := BeforeAck(n, k, e);
    if Acceptable(n, e) {
      if ContainsExact(n, e) { ServeStored(n, k, e); } else { ServeNew(n, k, e); }
    } else {
      ServeRefused(n, k, e);
      assert Act(b, Acknowledge(k)) == b;
    }
  }

  // ---------------------------------------------------------------- crash anywhere

  /** The message is stored and no open connection may still discard its row. */
  predicate Retained(n: Node, e: Envelope) {
    && ContainsExact(n, e)
    && forall k :: k in n.connections && n.connections[k].envelope.id == e.id ==>
      !(n.connections[k].Enqueued? && n.connections[k].isNew) && !(n.connections[k].Replayed? && n.connections[k].isNew)
  }

  lemma RetentionPersists(n: Node, act: Action, e: Envelope)
    requires UniqueIds(n) && Retained(n, e)
    ensures Retained(Act(n, act), e)
  {
    var n' := Act(n, act);
    var i :| i in n.inbox && n.inbox[i].envelope == e;
    if Discards(n, act) {
      DiscardEffect(n, act);
    } else {
      StepKeepsRows(n, act);
    }
    assert n'.inbox[i].envelope == e;
    forall k | k in n'.connections && n'.connections[k].envelope.id == e.id
      ensures !(n'.connections[k].Enqueued? && n'.connections[k].isNew)
      ensures !(n'.connections[k].Replayed? && n'.connections[k].isNew)
    {
      ConnectionMoves(n, act, k);
      assert HasId(n, e.id);
    }
  }

  lemma {:induction false} HistoryRetains(n: Node, acts: seq<Action>, e: Envelope)
    requires UniqueIds(n) && Retained(n, e)
    ensures UniqueIds(RunAll(n, acts)) && Retained(RunAll(n, acts), e)
  {
    if acts != [] {
      var before, act := RunAll(n, acts[..|acts| - 1]), acts[|acts| - 1];
      HistoryRetains(n, acts[..|acts| - 1], e);
      RetentionPersists(before, act, e);
      if Discards(before, act) { DiscardEffect(before, act); } else { StepKeepsRows(before, act); }
    }
  }

  /** The first `m` steps of a connection, then a crash. */
  function Interrupted(n: Node, k: nat, e: Envelope, m: nat): Node {
    var reached :=
      if m == 0 then n
      else if m == 1 then Act(n, Open(k, e))
      else if m == 2 then AfterStage(n, k, e)
      else if m == 3 then Act(AfterStage(n, k, e), Judge(k))
      else if m == 4 then AfterCheck(n, k, e)
      else BeforeAck(n, k, e);
    Act(reached, Crash)
  }

  lemma CrashKeepsRows(n: Node, e: Envelope)
    ensures ContainsExact(n, e) ==> Retained(Act(n, Crash), e)
    ensures Acceptable(n, e) ==> Acceptable(Act(n, Crash), e)
  {
    var r := Act(n, Crash);
    if ContainsExact(n, e) {
      var i :| i in n.inbox && n.inbox[i].envelope == e;
      assert r.inbox[i].envelope == e;
    } else {
      assert forall i :: i in r.inbox ==> i in n.inbox && r.inbox[i].envelope == n.inbox[i].envelope;
    }
  }

  lemma StagedRowStays(n: Node, k: nat, e: Envelope)
    requires UniqueIds(n) && k !in n.connections && Acceptable(n, e)
    ensures ContainsExact(AfterStage(n, k, e), e) && ContainsExact(Act(AfterStage(n, k, e), Judge(k)), e)
    ensures ContainsExact(AfterCheck(n, k, e), e)
  {
    StageOutcome(n, k, e);
    var staged := AfterStage(n, k, e);
    if ContainsExact(n, e) {
      VerdictOutcome(staged, k, e, false);
    } else {
      assert staged.inbox[n.next].envelope == e;
      VerdictOutcome(staged, k, e, true);
    }
    assert ContainsExact(staged, e);
    assert AfterCheck(n, k, e).inbox == staged.inbox && Act(staged, Judge(k)).inbox == staged.inbox;
  }

  /** A crash between any two of the steps leaves an acceptable message acceptable, and once
      its row was written it is retained. */
  lemma CrashAnywhere(n: Node, k: nat, e: Envelope, m: nat)
    requires UniqueIds(n) && k !in n.connections && Acceptable(n, e)
    ensures Acceptable(Interrupted(n, k, e, m), e)
    ensures m >= 2 ==> Retained(Interrupted(n, k, e, m), e)
  {
    if m < 2 {
      var c := Act(n, Open(k, e));
      assert HasId(c, e.id) == HasId(n, e.id) && SlotUsed(c, e) == SlotUsed(n, e);
      assert ContainsExact(c, e) == ContainsExact(n, e);
      CrashKeepsRows(if m == 0 then n else c, e);
    } else if m < 5 {
      StagedRowStays(n, k, e);
      CrashKeepsRows(if m == 2 then AfterStage(n, k, e) else if m == 3 then Act(AfterStage(n, k, e), Judge(k))
        else AfterCheck(n, k, e), e);
    } else {
      if ContainsExact(n, e) { ServeStored(n, k, e); } else { ServeNew(n, k, e); }
      CrashKeepsRows(BeforeAck(n, k, e), e);
    }
  }

  /** Whatever happens after the crash, an exact retry ends with one activated row and an acknowledgement. */
  lemma RetrySucceedsAfterCrash(n: Node, k: nat, e: Envelope, m: nat, acts: seq<Action>, l: nat)
    requires UniqueIds(n) && k !in n.connections && Acceptable(n, e) && m >= 2
    requires l !in RunAll(Interrupted(n, k, e, m), acts).connections
    ensures var after := Serve(RunAll(Interrupted(n, k, e, m), acts), l, e);
      e.id in after.acks && OneActiveRow(after, e)
  {
    CrashAnywhere(n, k, e, m);
    InterruptedKeepsUnique(n, k, e, m);
    HistoryRetains(Interrupted(n, k, e, m), acts, e);
    ServedExactlyWhenAcceptable(RunAll(Interrupted(n, k, e, m), acts), l, e);
  }

  lemma StepKeepsUnique(n: Node, act: Action)
    requires UniqueIds(n)
    ensures UniqueIds(Act(n, act))
  {
    if Discards(n, act) { DiscardEffect(n, act); } else { StepKeepsRows(n, act); }
  }

  lemma InterruptedKeepsUnique(n: Node, k: nat, e: Envelope, m: nat)
    requires UniqueIds(n)
    ensures UniqueIds(Interrupted(n, k, e, m))
  {
    StepKeepsUnique(n, Open(k, e));
    StepKeepsUnique(Act(n, Open(k, e)), Stage(k));
    StepKeepsUnique(AfterStage(n, k, e), Judge(k));
    StepKeepsUnique(Act(AfterStage(n, k, e), Judge(k)), Check(k));
    StepKeepsUnique(AfterCheck(n, k, e), Activate(k));
    var reached :=
      if m == 0 then n
      else if m == 1 then Act(n, Open(k, e))
      else if m == 2 then AfterStage(n, k, e)
      else if m == 3 then Act(AfterStage(n, k, e), Judge(k))
      else if m == 4 then AfterCheck(n, k, e)
      else BeforeAck(n, k, e);
    StepKeepsUnique(reached, Crash);
  }
}
