/** A coordinator, its robots and a network that loses, repeats and reorders messages,
    with a crash possible between any two steps, and the invariant every step keeps. */
module Deployment {
  import opened Ump
  import opened RunStore
  import opened RunHistory
  import opened Scheduler
  import P = Participant

  /** One activation of `_dispatch_ready`: the unread part of the ready list it once
      fetched, and possibly an assignment it has marked but not yet published. */
  datatype Loop = Iterating(rest: seq<Assignment>) | Won(assignment: Assignment, rest: seq<Assignment>)

  /** `db` and the robots' journals are durable, `loops` is lost in a crash. `published`
      and `requests` record everything the coordinator ever sent. */
  datatype System = System(
    coordinator: Text,
    db: Db,
    loops: map<nat, Loop>,
    published: seq<Assignment>,
    requests: set<P.Message>,
    robots: map<Text, P.Robot>)

  /** A message once sent can be delivered at any time, any number of times, or never. */
  predicate InNetwork(s: System, m: P.Message) {
    m in s.requests || (m.source in s.robots && m in s.robots[m.source].sent)
  }

  datatype Action =
    | Submit(op: Op)
    | FetchReady(planId: Text, loop: nat)
    | TryMark(loop: nat)
    | Publish(loop: nat)
    | OnReport(message: P.Message, sawUnknown: bool)
    | OnAck(message: P.Message)
    | OnSnapshot(message: P.Message)
    | OnCancelAck(message: P.Message)
    | CancelPlan(planId: Text)
    | QueryUnknown(planId: Text)
    | RestartCoordinator(recover: bool)
    | RobotActs(robot: Text, act: P.Action)

  // ---------------------------------------------------------------- handlers

  predicate FromAssignedRobot(db: Db, id: Text, source: Text) {
    id in db.rows && db.rows[id].assignment.step.robot == source
  }

  /** `_outcome`; `sawUnknown` is what the separate status read returned earlier. */
  function HandleReport(m: P.Message, sawUnknown: bool): Op
    requires m.Report?
  {
    if sawUnknown then Reconcile(m.outcome.assignmentId, m.outcome.status)
    else Record(m.outcome.assignmentId, m.outcome.status)
  }

  predicate SnapshotUsable(db: Db, m: P.Message) {
    && m.Snapshot? && m.result.Some? && FromAssignedRobot(db, m.id, m.source)
    && m.result.value.assignmentId == m.id && m.result.value.status == m.status
    && db.rows[m.id].assignment == m.assignment
  }

  /** The store transaction a coordinator step performs, if any. */
  function Transaction(s: System, act: Action): Option<Op> {
    match act
    case Submit(op) => if op.Create? then Some(op) else None
    case TryMark(k) =>
      if k in s.loops && s.loops[k].Iterating? && s.loops[k].rest != [] then Some(Mark(s.loops[k].rest[0].id)) else None
    case OnReport(m, sawUnknown) =>
      if InNetwork(s, m) && m.Report? && m.outcome.robot == m.source &&
        FromAssignedRobot(s.db, m.outcome.assignmentId, m.source) then
        Some(HandleReport(m, sawUnknown))
      else None
    case OnAck(m) =>
      if InNetwork(s, m) && m.Ack? && FromAssignedRobot(s.db, m.id, m.source) then Some(Ack(m.id, m.status)) else None
    case OnSnapshot(m) => if InNetwork(s, m) && SnapshotUsable(s.db, m) then Some(Reconcile(m.id, m.status)) else None
    case OnCancelAck(m) =>
      if InNetwork(s, m) && m.CancelAck? && FromAssignedRobot(s.db, m.id, m.source) then
        Some(CancelAck(m.id, m.cancel in {P.CancelAccepted, P.AlreadyTerminal}))
      else None
    case CancelPlan(p) => Some(Cancel(p))
    case RestartCoordinator(recover) => if recover then Some(Restart) else None
    case _ => None
  }

  function CancelRequests(s: System, p: Text): set<P.Message> {
    match RequestCancellation(s.db, p)
    case Ok(r) => set a | a in r.1 :: P.CancelRequest(s.coordinator, a.id, a.step.robot)
    case Err(_) => {}
  }

  function Queries(s: System, p: Text): set<P.Message> {
    set id | id in s.db.rows && s.db.rows[id].planId == p && s.db.rows[id].status == StepUnknown
      :: P.Query(s.coordinator, id, s.db.rows[id].assignment.step.robot)
  }

  /** A robot's step may consume a message only if the network holds it. */
  predicate Deliverable(s: System, act: P.Action) {
    (act.Refuse? || act.Receive? || act.Answer? || act.LookCancel?) ==> InNetwork(s, act.message)
  }

  /** Where a loop goes on after it tried to mark `a` dispatched. */
  function AfterMark(s: System, a: Assignment, rest: seq<Assignment>): Loop {
    if MarkDispatched(s.db, a.id).1 then Won(a, rest) else Iterating(rest)
  }

  /** Volatile coordinator state and messages; the tables are already `db`. */
  function Effects(s: System, act: Action, db: Db): System {
    var s' := s.(db := db);
    match act
    case FetchReady(p, k) =>
      (match ReadyAssignments(s.db, p)
       case Ok(list) => if k in s.loops then s' else s'.(loops := s.loops[k := Iterating(list)])
       case Err(_) => s')
    case TryMark(k) =>
      if k in s.loops && s.loops[k].Iterating? && s.loops[k].rest != [] then
        var a, rest := s.loops[k].rest[0], s.loops[k].rest[1..];
        s'.(loops := s.loops[k := AfterMark(s, a, rest)])
      else s'
    case Publish(k) =>
      if k in s.loops && s.loops[k].Won? then
        var a := s.loops[k].assignment;
        s'.(
          loops := s.loops[k := Iterating(s.loops[k].rest)],
          published := s.published + [a],
          requests := s.requests + {P.Assign(s.coordinator, a)})
      else s'
    case CancelPlan(p) => s'.(requests := s.requests + CancelRequests(s, p))
    case QueryUnknown(p) => s'.(requests := s.requests + Queries(s, p))
    case RestartCoordinator(_) => s'.(loops := map[])
    case RobotActs(r, a) =>
      if r in s.robots && Deliverable(s, a) then s'.(robots := s.robots[r := P.Act(s.robots[r], a)]) else s'
    case _ => s'
  }

  function Step(s: System, act: Action): System {
    match Transaction(s, act)
    case Some(op) => Effects(s, act, Apply(s.db, op))
    case None => Effects(s, act, s.db)
  }

  ghost predicate LegalAction(act: Action) {
    act.Submit? ==> Legal(act.op)
  }

  function Initial(coordinator: Text, robots: set<Text>): System {
    System(coordinator, RunStore.EMPTY, map[], [], {}, map r | r in robots :: P.Fresh(r))
  }

  function RunSystem(s: System, acts: seq<Action>): System {
    if acts == [] then s else Step(RunSystem(s, acts[..|acts| - 1]), acts[|acts| - 1])
  }

  // ---------------------------------------------------------------- invariant

  /** The row of `a` exists and everything `a` depends on has succeeded. */
  predicate Sound(db: Db, a: Assignment) {
    && a.id in db.rows && db.rows[a.id].assignment == a
    && forall d :: d in a.step.dependsOn ==> DependencySucceeded(db, db.rows[a.id].planId, d)
  }

  predicate LoopSound(db: Db, l: Loop) {
    && (forall a :: a in l.rest ==> Sound(db, a))
    && (l.Won? ==> Sound(db, l.assignment) && db.rows[l.assignment.id].status != Pending)
  }

  predicate LoopsSound(s: System) {
    forall k :: k in s.loops ==> LoopSound(s.db, s.loops[k])
  }

  /** Each identifier is published at most once: a won identifier is unpublished and won by one loop only. */
  predicate PublishedOnce(s: System) {
    && (forall i :: 0 <= i < |s.published| ==>
      Sound(s.db, s.published[i]) && s.db.rows[s.published[i].id].status != Pending)
    && (forall i, j :: 0 <= i < j < |s.published| ==> s.published[i].id != s.published[j].id)
    && (forall k, i :: k in s.loops && s.loops[k].Won? && 0 <= i < |s.published| ==>
      s.published[i].id != s.loops[k].assignment.id)
    && (forall k, l :: k in s.loops && l in s.loops && k != l && s.loops[k].Won? && s.loops[l].Won? ==>
      s.loops[k].assignment.id != s.loops[l].assignment.id)
  }

  predicate RequestsOk(s: System) {
    forall m :: m in s.requests ==>
      (m.Assign? || m.Query? || m.CancelRequest?) && (m.Assign? ==> m.assignment in s.published)
  }

  ghost predicate RobotsOk(s: System) {
    forall r :: r in s.robots ==> s.robots[r].id == r && P.Inv(s.robots[r]) && ClaimsPublished(s, s.robots[r])
  }

  /** A robot's journal holds only assignments the coordinator published. */
  predicate ClaimsPublished(s: System, r: P.Robot) {
    && (forall id :: id in r.ledger.rows ==> r.ledger.rows[id].assignment in s.published)
    && (forall m :: m in r.sent ==> !m.Assign?)
  }

  /** The assigned robot's journal holds an outcome of the status the coordinator recorded. */
  predicate JournalSays(s: System, row: StepRow) {
    && row.assignment.step.robot in s.robots
    && var ledger := s.robots[row.assignment.step.robot].ledger;
       && row.assignment.id in ledger.rows && ledger.rows[row.assignment.id].outcome.Some?
       && SameOutcome(row.status, ledger.rows[row.assignment.id].outcome.value.status)
  }

  predicate Backed(s: System, row: StepRow) {
    row.status in {StepSucceeded, StepFailed} ==> JournalSays(s, row)
  }

  predicate Agreement(s: System) {
    forall id :: id in s.db.rows ==> Backed(s, s.db.rows[id])
  }

  ghost predicate SystemInv(s: System) {
    RunHistory.Inv(s.db) && Causal(s.db) && LoopsSound(s) && PublishedOnce(s) && RequestsOk(s) && RobotsOk(s) &&
      Agreement(s)
  }

  // ---------------------------------------------------------------- what one transaction preserves

  /** Rows persist, each moves along its lifecycle, and new rows are pending. */
  predicate Evolves(db: Db, r: Db) {
    && (forall id :: id in db.rows ==>
      id in r.rows && r.rows[id] == db.rows[id].(status := r.rows[id].status) &&
        (r.rows[id].status == db.rows[id].status || Follows(db.rows[id].status, r.rows[id].status)))
    && (forall id :: id in r.rows && id !in db.rows ==> r.rows[id].status == Pending)
  }

  lemma ApplyEvolves(db: Db, op: Op)
    ensures Evolves(db, Apply(db, op))
  {
    if op.Create? {
      if op.plan.planId !in db.runs && CreateRun(db, op.goal, op.plan, op.batch).Ok? {
        CreateShape(db, op.goal, op.plan, op.batch);
      }
    } else {
      Transactions(db, op);
    }
  }

  lemma CausalPersists(db: Db, r: Db)
    requires Evolves(db, r) && Causal(db)
    requires forall id :: id in db.rows && db.rows[id].status == Pending && r.rows[id].status == Dispatched ==>
      Sound(db, db.rows[id].assignment) && db.rows[id].assignment.id == id
    ensures Causal(r)
  {
  }

  lemma OnlyMarkDispatches(db: Db, op: Op, id: Text)
    requires id in db.rows && db.rows[id].status == Pending && id in Apply(db, op).rows
    requires Apply(db, op).rows[id].status == Dispatched
    ensures op == Mark(id)
  {
    PendingMoves(db, op, id);
  }

  lemma CreateMovesNothing(db: Db, op: Op, id: Text)
    requires op.Create? && id in db.rows
    ensures id in Apply(db, op).rows && Apply(db, op).rows[id] == db.rows[id]
  {
    if op.plan.planId !in db.runs && CreateRun(db, op.goal, op.plan, op.batch).Ok? {
      CreateShape(db, op.goal, op.plan, op.batch);
    }
  }

  /** A step becomes succeeded or failed only through a report of exactly that status. */
  lemma OnlyReportsDecide(db: Db, op: Op, id: Text)
    requires id in db.rows && id in Apply(db, op).rows && Apply(db, op).rows[id].status != db.rows[id].status
    requires Apply(db, op).rows[id].status in {StepSucceeded, StepFailed}
    ensures (op.Record? || op.Reconcile?) && op.id == id && op.status != Accepted
    ensures SameOutcome(Apply(db, op).rows[id].status, op.status)
  {
    if op.Create? {
      CreateMovesNothing(db, op, id);
    }
  }

  lemma LoopsPersist(s: System, s': System)
    requires LoopsSound(s) && Evolves(s.db, s'.db)
    requires forall k :: k in s'.loops ==> k in s.loops && s'.loops[k] == s.loops[k]
    ensures LoopsSound(s')
  {
    forall k | k in s'.loops ensures LoopSound(s'.db, s'.loops[k]) {
      var l := s.loops[k];
      assert LoopSound(s.db, l);
    }
  }

  lemma PublishedPersists(s: System, s': System)
    requires PublishedOnce(s) && Evolves(s.db, s'.db) && s'.published == s.published
    requires forall k :: k in s'.loops ==> k in s.loops && s'.loops[k] == s.loops[k]
    ensures PublishedOnce(s')
  {
  }

  /** A transaction other than a dispatch, with any messages that assign no work. */
  lemma StoreStepKeepsInv(s: System, s': System, op: Op)
    requires SystemInv(s) && Legal(op) && !op.Mark?
    requires s' == s.(db := Apply(s.db, op), loops := s'.loops, requests := s'.requests)
    requires (s'.loops == s.loops || s'.loops == map[])
    requires s.requests <= s'.requests
    requires forall m :: m in s'.requests && m !in s.requests ==> m.Query? || m.CancelRequest?
    requires forall id :: id in s.db.rows && id in s'.db.rows && s'.db.rows[id].status != s.db.rows[id].status ==>
      Backed(s, s'.db.rows[id])
    ensures SystemInv(s')
  {
    ApplyKeepsInv(s.db, op);
    ApplyEvolves(s.db, op);
    forall id | id in s.db.rows && s.db.rows[id].status == Pending && s'.db.rows[id].status == Dispatched
      ensures false
    {
      OnlyMarkDispatches(s.db, op, id);
    }
    CausalPersists(s.db, s'.db);
    LoopsPersist(s, s');
    PublishedPersists(s, s');
    StoreStepKeepsRobots(s, s');
  }

  lemma StoreStepKeepsRobots(s: System, s': System)
    requires RequestsOk(s) && RobotsOk(s) && Agreement(s) && Evolves(s.db, s'.db)
    requires s'.robots == s.robots && s'.published == s.published
    requires forall m :: m in s'.requests && m !in s.requests ==> m.Query? || m.CancelRequest?
    requires forall id :: id in s.db.rows && id in s'.db.rows && s'.db.rows[id].status != s.db.rows[id].status ==>
      Backed(s, s'.db.rows[id])
    ensures RequestsOk(s') && RobotsOk(s') && Agreement(s')
  {
  }

  lemma QueryKeepsInv(s: System, p: Text)
    requires SystemInv(s)
    ensures SystemInv(Step(s, QueryUnknown(p)))
  {
    var s' := Step(s, QueryUnknown(p));
    LoopsPersist(s, s');
    PublishedPersists(s, s');
    StoreStepKeepsRobots(s, s');
  }

  lemma ReadyIsSound(db: Db, p: Text, a: Assignment)
    requires RowsIndexed(db) && ReadyAssignments(db, p).Ok? && a in ReadyAssignments(db, p).value
    ensures Sound(db, a)
  {
  }

  lemma FetchKeepsInv(s: System, p: Text, k: nat)
    requires SystemInv(s)
    ensures SystemInv(Step(s, FetchReady(p, k)))
  {
    var s' := Step(s, FetchReady(p, k));
    if s' != s {
      var list := ReadyAssignments(s.db, p).value;
      forall a | a in list ensures Sound(s.db, a) { ReadyIsSound(s.db, p, a); }
      FetchKeepsLoops(s, s', k, list);
    }
  }

  lemma FetchKeepsLoops(s: System, s': System, k: nat, list: seq<Assignment>)
    requires LoopsSound(s) && PublishedOnce(s) && k !in s.loops && s' == s.(loops := s.loops[k := Iterating(list)])
    requires forall a :: a in list ==> Sound(s.db, a)
    ensures LoopsSound(s') && PublishedOnce(s')
  {
  }

  lemma MarkKeepsDb(db: Db, a: Assignment)
    requires RunHistory.Inv(db) && Causal(db) && Sound(db, a)
    ensures var r := MarkDispatched(db, a.id).0; RunHistory.Inv(r) && Causal(r) && Evolves(db, r)
  {
    assert MarkDispatched(db, a.id).0 == Apply(db, Mark(a.id));
    ApplyKeepsInv(db, Mark(a.id));
    ApplyEvolves(db, Mark(a.id));
    CausalPersists(db, MarkDispatched(db, a.id).0);
  }

  lemma MarkKeepsInv(s: System, s': System, k: nat, a: Assignment)
    requires SystemInv(s) && k in s.loops && s.loops[k].Iterating? && s.loops[k].rest != [] && a == s.loops[k].rest[0]
    requires s' == s.(db := MarkDispatched(s.db, a.id).0, loops := s.loops[k := AfterMark(s, a, s.loops[k].rest[1..])])
    ensures SystemInv(s')
  {
    assert LoopSound(s.db, s.loops[k]) && a in s.loops[k].rest;
    MarkKeepsDb(s.db, a);
    StoreStepKeepsRobots(s, s');
    MarkKeepsLoops(s, s', k, a);
  }

  lemma MarkKeepsLoops(s: System, s': System, k: nat, a: Assignment)
    requires LoopsSound(s) && PublishedOnce(s) && k in s.loops && s.loops[k].Iterating? && s.loops[k].rest != []
    requires a == s.loops[k].rest[0]
    requires s' == s.(db := MarkDispatched(s.db, a.id).0, loops := s.loops[k := AfterMark(s, a, s.loops[k].rest[1..])])
    requires Evolves(s.db, s'.db)
    ensures LoopsSound(s') && PublishedOnce(s')
  {
    var others := s'.(loops := s.loops - {k});
    LoopsPersist(s, others);
    PublishedPersists(s, others);
    assert LoopSound(s.db, s.loops[k]) && a in s.loops[k].rest;
    assert forall x :: x in s.loops[k].rest ==> Sound(s'.db, x);
    forall l | l in s'.loops ensures LoopSound(s'.db, s'.loops[l]) {
      if l != k { assert l in s.loops - {k}; }
    }
    if MarkDispatched(s.db, a.id).1 {
      forall i | 0 <= i < |s.published| ensures s.published[i].id != a.id {
        assert s.db.rows[s.published[i].id].status != Pending;
      }
      forall l | l in s.loops && s.loops[l].Won? ensures s.loops[l].assignment.id != a.id {
        assert LoopSound(s.db, s.loops[l]);
      }
    }
  }

  lemma PublishKeepsLoops(s: System, s': System, k: nat, a: Assignment)
    requires LoopsSound(s) && PublishedOnce(s) && k in s.loops && s.loops[k].Won? && a == s.loops[k].assignment
    requires s'.db == s.db && s'.loops == s.loops[k := Iterating(s.loops[k].rest)] && s'.published == s.published + [a]
    ensures LoopsSound(s') && PublishedOnce(s')
  {
  }

  lemma PublishKeepsInv(s: System, s': System, k: nat, a: Assignment)
    requires SystemInv(s) && k in s.loops && s.loops[k].Won? && a == s.loops[k].assignment
    requires s' == s.(
      loops := s.loops[k := Iterating(s.loops[k].rest)],
      published := s.published + [a],
      requests := s.requests + {P.Assign(s.coordinator, a)})
    ensures SystemInv(s')
  {
    PublishKeepsLoops(s, s', k, a);
    forall r | r in s'.robots ensures ClaimsPublished(s', s'.robots[r]) {
      assert ClaimsPublished(s, s.robots[r]);
    }
    forall id | id in s'.db.rows ensures Backed(s', s'.db.rows[id]) {
      assert Backed(s, s.db.rows[id]);
    }
  }

  // ---------------------------------------------------------------- robots

  lemma RobotKeepsClaims(s: System, s': System, r: Text, act: P.Action)
    requires RequestsOk(s) && RobotsOk(s) && r in s.robots && Deliverable(s, act)
    requires s' == s.(robots := s.robots[r := P.Act(s.robots[r], act)])
    ensures RobotsOk(s')
  {
    var robot, robot' := s.robots[r], s'.robots[r];
    P.ActKeepsInv(robot, act);
    P.ActKeepsId(robot, act);
    P.ActGrows(robot, act);
    forall id | id in robot'.ledger.rows ensures robot'.ledger.rows[id].assignment in s.published {
      if id !in robot.ledger.rows {
        assert act.message in s.requests by {
          assert InNetwork(s, act.message) && act.message.Assign?;
          if act.message.source in s.robots { assert ClaimsPublished(s, s.robots[act.message.source]); }
        }
      }
    }
    forall m | m in robot'.sent ensures !m.Assign? {
      if m !in robot.sent { P.RobotsAssignNothing(robot, act, m); }
    }
  }

  lemma GrowthKeepsAgreement(s: System, s': System, r: Text, robot: P.Robot)
    requires Agreement(s) && r in s.robots && P.Grows(s.robots[r].ledger, robot.ledger)
    requires s' == s.(robots := s.robots[r := robot])
    ensures Agreement(s')
  {
    forall id | id in s'.db.rows ensures Backed(s', s'.db.rows[id]) {
      assert Backed(s, s.db.rows[id]);
    }
  }

  lemma RobotKeepsInv(s: System, s': System, r: Text, act: P.Action)
    requires SystemInv(s) && r in s.robots && Deliverable(s, act)
    requires s' == s.(robots := s.robots[r := P.Act(s.robots[r], act)])
    ensures SystemInv(s')
  {
    RobotKeepsClaims(s, s', r, act);
    P.ActGrows(s.robots[r], act);
    GrowthKeepsAgreement(s, s', r, s'.robots[r]);
  }

  // ---------------------------------------------------------------- reports

  /** A report or snapshot the coordinator may act on is backed by the robot's journal. */
  lemma ReportIsBacked(s: System, m: P.Message, row: StepRow)
    requires SystemInv(s) && InNetwork(s, m) && row.assignment.step.robot == m.source
    requires row.status in {StepSucceeded, StepFailed}
    requires (m.Report? && m.outcome.assignmentId == row.assignment.id && SameOutcome(row.status, m.outcome.status))
          || (m.Snapshot? && m.result.Some? && m.id == row.assignment.id && SameOutcome(row.status, m.status))
    ensures Backed(s, row)
  {
    assert m !in s.requests;
    assert P.Truthful(s.robots[m.source], m);
  }

  lemma DecisionIsBacked(s: System, act: Action, op: Op, id: Text)
    requires SystemInv(s) && Transaction(s, act) == Some(op) && (act.OnReport? || act.OnSnapshot?)
    requires id in s.db.rows && id in Apply(s.db, op).rows && Apply(s.db, op).rows[id].status != s.db.rows[id].status
    ensures Backed(s, Apply(s.db, op).rows[id])
  {
    var row := Apply(s.db, op).rows[id];
    if row.status in {StepSucceeded, StepFailed} {
      OnlyReportsDecide(s.db, op, id);
      RowsPersist(s.db, op, id);
      ReportIsBacked(s, act.message, row);
    }
  }

  lemma OthersDecideNothing(s: System, op: Op, id: Text)
    requires !op.Record? && !op.Reconcile?
    requires id in s.db.rows && id in Apply(s.db, op).rows && Apply(s.db, op).rows[id].status != s.db.rows[id].status
    ensures Backed(s, Apply(s.db, op).rows[id])
  {
    if Apply(s.db, op).rows[id].status in {StepSucceeded, StepFailed} {
      OnlyReportsDecide(s.db, op, id);
    }
  }

  lemma TransactionKeepsInv(s: System, act: Action, op: Op)
    requires SystemInv(s) && LegalAction(act) && Transaction(s, act) == Some(op) && !act.TryMark?
    ensures SystemInv(Step(s, act))
  {
    forall id | id in s.db.rows && id in Apply(s.db, op).rows && Apply(s.db, op).rows[id].status != s.db.rows[id].status
      ensures Backed(s, Apply(s.db, op).rows[id])
    {
      if act.OnReport? || act.OnSnapshot? {
        DecisionIsBacked(s, act, op, id);
      } else {
        OthersDecideNothing(s, op, id);
      }
    }
    StoreStepKeepsInv(s, Step(s, act), op);
  }

  lemma LosingLoopsKeepsInv(s: System, s': System)
    requires SystemInv(s) && s' == s.(loops := map[])
    ensures SystemInv(s')
  {
    LoopsPersist(s, s');
    PublishedPersists(s, s');
    StoreStepKeepsRobots(s, s');
  }

  lemma StepKeepsInv(s: System, act: Action)
    requires SystemInv(s) && LegalAction(act)
    ensures SystemInv(Step(s, act))
  {
    if act.TryMark? {
      if Transaction(s, act).Some? {
        MarkKeepsInv(s, Step(s, act), act.loop, s.loops[act.loop].rest[0]);
      }
    } else if Transaction(s, act).Some? {
      TransactionKeepsInv(s, act, Transaction(s, act).value);
    } else if act.FetchReady? {
      FetchKeepsInv(s, act.planId, act.loop);
    } else if act.QueryUnknown? {
      QueryKeepsInv(s, act.planId);
    } else if act.Publish? {
      if act.loop in s.loops && s.loops[act.loop].Won? {
        PublishKeepsInv(s, Step(s, act), act.loop, s.loops[act.loop].assignment);
      }
    } else if act.RobotActs? {
      if act.robot in s.robots && Deliverable(s, act.act) {
        RobotKeepsInv(s, Step(s, act), act.robot, act.act);
      }
    } else if act.RestartCoordinator? {
      LosingLoopsKeepsInv(s, Step(s, act));
    }
  }

  lemma InitialInv(coordinator: Text, robots: set<Text>)
    ensures SystemInv(Initial(coordinator, robots))
  {
    var s := Initial(coordinator, robots);
    forall r | r in s.robots ensures P.Inv(s.robots[r]) { P.FreshInv(r); }
  }
}
