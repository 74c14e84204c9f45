/** Runs of the deployment that show where its promises end, each from the initial state and
    for every plan of the right shape, and the exact conditions they witness. */
module Boundaries {
  import opened Ump
  import opened RunStore
  import opened RunHistory
  import opened Scheduler
  import opened Deployment
  import opened Guarantees
  import P = Participant

  // ---------------------------------------------------------------- creating a run

  predicate DistinctIds(batch: seq<Assignment>) {
    forall i, j :: 0 <= i < j < |batch| ==> batch[i].id != batch[j].id
  }

  /** A submission for a plan, with distinct assignment identifiers. */
  ghost predicate Submission(op: Op) {
    op.Create? && Legal(op) && DistinctIds(op.batch)
  }

  function PlanOf(op: Op): Text
    requires op.Create?
  {
    op.plan.planId
  }

  /** One active run, all its steps pending, nothing else. */
  ghost predicate JustBegun(db: Db, op: Op)
  {
    && op.Create? && PlanOf(op) in db.runs && db.runs[PlanOf(op)].status == Active && db.order == Ids(op.batch)
    && (forall i :: 0 <= i < |op.batch| ==>
      op.batch[i].id in db.rows && db.rows[op.batch[i].id] == StepRow(PlanOf(op), op.batch[i], Pending))
    && (forall id :: id in db.rows ==> exists i :: 0 <= i < |op.batch| && id == op.batch[i].id)
  }

  lemma FirstRun(op: Op, db: Db)
    requires Submission(op) && db == Apply(EMPTY, op)
    ensures JustBegun(db, op)
  {
    assert DistinctSteps(op.batch);
    InsertsExactly(map[], PlanOf(op), op.batch);
    CreateShape(EMPTY, op.goal, op.plan, op.batch);
  }

  /** The deployment right after the first submission. */
  lemma Begin(coordinator: Text, robots: set<Text>, op: Op) returns (s: System)
    requires Submission(op)
    ensures Reachable(s) && JustBegun(s.db, op)
    ensures s == Initial(coordinator, robots).(db := s.db)
  {
    assert IsRun([Initial(coordinator, robots)], []);
    ReachableStep(Initial(coordinator, robots), Submit(op));
    s := Step(Initial(coordinator, robots), Submit(op));
    FirstRun(op, s.db);
  }

  // ---------------------------------------------------------------- what single steps do

  lemma Mark(s: System, k: nat, a: Assignment, rest: seq<Assignment>) returns (s': System)
    requires k in s.loops && s.loops[k] == Iterating([a] + rest)
    requires a.id in s.db.rows && s.db.rows[a.id].status == Pending
    ensures Reachable(s) ==> Reachable(s')
    ensures s' == s.(db := SetStatus(s.db, a.id, Dispatched), loops := s.loops[k := Won(a, rest)])
  {
    assert ([a] + rest)[0] == a && ([a] + rest)[1..] == rest;
    ReachableStep(s, TryMark(k));
    s' := Step(s, TryMark(k));
  }

  lemma RobotDoes(s: System, r: Text, act: P.Action) returns (s': System)
    requires r in s.robots && Deliverable(s, act)
    ensures Reachable(s) ==> Reachable(s')
    ensures s' == s.(robots := s.robots[r := P.Act(s.robots[r], act)])
  {
    ReachableStep(s, RobotActs(r, act));
    s' := Step(s, RobotActs(r, act));
  }

  lemma Deliver(s: System, r: Text, o: Outcome) returns (s': System)
    requires r in s.robots && P.Report(r, o) in s.robots[r].sent && o.robot == r
    requires FromAssignedRobot(s.db, o.assignmentId, r) && s.db.rows[o.assignmentId].status == Dispatched
    ensures Reachable(s) ==> Reachable(s')
    ensures s' == s.(db := Settled(s.db, o.assignmentId, TerminalStep(o.status)))
  {
    assert InNetwork(s, P.Report(r, o));
    assert Apply(s.db, Record(o.assignmentId, o.status)) == Settled(s.db, o.assignmentId, TerminalStep(o.status));
    ReachableStep(s, OnReport(P.Report(r, o), false));
    s' := Step(s, OnReport(P.Report(r, o), false));
  }

  function Settled(db: Db, id: Text, status: StepStatus): Db
    requires id in db.rows
  {
    Refresh(SetStatus(db, id, status), db.rows[id].planId)
  }

  /** Marking and publishing the first assignment of a fetched list. */
  lemma Dispatch(s: System, k: nat, a: Assignment, rest: seq<Assignment>) returns (s': System)
    requires k in s.loops && s.loops[k] == Iterating([a] + rest)
    requires a.id in s.db.rows && s.db.rows[a.id].status == Pending
    ensures Reachable(s) ==> Reachable(s')
    ensures s'.coordinator == s.coordinator && s'.robots == s.robots
    ensures s'.db == SetStatus(s.db, a.id, Dispatched) && k in s'.loops && s'.loops[k] == Iterating(rest)
    ensures s'.published == s.published + [a] && P.Assign(s.coordinator, a) in s'.requests
  {
    var marked := Mark(s, k, a, rest);
    ReachableStep(marked, Publish(k));
    s' := Step(marked, Publish(k));
  }

  // ---------------------------------------------------------------- a stale ready list

  /** The assigned robot refuses a published assignment and the refusal is recorded. */
  lemma Rejection(s: System, a: Assignment, description: Text) returns (s': System)
    requires Reachable(s) && P.Assign(s.coordinator, a) in s.requests && a.step.robot in s.robots
    requires a.id in s.db.rows && s.db.rows[a.id].assignment == a && s.db.rows[a.id].status == Dispatched
    ensures Reachable(s') && s'.loops == s.loops && s'.published == s.published && s'.coordinator == s.coordinator
    ensures s'.db == Settled(s.db, a.id, StepRejected)
    ensures a.step.robot in s'.robots && s'.robots[a.step.robot].ledger == s.robots[a.step.robot].ledger
  {
    var r, m := a.step.robot, P.Assign(s.coordinator, a);
    assert s.robots[r].id == r by { ReachableInv(s); }
    var refused := RobotDoes(s, r, P.Refuse(m, description));
    s' := Deliver(refused, r, Outcome(a.id, r, description, Rejected));
  }

  /** A fetched list outlives its run's activity: while it is read, its first step is sent and
      rejected, and the second is then sent into the failed run. */
  lemma StaleListSendsIntoFailedRun(s: System, k: nat, x: Assignment, y: Assignment, rest: seq<Assignment>,
      description: Text) returns (s': System)
    requires Reachable(s) && k in s.loops && s.loops[k] == Iterating([x] + ([y] + rest)) && x.id != y.id
    requires x.planId == y.planId
    requires x.id in s.db.rows && y.id in s.db.rows && s.db.rows[x.id].status == Pending
    requires s.db.rows[y.id].status == Pending
    requires x.planId in s.db.runs && s.db.runs[x.planId].status == Active && x.step.robot in s.robots
    ensures Reachable(s') && s'.published == s.published + [x, y]
    ensures y.planId in s'.db.runs && s'.db.runs[y.planId].status == RunFailed
    ensures ReadyAssignments(s'.db, y.planId) == Ok([])
  {
    ListedIsStored(s, k, x);
    ListedIsStored(s, k, y);
    var sent := Dispatch(s, k, x, [y] + rest);
    var failed := Rejection(sent, x, description);
    s' := Dispatch(failed, k, y, rest);
    assert Cache(s.db) by { ReachableInv(s); }
    assert Cache(s'.db) && RowsIndexed(s'.db) by { ReachableInv(s'); }
    RejectionFailsRun(s.db, s'.db, x, y);
  }

  lemma ListedIsStored(s: System, k: nat, a: Assignment)
    requires Reachable(s) && k in s.loops && a in s.loops[k].rest
    ensures a.id in s.db.rows && s.db.rows[a.id].assignment == a && s.db.rows[a.id].planId == a.planId
  {
    ReachableInv(s);
    assert LoopSound(s.db, s.loops[k]);
    assert Sound(s.db, a);
  }

  lemma RejectionFailsRun(db: Db, db': Db, x: Assignment, y: Assignment)
    requires Cache(db) && Cache(db') && RowsIndexed(db')
    requires x.planId in db.runs && db.runs[x.planId].status == Active
    requires x.id in db.rows && db.rows[x.id].planId == x.planId && y.id in db.rows && x.id != y.id
    requires db' == SetStatus(Settled(SetStatus(db, x.id, Dispatched), x.id, StepRejected), y.id, Dispatched)
    ensures db'.runs[x.planId].status == RunFailed && ReadyAssignments(db', x.planId) == Ok([])
  {
    ActiveHasNoUnknown(db, x.planId);
    assert db'.rows[x.id].status == StepRejected;
    assert Has(db', x.planId, StepRejected) && !Has(db', x.planId, StepUnknown);
    assert StepRejected in Statuses(db', x.planId) * {StepFailed, StepRejected};
  }

  /** Such a list exists: the first submission of any plan of two independent steps yields it. */
  lemma FetchedPair(coordinator: Text, robots: set<Text>, op: Op) returns (s: System)
    requires Submission(op) && |op.batch| == 2 && op.batch[0].step.dependsOn == [] && op.batch[1].step.dependsOn == []
    ensures Reachable(s) && 0 in s.loops && s.loops[0] == Iterating([op.batch[0]] + ([op.batch[1]] + []))
    ensures s.robots.Keys == robots && JustBegun(s.db, op)
  {
    s := Begin(coordinator, robots, op);
    assert s.db.order == [op.batch[0].id, op.batch[1].id];
    PairIsReady(s.db, PlanOf(op), op.batch[0], op.batch[1]);
    assert [op.batch[0]] + ([op.batch[1]] + []) == [op.batch[0], op.batch[1]];
    s := Fetch(s, PlanOf(op), 0, [op.batch[0], op.batch[1]]);
  }

  /** The whole run: from the initial state to a dispatch into a failed run. */
  lemma DispatchAfterFailure(coordinator: Text, robots: set<Text>, op: Op, description: Text) returns (s: System)
    requires Submission(op) && |op.batch| == 2 && op.batch[0].step.dependsOn == [] && op.batch[1].step.dependsOn == []
    requires op.batch[0].step.robot in robots
    ensures Reachable(s) && op.batch[1] in s.published
    ensures PlanOf(op) in s.db.runs && s.db.runs[PlanOf(op)].status == RunFailed
  {
    s := FetchedPair(coordinator, robots, op);
    s := StaleListSendsIntoFailedRun(s, 0, op.batch[0], op.batch[1], [], description);
  }

  lemma Fetch(s: System, p: Text, k: nat, list: seq<Assignment>) returns (s': System)
    requires k !in s.loops && ReadyAssignments(s.db, p) == Ok(list)
    ensures Reachable(s) ==> Reachable(s')
    ensures s' == s.(loops := s.loops[k := Iterating(list)])
  {
    ReachableStep(s, FetchReady(p, k));
    s' := Step(s, FetchReady(p, k));
  }

  lemma PairIsReady(db: Db, p: Text, x: Assignment, y: Assignment)
    requires p in db.runs && db.runs[p].status == Active && db.order == [x.id, y.id] && x.step.dependsOn == []
    requires y.step.dependsOn == []
    requires x.id in db.rows && db.rows[x.id] == StepRow(p, x, Pending) && y.id in db.rows
    requires db.rows[y.id] == StepRow(p, y, Pending)
    ensures ReadyAssignments(db, p) == Ok([x, y])
  {
    var chosen := ReadyRows(db, p);
    assert IsReady(db, p, x.id) && IsReady(db, p, y.id);
    SelectTwo(db, x.id, y.id, chosen);
  }

  lemma SelectTwo(db: Db, i: Text, j: Text, chosen: set<Text>)
    requires i in db.rows && j in db.rows && i in chosen && j in chosen
    ensures Select(db, [i, j], chosen) == [db.rows[i].assignment, db.rows[j].assignment]
  {
    assert [i, j][..1] == [i] && [i][..0] == [];
    assert Select(db, [i], chosen) == [db.rows[i].assignment];
  }

  // ---------------------------------------------------------------- a robot at work

  /** A robot that is new to an assignment carries it out and records the outcome. */
  lemma Execution(id: Text, m: P.Message, o: Outcome, description: Text) returns (r: P.Robot)
    requires m.Assign? && m.assignment.step.robot == id && Distinct(m.assignment.step.resources)
    requires o.assignmentId == m.assignment.id && o.robot == id
    ensures r == P.RunAll(P.Fresh(id),
      [P.Receive(m, 0, description), P.Start(0), P.Return(0, o), P.Look(0), P.Finish(0)])
    ensures r.id == id && P.Recorded(r, o) && P.Report(id, o) in r.sent
  {
    var a := m.assignment;
    var claimed := P.Act(P.Fresh(id), P.Receive(m, 0, description));
    P.FirstClaim(m, 0, description);
    var started := P.Act(claimed, P.Start(0));
    var returned := P.Act(started, P.Return(0, o));
    assert returned.tasks[0] == P.Returned(a, o) && returned.ledger == claimed.ledger;
    var looked := P.Act(returned, P.Look(0));
    assert looked.tasks[0] == P.Completing(a, o) && looked.ledger == claimed.ledger;
    r := P.Act(looked, P.Finish(0));
    RunFive(P.Fresh(id), P.Receive(m, 0, description), P.Start(0), P.Return(0, o), P.Look(0), P.Finish(0));
  }

  lemma RunFive(r: P.Robot, a: P.Action, b: P.Action, c: P.Action, d: P.Action, e: P.Action)
    ensures P.RunAll(r, [a, b, c, d, e]) == P.Act(P.Act(P.Act(P.Act(P.Act(r, a), b), c), d), e)
  {
    var acts := [a, b, c, d, e];
    assert acts[..4][..3] == acts[..3] && acts[..3][..2] == acts[..2] && acts[..2][..1] == acts[..1];
    assert acts[..1][..0] == [];
    assert P.RunAll(r, acts[..1]) == P.Act(r, a);
    assert P.RunAll(r, acts[..2]) == P.Act(P.Act(r, a), b);
    assert P.RunAll(r, acts[..3]) == P.Act(P.Act(P.Act(r, a), b), c);
    assert P.RunAll(r, acts[..4]) == P.Act(P.Act(P.Act(P.Act(r, a), b), c), d);
  }

  /** What a step of a robot consumes was sent by the coordinator. */
  predicate FromCoordinator(s: System, act: P.Action) {
    (act.Refuse? || act.Receive? || act.Answer? || act.LookCancel?) ==> act.message in s.requests
  }

  lemma {:induction false} RobotRuns(s: System, r: Text, acts: seq<P.Action>) returns (s': System)
    requires r in s.robots && forall i :: 0 <= i < |acts| ==> FromCoordinator(s, acts[i])
    ensures Reachable(s) ==> Reachable(s')
    ensures s' == s.(robots := s.robots[r := P.RunAll(s.robots[r], acts)])
  {
    if acts == [] {
      s' := s;
      assert s.robots[r := s.robots[r]] == s.robots;
    } else {
      var before := RobotRuns(s, r, acts[..|acts| - 1]);
      assert FromCoordinator(s, acts[|acts| - 1]);
      s' := RobotDoes(before, r, acts[|acts| - 1]);
    }
  }

  /** The same within the deployment, for a published assignment of a robot that did nothing before. */
  lemma Executed(s: System, a: Assignment, o: Outcome, description: Text) returns (s': System)
    requires P.Assign(s.coordinator, a) in s.requests && Distinct(a.step.resources)
    requires a.step.robot in s.robots && s.robots[a.step.robot] == P.Fresh(a.step.robot) && o.assignmentId == a.id
    requires o.robot == a.step.robot
    ensures Reachable(s) ==> Reachable(s')
    ensures s' == s.(robots := s'.robots) && a.step.robot in s'.robots
    ensures P.Recorded(s'.robots[a.step.robot], o) && P.Report(a.step.robot, o) in s'.robots[a.step.robot].sent
  {
    var r, m := a.step.robot, P.Assign(s.coordinator, a);
    var robot := Execution(r, m, o, description);
    s' := RobotRuns(s, r, [P.Receive(m, 0, description), P.Start(0), P.Return(0, o), P.Look(0), P.Finish(0)]);
  }

  // ---------------------------------------------------------------- one step published

  /** The first step of a new run is on its way to its robot, which has done nothing yet. */
  ghost predicate FirstStepOut(s: System, op: Op)
  {
    && op.Create? && op.batch != []
    && var x := op.batch[0];
    && P.Assign(s.coordinator, x) in s.requests
    && x.step.robot in s.robots && s.robots[x.step.robot] == P.Fresh(x.step.robot)
    && x.id in s.db.rows && s.db.rows[x.id] == StepRow(PlanOf(op), x, Dispatched)
    && (forall i :: 0 < i < |op.batch| ==>
      op.batch[i].id in s.db.rows && s.db.rows[op.batch[i].id] == StepRow(PlanOf(op), op.batch[i], Pending))
    && (forall id :: id in s.db.rows ==> exists i :: 0 <= i < |op.batch| && id == op.batch[i].id)
  }

  /** Only the first step is independent. */
  predicate FirstAlone(op: Op)
  {
    && op.Create? && op.batch != [] && op.batch[0].step.dependsOn == []
    && forall i :: 0 < i < |op.batch| ==> op.batch[i].step.dependsOn != []
  }

  lemma FirstIsReady(db: Db, op: Op)
    requires op.Create? && JustBegun(db, op) && FirstAlone(op)
    ensures ReadyAssignments(db, PlanOf(op)) == Ok([op.batch[0]])
  {
    var p := PlanOf(op);
    var chosen := ReadyRows(db, p);
    assert IsReady(db, p, op.batch[0].id);
    forall i | 0 < i < |op.batch| ensures op.batch[i].id !in chosen {
      assert op.batch[i].step.dependsOn[0] in op.batch[i].step.dependsOn;
      assert forall id :: id in db.rows ==> db.rows[id].status == Pending;
    }
    SelectFirst(db, op.batch, chosen, |op.batch|);
    assert Ids(op.batch)[..|op.batch|] == Ids(op.batch);
  }

  lemma {:induction false} SelectFirst(db: Db, batch: seq<Assignment>, chosen: set<Text>, n: nat)
    requires 0 < n <= |batch| && batch[0].id in db.rows && batch[0].id in chosen
    requires db.rows[batch[0].id].assignment == batch[0]
    requires forall i :: 0 < i < |batch| ==> batch[i].id !in chosen
    ensures Select(db, Ids(batch)[..n], chosen) == [batch[0]]
  {
    assert Ids(batch)[..n][..n - 1] == Ids(batch)[..n - 1];
    if n == 1 {
      assert Ids(batch)[..0] == [];
    } else {
      SelectFirst(db, batch, chosen, n - 1);
    }
  }

  lemma FirstOut(coordinator: Text, robots: set<Text>, op: Op) returns (s: System)
    requires Submission(op) && op.batch != [] && FirstAlone(op) && op.batch[0].step.robot in robots
    ensures Reachable(s) && FirstStepOut(s, op)
  {
    s := Begin(coordinator, robots, op);
    FirstIsReady(s.db, op);
    assert [op.batch[0]] + [] == [op.batch[0]];
    s := Fetch(s, PlanOf(op), 0, [op.batch[0]] + []);
    s := Dispatch(s, 0, op.batch[0], []);
  }

  // ---------------------------------------------------------------- a stuck run

  /** A stuck run exists: the first step of any plan whose second step needs it is carried
      out and reported cancelled. */
  lemma CancelledFirstStepSticks(coordinator: Text, robots: set<Text>, op: Op, description: Text) returns (s: System)
    requires Submission(op) && |op.batch| == 2 && op.batch[0].step.dependsOn == []
    requires op.batch[1].step.dependsOn == [op.batch[0].step.stepId]
    requires op.batch[0].step.robot in robots && Distinct(op.batch[0].step.resources)
    ensures Reachable(s) && Stuck(s.db, PlanOf(op))
  {
    s := FirstOut(coordinator, robots, op);
    ghost var before := s.db;
    var x := op.batch[0];
    var o := Outcome(x.id, x.step.robot, description, Cancelled);
    s := Executed(s, x, o, description);
    s := Deliver(s, x.step.robot, o);
    assert Cache(s.db) && RowsIndexed(s.db) by { ReachableInv(s); }
    PairStuck(s.db, before, PlanOf(op), x, op.batch[1]);
  }

  lemma PairStuck(db: Db, before: Db, p: Text, x: Assignment, y: Assignment)
    requires Cache(db) && RowsIndexed(db) && x.id != y.id && x.step.stepId != y.step.stepId
    requires y.step.dependsOn == [x.step.stepId]
    requires x.id in before.rows && before.rows[x.id] == StepRow(p, x, Dispatched)
    requires y.id in before.rows && before.rows[y.id] == StepRow(p, y, Pending)
    requires (forall id :: id in before.rows ==> id == x.id || id == y.id)
    requires db == Settled(before, x.id, StepCancelled)
    ensures Stuck(db, p)
  {
    assert db.rows[y.id].status == Pending && db.rows[x.id].status == StepCancelled;
    PendingRunIsActiveExactly(db, y.id);
    assert !DependencySucceeded(db, p, x.step.stepId);
    assert x.step.stepId in y.step.dependsOn;
  }

  // ---------------------------------------------------------------- which records the journal backs

  ghost predicate AlwaysBacked(status: StepStatus) {
    forall s, id :: Reachable(s) && id in s.db.rows && s.db.rows[id].status == status ==> JournalSays(s, s.db.rows[id])
  }

  /** The assignment message is handled twice: the first time the work succeeds and its report is
      delayed, the second time, say after the deadline, it is refused. The coordinator records
      a rejection of work that the journal says succeeded. */
  lemma RejectedAlthoughSucceeded(coordinator: Text, robots: set<Text>, op: Op, description: Text) returns (s: System)
    requires Submission(op) && op.batch != [] && FirstAlone(op)
    requires op.batch[0].step.robot in robots && Distinct(op.batch[0].step.resources)
    ensures Reachable(s) && var x := op.batch[0];
      && x.id in s.db.rows && s.db.rows[x.id].assignment == x && s.db.rows[x.id].status == StepRejected
      && x.step.robot in s.robots
      && P.Recorded(s.robots[x.step.robot], Outcome(x.id, x.step.robot, description, Succeeded))
  {
    var x := op.batch[0];
    s := FirstOut(coordinator, robots, op);
    s := Executed(s, x, Outcome(x.id, x.step.robot, description, Succeeded), description);
    s := Rejection(s, x, description);
  }

  /** A coordinator restart makes the published step unknown while its robot knows nothing of it. */
  lemma UnknownWithoutJournal(coordinator: Text, robots: set<Text>, op: Op) returns (s: System)
    requires Submission(op) && op.batch != [] && FirstAlone(op) && op.batch[0].step.robot in robots
    ensures Reachable(s) && var x := op.batch[0];
      && x.id in s.db.rows && s.db.rows[x.id].assignment == x && s.db.rows[x.id].status == StepUnknown
      && x.step.robot in s.robots && s.robots[x.step.robot] == P.Fresh(x.step.robot)
  {
    s := FirstOut(coordinator, robots, op);
    ReachableStep(s, RestartCoordinator(true));
    s := Step(s, RestartCoordinator(true));
  }

  /** A step cancelled before it was sent never reaches a journal. */
  lemma CancelledWithoutJournal(coordinator: Text, robots: set<Text>, op: Op) returns (s: System)
    requires Submission(op) && op.batch != [] && op.batch[0].step.robot in robots
    ensures Reachable(s) && var x := op.batch[0];
      && x.id in s.db.rows && s.db.rows[x.id].assignment == x && s.db.rows[x.id].status == StepCancelled
      && x.step.robot in s.robots && s.robots[x.step.robot] == P.Fresh(x.step.robot)
  {
    s := Begin(coordinator, robots, op);
    CancelStep(s, PlanOf(op), op.batch[0].id);
    ReachableStep(s, CancelPlan(PlanOf(op)));
    s := Step(s, CancelPlan(PlanOf(op)));
  }

  lemma CancelStep(s: System, p: Text, id: Text)
    requires p in s.db.runs && id in s.db.rows && s.db.rows[id].planId == p && s.db.rows[id].status == Pending
    ensures var s' := Step(s, CancelPlan(p));
      s'.robots == s.robots && id in s'.db.rows && s'.db.rows[id] == s.db.rows[id].(status := StepCancelled)
  {
    assert Apply(s.db, Cancel(p)) == Refresh(CancelRows(s.db, p), p);
  }

  /** Of the terminal records of the coordinator, exactly successes and failures are always
      backed by the assigned robot's journal. */
  lemma BackedExactlyForSuccessAndFailure(coordinator: Text, robots: set<Text>, op: Op, description: Text,
      status: StepStatus)
    requires Submission(op) && op.batch != [] && FirstAlone(op) && Terminal(status)
    requires op.batch[0].step.robot in robots && Distinct(op.batch[0].step.resources)
    ensures AlwaysBacked(status) <==> status in {StepSucceeded, StepFailed}
  {
    if status in {StepSucceeded, StepFailed} {
      forall s, id | Reachable(s) && id in s.db.rows && s.db.rows[id].status == status
        ensures JournalSays(s, s.db.rows[id])
      {
        ReachableInv(s);
        assert Backed(s, s.db.rows[id]);
      }
    } else {
      var s;
      if status == StepRejected {
        s := RejectedAlthoughSucceeded(coordinator, robots, op, description);
      } else if status == StepUnknown {
        s := UnknownWithoutJournal(coordinator, robots, op);
      } else {
        s := CancelledWithoutJournal(coordinator, robots, op);
      }
      assert !JournalSays(s, s.db.rows[op.batch[0].id]);
    }
  }
}
