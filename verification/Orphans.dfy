/** Which steps in flight or unknown can still come to a known outcome: a step that was marked
    dispatched and lost before it was published never does. */
module Orphans {
  import opened Ump
  import opened RunStore
  import opened RunHistory
  import opened Deployment
  import opened Guarantees
  import opened Boundaries
  import P = Participant

  predicate PublishedId(s: System, id: Text) {
    exists i :: 0 <= i < |s.published| && s.published[i].id == id
  }

  /** Some activation of the dispatch loop is about to publish it. */
  predicate AboutToPublish(s: System, id: Text) {
    exists k :: k in s.loops && s.loops[k].Won? && s.loops[k].assignment.id == id
  }

  predicate Unsettled(db: Db, id: Text) {
    id in db.rows && (InFlight(db.rows[id].status) || db.rows[id].status == StepUnknown)
  }

  /** Marked, but neither published nor about to be. */
  predicate Orphan(s: System, id: Text) {
    Unsettled(s.db, id) && !PublishedId(s, id) && !AboutToPublish(s, id)
  }

  // ---------------------------------------------------------------- who is ever spoken of

  /** Robots speak only of published assignments, and what was published is on the network. */
  predicate Addressed(s: System) {
    && (forall r, m :: r in s.robots && m in s.robots[r].sent && P.Subject(m).Some? ==>
         PublishedId(s, P.Subject(m).value))
    && (forall a :: a in s.published ==> P.Assign(s.coordinator, a) in s.requests)
  }

  lemma RobotKeepsAddressed(s: System, s': System, r: Text, act: P.Action)
    requires RequestsOk(s) && RobotsOk(s) && Addressed(s) && r in s.robots && Deliverable(s, act)
    requires s' == s.(robots := s.robots[r := P.Act(s.robots[r], act)])
    ensures Addressed(s')
  {
    forall m | m in s'.robots[r].sent && P.Subject(m).Some? ensures PublishedId(s', P.Subject(m).value) {
      if m in s.robots[r].sent {
        assert PublishedId(s, P.Subject(m).value);
      } else {
        P.NewMessageSubject(s.robots[r], act, m);
        var id := P.Subject(m).value;
        if id in s.robots[r].ledger.rows {
          var row := s.robots[r].ledger.rows[id];
          assert row.assignment in s.published && row.assignment.id == id;
        } else {
          assert InNetwork(s, act.message);
          assert act.message.source in s.robots ==> ClaimsPublished(s, s.robots[act.message.source]);
          assert act.message in s.requests && act.message.assignment in s.published;
        }
      }
    }
    forall q, m | q in s'.robots && q != r && m in s'.robots[q].sent && P.Subject(m).Some?
      ensures PublishedId(s', P.Subject(m).value)
    {
      assert PublishedId(s, P.Subject(m).value);
    }
  }

  /** What a step other than a robot's may do to the messages. */
  lemma CoordinatorMessages(s: System, act: Action)
    requires !act.RobotActs?
    ensures var s' := Step(s, act);
      && s'.robots == s.robots && s'.coordinator == s.coordinator && s.requests <= s'.requests
      && (s'.published == s.published || (act.Publish? && act.loop in s.loops && s.loops[act.loop].Won? && (
           var a := s.loops[act.loop].assignment;
           s'.published == s.published + [a] && P.Assign(s.coordinator, a) in s'.requests)))
  {
  }

  lemma StepKeepsAddressed(s: System, s': System, act: Action)
    requires RequestsOk(s) && RobotsOk(s) && Addressed(s) && s' == Step(s, act)
    ensures Addressed(s')
  {
    if act.RobotActs? {
      if act.robot in s.robots && Deliverable(s, act.act) {
        RobotKeepsAddressed(s, s', act.robot, act.act);
      }
    } else {
      CoordinatorMessages(s, act);
      forall id | PublishedId(s, id) ensures PublishedId(s', id) {
        var i :| 0 <= i < |s.published| && s.published[i].id == id;
        assert s'.published[i] == s.published[i];
      }
    }
  }

  lemma {:induction false} RunKeepsAddressed(states: seq<System>, acts: seq<Action>, n: nat)
    ensures IsRun(states, acts) && n <= |acts| ==> Addressed(states[n])
  {
    if IsRun(states, acts) && 0 < n <= |acts| {
      RunKeepsAddressed(states, acts, n - 1);
      assert RequestsOk(states[n - 1]) && RobotsOk(states[n - 1]) by { RunKeepsInv(states, acts, n - 1); }
      StepKeepsAddressed(states[n - 1], states[n], acts[n - 1]);
    }
  }

  lemma ReachableIsAddressed(s: System)
    ensures Reachable(s) ==> SystemInv(s) && Addressed(s)
  {
    if Reachable(s) {
      var states, acts :| IsRun(states, acts) && states[|acts|] == s;
      RunKeepsAddressed(states, acts, |acts|);
      RunKeepsInv(states, acts, |acts|);
    }
  }

  // ---------------------------------------------------------------- an orphan stays one

  /** A transaction that does not report on the step leaves it unsettled. */
  lemma UnreportedStays(db: Db, op: Op, id: Text)
    requires Unsettled(db, id)
    requires op.CancelAck? || op.Ack? || op.Record? || op.Reconcile? ==> op.id != id
    ensures Unsettled(Apply(db, op), id)
  {
    if op.CancelAck? || op.Ack? || op.Record? || op.Reconcile? {
      ReportShape(db, op);
    } else if op.Create? {
      CreateMovesNothing(db, op, id);
    }
  }

  lemma NetworkSubject(s: System, m: P.Message)
    requires RequestsOk(s) && Addressed(s) && InNetwork(s, m) && P.Subject(m).Some?
    ensures PublishedId(s, P.Subject(m).value)
  {
    assert m !in s.requests;
  }

  /** A reporting transaction acts on a message about its step. */
  lemma ReportSubject(s: System, act: Action, op: Op)
    requires Transaction(s, act) == Some(op) && (op.CancelAck? || op.Ack? || op.Record? || op.Reconcile?)
    ensures act.OnReport? || act.OnAck? || act.OnSnapshot? || act.OnCancelAck?
    ensures InNetwork(s, act.message) && P.Subject(act.message) == Some(op.id)
  {
  }

  lemma OrphanLoops(s: System, act: Action, id: Text)
    requires Orphan(s, id)
    ensures !PublishedId(Step(s, act), id) && !AboutToPublish(Step(s, act), id)
  {
    var s' := Step(s, act);
    if !act.RobotActs? {
      CoordinatorMessages(s, act);
    }
  }

  lemma OrphanStays(s: System, act: Action, id: Text)
    requires RequestsOk(s) && Addressed(s) && Orphan(s, id)
    ensures Orphan(Step(s, act), id)
  {
    OrphanLoops(s, act, id);
    if Transaction(s, act).Some? {
      var op := Transaction(s, act).value;
      if op.CancelAck? || op.Ack? || op.Record? || op.Reconcile? {
        ReportSubject(s, act, op);
        NetworkSubject(s, act.message);
      }
      UnreportedStays(s.db, op, id);
    }
    assert Unsettled(Step(s, act).db, id);
  }

  lemma {:induction false} OrphanForever(s: System, acts: seq<Action>, id: Text)
    requires Reachable(s) && LegalActions(acts) && Orphan(s, id)
    ensures Reachable(RunSystem(s, acts)) && Orphan(RunSystem(s, acts), id)
  {
    if acts != [] {
      var init, act := acts[..|acts| - 1], acts[|acts| - 1];
      OrphanForever(s, init, id);
      ReachableStep(RunSystem(s, init), act);
      ReachableIsAddressed(RunSystem(s, init));
      OrphanStays(RunSystem(s, init), act, id);
    }
  }

  // ---------------------------------------------------------------- a published step can be settled

  /** The row of a published assignment, and the message it was published in. */
  predicate Sent(s: System, a: Assignment) {
    && a.id in s.db.rows && s.db.rows[a.id].assignment == a && P.Assign(s.coordinator, a) in s.requests
    && a.step.robot in s.robots && s.robots[a.step.robot].id == a.step.robot
  }

  /** The refusal is reported and recorded. */
  lemma RefusalSettles(s: System, a: Assignment) returns (acts: seq<Action>)
    requires Sent(s, a) && Unsettled(s.db, a.id)
    ensures LegalActions(acts) && a.id in RunSystem(s, acts).db.rows && Final(RunSystem(s, acts).db.rows[a.id].status)
  {
    var r, o := a.step.robot, Outcome(a.id, a.step.robot, a.id, Rejected);
    var refuse := RobotActs(r, P.Refuse(P.Assign(s.coordinator, a), a.id));
    var report := OnReport(P.Report(r, o), s.db.rows[a.id].status == StepUnknown);
    acts := [refuse, report];
    assert acts[..1] == [refuse] && [refuse][..0] == [];
    assert RunSystem(s, acts[..1]) == Step(RunSystem(s, []), refuse);
    RejectionSettles(Step(s, refuse), a, o);
  }

  lemma RejectionSettles(s: System, a: Assignment, o: Outcome)
    requires Unsettled(s.db, a.id) && s.db.rows[a.id].assignment == a && a.step.robot in s.robots
    requires o.assignmentId == a.id && o.robot == a.step.robot && o.status == Rejected
    requires P.Report(a.step.robot, o) in s.robots[a.step.robot].sent
    ensures var s' := Step(s, OnReport(P.Report(a.step.robot, o), s.db.rows[a.id].status == StepUnknown));
      a.id in s'.db.rows && s'.db.rows[a.id].status == StepRejected
  {
    var sawUnknown := s.db.rows[a.id].status == StepUnknown;
    var act := OnReport(P.Report(a.step.robot, o), sawUnknown);
    assert InNetwork(s, P.Report(a.step.robot, o));
    var op := if sawUnknown then Reconcile(a.id, Rejected) else Record(a.id, Rejected);
    assert Transaction(s, act) == Some(op);
    assert Apply(s.db, op) == Refresh(SetStatus(s.db, a.id, StepRejected), s.db.rows[a.id].planId);
  }

  lemma {:induction false} RunAfter(s: System, x: Action, acts: seq<Action>)
    ensures RunSystem(s, [x] + acts) == RunSystem(Step(s, x), acts)
  {
    if acts == [] {
      assert [x] + acts == [x] && [x][..0] == [];
      assert RunSystem(s, [x]) == Step(RunSystem(s, []), x);
    } else {
      assert ([x] + acts)[..|acts|] == [x] + acts[..|acts| - 1];
      RunAfter(s, x, acts[..|acts| - 1]);
    }
  }

  // ---------------------------------------------------------------- the exact condition

  ghost predicate CanBeSettled(s: System, id: Text) {
    exists acts ::
      LegalActions(acts) && id in RunSystem(s, acts).db.rows && Final(RunSystem(s, acts).db.rows[id].status)
  }

  predicate RobotExists(s: System, id: Text)
  {
    id in s.db.rows && s.db.rows[id].assignment.step.robot in s.robots
  }

  /** A step in flight or unknown, of a robot that exists, can still come to a known outcome if and
      only if its assignment was published or some dispatch loop is about to publish it. */
  lemma SettledExactlyWhenSent(s: System, id: Text)
    requires Reachable(s) && Unsettled(s.db, id) && RobotExists(s, id)
    ensures CanBeSettled(s, id) <==> PublishedId(s, id) || AboutToPublish(s, id)
  {
    if PublishedId(s, id) {
      ReachableIsAddressed(s);
      var i :| 0 <= i < |s.published| && s.published[i].id == id;
      assert Sound(s.db, s.published[i]);
      var acts := RefusalSettles(s, s.published[i]);
    } else if AboutToPublish(s, id) {
      var k :| k in s.loops && s.loops[k].Won? && s.loops[k].assignment.id == id;
      assert LoopSound(s.db, s.loops[k]) && Sound(s.db, s.loops[k].assignment) && RobotsOk(s) by { ReachableInv(s); }
      var acts := RefusalSettles(Step(s, Publish(k)), s.loops[k].assignment);
      RunAfter(s, Publish(k), acts);
      assert LegalActions([Publish(k)] + acts);
    } else {
      forall acts | LegalActions(acts) ensures Orphan(RunSystem(s, acts), id) {
        OrphanForever(s, acts, id);
      }
    }
  }

  /** An orphan exists: the coordinator crashes between marking the first step and publishing it. */
  lemma CrashBeforePublishOrphans(coordinator: Text, robots: set<Text>, op: Op, recover: bool) returns (s: System)
    requires Submission(op) && FirstAlone(op)
    ensures Reachable(s) && Orphan(s, op.batch[0].id)
    ensures s.db.rows[op.batch[0].id].status == if recover then StepUnknown else Dispatched
  {
    s := Begin(coordinator, robots, op);
    FirstIsReady(s.db, op);
    assert [op.batch[0]] + [] == [op.batch[0]];
    s := Fetch(s, PlanOf(op), 0, [op.batch[0]] + []);
    s := Boundaries.Mark(s, 0, op.batch[0], []);
    RestartOrphans(s, op.batch[0].id, recover);
    ReachableStep(s, RestartCoordinator(recover));
    s := Step(s, RestartCoordinator(recover));
  }

  lemma RestartOrphans(s: System, id: Text, recover: bool)
    requires id in s.db.rows && s.db.rows[id].status == Dispatched && !PublishedId(s, id)
    ensures var s' := Step(s, RestartCoordinator(recover));
      Orphan(s', id) && s'.db.rows[id].status == if recover then StepUnknown else Dispatched
  {
    assert !recover ==> Step(s, RestartCoordinator(recover)) == s.(loops := map[]);
    assert recover ==> Step(s, RestartCoordinator(recover)) == s.(db := Recover(s.db), loops := map[]);
  }
}
