/** What holds in every reachable state of the deployment: at most one physical execution of
    each plan step, causal order, progress, and agreement between coordinator and robots. */
module Guarantees {
  import opened Ump
  import opened PlanGraph
  import opened RunStore
  import opened RunHistory
  import opened Scheduler
  import opened Deployment
  import P = Participant

  /** The states and steps of one run of the whole deployment. */
  ghost predicate IsRun(states: seq<System>, acts: seq<Action>) {
    && |states| == |acts| + 1
    && (exists coordinator, robots :: states[0] == Initial(coordinator, robots))
    && forall i {:trigger acts[i]} :: 0 <= i < |acts| ==>
         LegalAction(acts[i]) && states[i + 1] == Step(states[i], acts[i])
  }

  /** A state some run of the whole deployment can reach. */
  ghost predicate Reachable(s: System) {
    exists states, acts :: IsRun(states, acts) && states[|acts|] == s
  }

  lemma {:induction false} RunKeepsInv(states: seq<System>, acts: seq<Action>, n: nat)
    ensures IsRun(states, acts) && n <= |acts| ==> SystemInv(states[n])
  {
    if IsRun(states, acts) && n <= |acts| {
      if n == 0 {
        var coordinator, robots :| states[0] == Initial(coordinator, robots);
        InitialInv(coordinator, robots);
      } else {
        RunKeepsInv(states, acts, n - 1);
        StepKeepsInv(states[n - 1], acts[n - 1]);
      }
    }
  }

  lemma ReachableInv(s: System)
    ensures Reachable(s) ==> SystemInv(s)
  {
    if Reachable(s) {
      var states, acts :| IsRun(states, acts) && states[|acts|] == s;
      RunKeepsInv(states, acts, |acts|);
    }
  }

  lemma ReachableStep(s: System, act: Action)
    ensures Reachable(s) && LegalAction(act) ==> Reachable(Step(s, act))
  {
    if Reachable(s) && LegalAction(act) {
      var states, acts :| IsRun(states, acts) && states[|acts|] == s;
      var states', acts' := states + [Step(s, act)], acts + [act];
      assert states'[0] == states[0];
      forall i | 0 <= i < |acts'| ensures LegalAction(acts'[i]) && states'[i + 1] == Step(states'[i], acts'[i]) {
        if i < |acts| {
          assert acts'[i] == acts[i];
        }
      }
      assert IsRun(states', acts') && states'[|acts'|] == Step(s, act);
    }
  }

  ghost predicate LegalActions(acts: seq<Action>) {
    forall i :: 0 <= i < |acts| ==> LegalAction(acts[i])
  }

  /** Each plan step is published as an assignment at most once. */
  lemma PublishedAtMostOnce(s: System, i: nat, j: nat)
    requires Reachable(s) && i < |s.published| && j < |s.published|
    requires s.published[i].planId == s.published[j].planId && s.published[i].step.stepId == s.published[j].step.stepId
    ensures i == j
  {
    ReachableInv(s);
    assert Sound(s.db, s.published[i]) && Sound(s.db, s.published[j]);
  }

  /** At-most-once physical work: native execution of a plan step starts at most once, over
      all robots, however messages are lost, repeated or reordered and whoever crashes. */
  lemma PhysicalWorkAtMostOnce(s: System, r: Text, i: nat, q: Text, j: nat)
    requires Reachable(s) && r in s.robots && q in s.robots && i < |s.robots[r].starts| && j < |s.robots[q].starts|
    requires s.robots[r].starts[i].planId == s.robots[q].starts[j].planId
    requires s.robots[r].starts[i].step.stepId == s.robots[q].starts[j].step.stepId
    ensures r == q && i == j
  {
    ReachableInv(s);
    var x :| 0 <= x < |s.published| && s.published[x] == s.robots[r].starts[i];
    var y :| 0 <= y < |s.published| && s.published[y] == s.robots[q].starts[j];
    PublishedAtMostOnce(s, x, y);
  }

  /** Causal safety: whatever was published depends, transitively, only on succeeded steps. */
  lemma PublishedAfterDependencies(s: System, i: nat, path: seq<Text>)
    requires Reachable(s) && i < |s.published|
    requires Path(PlanGraphOf(s.db, s.published[i].planId), path) && |path| >= 2
    requires path[0] == s.published[i].step.stepId
    ensures DependencySucceeded(s.db, s.published[i].planId, path[|path| - 1])
    ensures exists id ::
      && id in s.db.rows && s.db.rows[id].status == StepSucceeded && s.db.rows[id].planId == s.published[i].planId
      && s.db.rows[id].assignment.step.stepId == path[|path| - 1]
  {
    ReachableInv(s);
    assert Sound(s.db, s.published[i]);
    TransitiveDependenciesSucceeded(s.db, s.published[i].id, path);
  }

  /** The same for native execution on the robots. */
  lemma WorkAfterDependencies(s: System, r: Text, i: nat, path: seq<Text>)
    requires Reachable(s) && r in s.robots && i < |s.robots[r].starts|
    requires Path(PlanGraphOf(s.db, s.robots[r].starts[i].planId), path) && |path| >= 2
    requires path[0] == s.robots[r].starts[i].step.stepId
    ensures DependencySucceeded(s.db, s.robots[r].starts[i].planId, path[|path| - 1])
    ensures exists id ::
      && id in s.db.rows && s.db.rows[id].status == StepSucceeded
      && s.db.rows[id].planId == s.robots[r].starts[i].planId
      && s.db.rows[id].assignment.step.stepId == path[|path| - 1]
  {
    ReachableInv(s);
    var x :| 0 <= x < |s.published| && s.published[x] == s.robots[r].starts[i];
    PublishedAfterDependencies(s, x, path);
  }

  /** Scheduler progress in every reachable state of the deployment. */
  lemma StuckExactlyWhenBehindCancelled(s: System, p: Text)
    requires Reachable(s) && p in s.db.runs && s.db.runs[p].status == Active && Idle(s.db, p)
    ensures ReadyAssignments(s.db, p).Ok?
    ensures ReadyAssignments(s.db, p).value == [] <==>
      forall id :: id in s.db.rows && s.db.rows[id].planId == p && s.db.rows[id].status == Pending ==>
        BehindCancelled(s.db, p, s.db.rows[id].assignment.step.stepId)
  {
    ReachableInv(s);
    StuckExactlyBehindCancelled(s.db, p);
  }

  /** A coordinator step never dispatches a step with unfinished dependencies. */
  lemma StepIsDisciplined(s: System, act: Action, op: Op, p: Text)
    requires LoopsSound(s) && Transaction(s, act) == Some(op) && act != CancelPlan(p)
    ensures Disciplined(s.db, op, p)
  {
    if act.TryMark? {
      var a := s.loops[act.loop].rest[0];
      assert LoopSound(s.db, s.loops[act.loop]) && a in s.loops[act.loop].rest;
      assert Sound(s.db, a);
    }
  }

  /** What a step does to the tables: one legal transaction or nothing. */
  lemma StepDb(s: System, act: Action)
    requires LegalAction(act)
    ensures match Transaction(s, act)
      case Some(op) => Step(s, act).db == Apply(s.db, op) && Legal(op)
      case None => Step(s, act).db == s.db
  {
  }

  lemma StuckStays(s: System, db: Db, act: Action, p: Text)
    requires RunHistory.Inv(s.db) && LoopsSound(s) && LegalAction(act) && Stuck(s.db, p) && act != CancelPlan(p)
    requires db == Step(s, act).db
    ensures Stuck(db, p)
  {
    StepDb(s, act);
    var transaction := Transaction(s, act);
    if transaction.Some? {
      StepIsDisciplined(s, act, transaction.value, p);
      StuckStepStays(s.db, transaction.value, p);
    }
  }

  /** A run that is stuck stays active and stuck in every later state of the deployment, until
      its own cancellation is requested. */
  lemma {:induction false} StuckForever(s: System, acts: seq<Action>, p: Text)
    requires Reachable(s) && LegalActions(acts) && Stuck(s.db, p) && CancelPlan(p) !in acts
    ensures Stuck(RunSystem(s, acts).db, p) && Reachable(RunSystem(s, acts))
  {
    if acts != [] {
      var init, act := acts[..|acts| - 1], acts[|acts| - 1];
      StuckForever(s, init, p);
      var before := RunSystem(s, init);
      assert act in acts;
      ReachableStep(before, act);
      assert RunHistory.Inv(before.db) && LoopsSound(before) by { ReachableInv(before); }
      StuckStays(before, Step(before, act).db, act, p);
    }
  }

  predicate OnlyInFlight(db: Db, p: Text, x: Text) {
    && x in db.rows && db.rows[x].planId == p
    && forall id :: id in db.rows && db.rows[id].planId == p ==> (InFlight(db.rows[id].status) <==> id == x)
  }

  /** How a run gets stuck: the one step in flight is reported cancelled, and pending steps
      remain, each leading to that step or to one cancelled before. */
  lemma CancelledReportSticks(s: System, o: Outcome, p: Text, s': System)
    requires Reachable(s) && p in s.db.runs && s.db.runs[p].status == Active && OnlyInFlight(s.db, p, o.assignmentId)
    requires InNetwork(s, P.Report(o.robot, o)) && FromAssignedRobot(s.db, o.assignmentId, o.robot)
    requires o.status == Cancelled && s' == Step(s, OnReport(P.Report(o.robot, o), false))
    ensures Stuck(s'.db, p) <==> Has(s.db, p, Pending) && AllPendingLeadTo(s.db, p, o.assignmentId)
  {
    ReachableInv(s);
    CancelledOutcomeSticks(s.db, p, o.assignmentId, s'.db);
  }

  /** A loop sends a still pending step into a run that is no longer active exactly when some
      step of the plan has failed, was rejected or is unknown. */
  lemma SendsIntoInactiveRunExactly(s: System, k: nat)
    requires Reachable(s) && k in s.loops && s.loops[k].Iterating? && s.loops[k].rest != []
    requires var a := s.loops[k].rest[0]; a.id in s.db.rows && s.db.rows[a.id].status == Pending
    ensures var a, s' := s.loops[k].rest[0], Step(s, TryMark(k));
      && k in s'.loops && s'.loops[k] == Won(a, s.loops[k].rest[1..]) && a.planId in s'.db.runs
      && (s'.db.runs[a.planId].status != Active <==> Blemished(s.db, a.planId))
  {
    ReachableInv(s);
    var a := s.loops[k].rest[0];
    assert LoopSound(s.db, s.loops[k]) && a in s.loops[k].rest;
    assert Sound(s.db, a);
    PendingRunIsActiveExactly(s.db, a.id);
  }

  lemma StepGrows(s: System, act: Action)
    ensures Evolves(s.db, Step(s, act).db) && Step(s, act).robots.Keys == s.robots.Keys
    ensures forall r :: r in s.robots ==> P.Grows(s.robots[r].ledger, Step(s, act).robots[r].ledger)
  {
    if Transaction(s, act).Some? {
      ApplyEvolves(s.db, Transaction(s, act).value);
    }
    if act.RobotActs? && act.robot in s.robots {
      P.ActGrows(s.robots[act.robot], act.act);
    }
  }

  /** The coordinator's record of a step and the outcome in its robot's journal say the same. */
  predicate AgreedOn(s: System, id: Text, o: Outcome) {
    && id in s.db.rows && SameOutcome(s.db.rows[id].status, o.status)
    && var robot := s.db.rows[id].assignment.step.robot;
       robot in s.robots && id in s.robots[robot].ledger.rows && s.robots[robot].ledger.rows[id].outcome == Some(o)
  }

  lemma {:induction false} AgreementPersists(s: System, acts: seq<Action>, id: Text, o: Outcome)
    requires AgreedOn(s, id, o) && Definite(o.status)
    ensures AgreedOn(RunSystem(s, acts), id, o)
  {
    if acts != [] {
      AgreementPersists(s, acts[..|acts| - 1], id, o);
      StepGrows(RunSystem(s, acts[..|acts| - 1]), acts[|acts| - 1]);
    }
  }

  /** Coordinator and robot agree on every success and failure, and keep agreeing on that
      very outcome in every later state, whoever restarts. */
  lemma AgreementIsPermanent(s: System, id: Text) returns (o: Outcome)
    requires Reachable(s) && id in s.db.rows && s.db.rows[id].status in {StepSucceeded, StepFailed}
    ensures AgreedOn(s, id, o)
    ensures s.db.rows[id].status == StepSucceeded <==> o.status == Succeeded
    ensures s.db.rows[id].status == StepFailed <==> o.status == Failed
    ensures forall acts :: AgreedOn(RunSystem(s, acts), id, o)
  {
    ReachableInv(s);
    assert Backed(s, s.db.rows[id]);
    o := s.robots[s.db.rows[id].assignment.step.robot].ledger.rows[id].outcome.value;
    forall acts ensures AgreedOn(RunSystem(s, acts), id, o) {
      AgreementPersists(s, acts, id, o);
    }
  }
}
