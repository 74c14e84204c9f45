/** Dependencies and dispatch: what it means that work starts only after everything it
    depends on has succeeded, and exactly when an active run has nothing to dispatch. */
module Scheduler {
  import opened Ump
  import opened PlanGraph
  import opened RunStore
  import opened RunHistory

  /** A step in this status was sent to its robot; a cancelled step may never have been. */
  predicate WasSent(s: StepStatus) {
    s != Pending && s != StepCancelled
  }

  /** Every step that was sent has its direct dependencies succeeded. */
  predicate Causal(db: Db) {
    forall id, d :: id in db.rows && WasSent(db.rows[id].status) && d in db.rows[id].assignment.step.dependsOn ==>
      DependencySucceeded(db, db.rows[id].planId, d)
  }

  function PlanGraphOf(db: Db, p: Text): Graph {
    if p in db.runs then GraphOf(db.runs[p].plan.steps) else map[]
  }

  lemma RowEdges(db: Db, id: Text)
    requires Tables(db) && id in db.rows
    ensures var g, step := PlanGraphOf(db, db.rows[id].planId), db.rows[id].assignment.step;
      db.rows[id].planId in db.runs && step.stepId in g && g[step.stepId] == step.dependsOn
  {
    var steps := db.runs[db.rows[id].planId].plan.steps;
    var i :| 0 <= i < |steps| && steps[i] == db.rows[id].assignment.step;
    GraphEdges(steps, i);
  }

  /** The row of a step named in the plan's graph. */
  lemma RowOfStep(db: Db, p: Text, s: Text) returns (id: Text)
    requires Tables(db) && p in db.runs && s in PlanGraphOf(db, p)
    ensures id in db.rows && db.rows[id].planId == p && db.rows[id].assignment.step.stepId == s
  {
    var steps := db.runs[p].plan.steps;
    var i :| 0 <= i < |steps| && steps[i].stepId == s;
    assert StepHasRow(db, p, steps[i]);
    id :| id in db.rows && db.rows[id].planId == p && db.rows[id].assignment.step == steps[i];
  }

  /** Every step reachable along dependencies from a sent step has succeeded. */
  lemma {:induction false} TransitiveDependenciesSucceeded(db: Db, id: Text, path: seq<Text>)
    requires Tables(db) && Causal(db) && id in db.rows
    requires forall d :: d in db.rows[id].assignment.step.dependsOn ==> DependencySucceeded(db, db.rows[id].planId, d)
    requires Path(PlanGraphOf(db, db.rows[id].planId), path) && |path| >= 2
    requires path[0] == db.rows[id].assignment.step.stepId
    ensures DependencySucceeded(db, db.rows[id].planId, path[|path| - 1])
    decreases |path|
  {
    var p := db.rows[id].planId;
    RowEdges(db, id);
    assert path[1] in db.rows[id].assignment.step.dependsOn;
    if |path| > 2 {
      var next := RowOfStep(db, p, path[1]);
      var rest := path[1..];
      assert forall k :: 0 <= k < |rest| ==> rest[k] == path[k + 1];
      TransitiveDependenciesSucceeded(db, next, rest);
    }
  }

  // ---------------------------------------------------------------- progress

  predicate Idle(db: Db, p: Text) {
    forall id :: id in db.rows && db.rows[id].planId == p ==> !InFlight(db.rows[id].status)
  }

  predicate IsCancelled(db: Db, p: Text, s: Text) {
    exists id :: id in db.rows && db.rows[id].planId == p && db.rows[id].assignment.step.stepId == s &&
      db.rows[id].status == StepCancelled
  }

  /** Some step that `s` transitively depends on was cancelled. */
  ghost predicate BehindCancelled(db: Db, p: Text, s: Text) {
    exists path :: Path(PlanGraphOf(db, p), path) && |path| >= 2 && path[0] == s && IsCancelled(db, p, path[|path| - 1])
  }

  lemma IdleStatuses(db: Db, p: Text, id: Text)
    requires Cache(db) && p in db.runs && db.runs[p].status == Active && Idle(db, p)
    requires id in db.rows && db.rows[id].planId == p
    ensures db.rows[id].status in {Pending, StepSucceeded, StepCancelled}
  {
    var s := db.rows[id].status;
    assert Has(db, p, s);
    assert s in Statuses(db, p);
    assert s in {StepFailed, StepRejected} ==> s in Statuses(db, p) * {StepFailed, StepRejected};
  }

  /** A pending step that is not ready waits for a pending or cancelled one. */
  lemma UnfinishedDependency(db: Db, p: Text, id: Text) returns (d: Text, next: Text)
    requires Inv(db) && p in db.runs && db.runs[p].status == Active && Idle(db, p)
    requires id in db.rows && db.rows[id].planId == p && db.rows[id].status == Pending && !IsReady(db, p, id)
    ensures var s, g := db.rows[id].assignment.step.stepId, PlanGraphOf(db, p);
      s in g && d in g[s] && d in g
    ensures next in db.rows && db.rows[next].planId == p && db.rows[next].assignment.step.stepId == d
    ensures db.rows[next].status in {Pending, StepCancelled}
  {
    RowEdges(db, id);
    d :| d in db.rows[id].assignment.step.dependsOn && !DependencySucceeded(db, p, d);
    next := RowOfStep(db, p, d);
    IdleStatuses(db, p, next);
  }

  /** Following unfinished dependencies from a pending step ends at a cancelled one. */
  lemma UnreadyIsBehindCancelled(db: Db, p: Text, id: Text)
    requires Inv(db) && p in db.runs && db.runs[p].status == Active && Idle(db, p)
    requires forall x :: x in db.rows ==> !IsReady(db, p, x)
    requires id in db.rows && db.rows[id].planId == p && db.rows[id].status == Pending
    ensures BehindCancelled(db, p, db.rows[id].assignment.step.stepId)
  {
    var g := PlanGraphOf(db, p);
    var order :| Topological(g, order);
    var waiting :=
      set x | x in db.rows && db.rows[x].planId == p && db.rows[x].status == Pending
        :: db.rows[x].assignment.step.stepId;
    var stopped :=
      set x | x in db.rows && db.rows[x].planId == p && db.rows[x].status == StepCancelled
        :: db.rows[x].assignment.step.stepId;
    forall s | s in waiting ensures DependsOnOneOf(g, s, waiting + stopped) {
      var x :| x in db.rows && db.rows[x].planId == p && db.rows[x].status == Pending &&
        db.rows[x].assignment.step.stepId == s;
      var d, next := UnfinishedDependency(db, p, x);
      assert d in waiting + stopped;
    }
    var path := WaitingLeadsToStopped(g, order, waiting, stopped, db.rows[id].assignment.step.stepId, |order|);
  }

  lemma ReadyIsNotBehindCancelled(db: Db, p: Text, id: Text)
    requires Inv(db) && Causal(db) && p in db.runs && IsReady(db, p, id)
    ensures !BehindCancelled(db, p, db.rows[id].assignment.step.stepId)
  {
    forall path | Path(PlanGraphOf(db, p), path) && |path| >= 2 && path[0] == db.rows[id].assignment.step.stepId
      ensures !IsCancelled(db, p, path[|path| - 1])
    {
      TransitiveDependenciesSucceeded(db, id, path);
    }
  }

  lemma ReadyListsAll(db: Db, p: Text)
    requires RowsIndexed(db) && p in db.runs && db.runs[p].status == Active
    ensures ReadyAssignments(db, p).Ok?
    ensures ReadyAssignments(db, p).value == [] <==> forall x :: x in db.rows ==> !IsReady(db, p, x)
  {
    var chosen := ReadyRows(db, p);
    var list := ReadyAssignments(db, p).value;
    assert list == Select(db, db.order, chosen);
    assert list != [] ==> list[0] in list;
    if x :| x in db.rows && IsReady(db, p, x) {
      assert x in chosen && x in db.order;
    }
  }

  lemma ActiveHasPending(db: Db, p: Text) returns (id: Text)
    requires Cache(db) && p in db.runs && db.runs[p].status == Active && Idle(db, p)
    ensures id in db.rows && db.rows[id].planId == p && db.rows[id].status == Pending
  {
    var s :| s in Statuses(db, p) && s !in {StepSucceeded, StepCancelled};
    id :| id in db.rows && db.rows[id].planId == p && db.rows[id].status == s;
    IdleStatuses(db, p, id);
  }

  /** An active run with nothing in flight has nothing to dispatch exactly when every
      pending step waits, directly or not, for a cancelled one. */
  lemma StuckExactlyBehindCancelled(db: Db, p: Text)
    requires Inv(db) && Causal(db) && p in db.runs && db.runs[p].status == Active && Idle(db, p)
    ensures ReadyAssignments(db, p).Ok?
    ensures ReadyAssignments(db, p).value == [] <==>
      forall id :: id in db.rows && db.rows[id].planId == p && db.rows[id].status == Pending ==>
        BehindCancelled(db, p, db.rows[id].assignment.step.stepId)
  {
    ReadyListsAll(db, p);
    if forall x :: x in db.rows ==> !IsReady(db, p, x) {
      forall id | id in db.rows && db.rows[id].planId == p && db.rows[id].status == Pending
        ensures BehindCancelled(db, p, db.rows[id].assignment.step.stepId)
      {
        UnreadyIsBehindCancelled(db, p, id);
      }
    } else {
      var x :| x in db.rows && IsReady(db, p, x);
      ReadyIsNotBehindCancelled(db, p, x);
    }
  }

  /** Scheduler progress: in every reachable state, an active run with nothing in flight and
      no cancelled step has ready work. */
  lemma IdleActiveRunHasReadyWork(db: Db, p: Text)
    requires ReachableDb(db) && p in db.runs && db.runs[p].status == Active && Idle(db, p)
    requires forall id :: id in db.rows && db.rows[id].planId == p ==> db.rows[id].status != StepCancelled
    ensures ReadyAssignments(db, p).Ok? && ReadyAssignments(db, p).value != []
  {
    DbInv(db);
    ReadyListsAll(db, p);
    if forall x :: x in db.rows ==> !IsReady(db, p, x) {
      var id := ActiveHasPending(db, p);
      UnreadyIsBehindCancelled(db, p, id);
      assert false;
    }
  }

  // ---------------------------------------------------------------- a stuck run

  /** Active, with nothing in flight and nothing to dispatch. */
  predicate Stuck(db: Db, p: Text) {
    && p in db.runs && db.runs[p].status == Active && Idle(db, p)
    && forall x :: x in db.rows ==> !IsReady(db, p, x)
  }

  /** A step is dispatched only with its dependencies succeeded, and plan `p` is not cancelled. */
  predicate Disciplined(db: Db, op: Op, p: Text) {
    && op != Cancel(p)
    && (op.Mark? && op.id in db.rows && db.rows[op.id].status == Pending ==> IsReady(db, db.rows[op.id].planId, op.id))
  }

  /** Only a dispatch or its plan's cancellation moves a pending step. */
  lemma PendingMoves(db: Db, op: Op, id: Text)
    requires id in db.rows && db.rows[id].status == Pending && id in Apply(db, op).rows
    requires Apply(db, op).rows[id].status != Pending
    ensures op == Mark(id) || op == Cancel(db.rows[id].planId)
  {
    if op.CancelAck? || op.Ack? || op.Record? || op.Reconcile? {
      ReportShape(db, op);
    } else if op.Create? && op.plan.planId !in db.runs && CreateRun(db, op.goal, op.plan, op.batch).Ok? {
      CreateShape(db, op.goal, op.plan, op.batch);
    }
  }

  lemma StuckRowUnmoved(db: Db, op: Op, p: Text, id: Text)
    requires Inv(db) && Stuck(db, p) && Disciplined(db, op, p) && id in db.rows && db.rows[id].planId == p
    ensures id in Apply(db, op).rows && Apply(db, op).rows[id] == db.rows[id]
  {
    IdleStatuses(db, p, id);
    RowsPersist(db, op, id);
    if db.rows[id].status == Pending && Apply(db, op).rows[id].status != Pending {
      PendingMoves(db, op, id);
    }
  }

  lemma StuckStepStays(db: Db, op: Op, p: Text)
    requires Inv(db) && Legal(op) && Stuck(db, p) && Disciplined(db, op, p)
    ensures Stuck(Apply(db, op), p)
  {
    var r := Apply(db, op);
    ApplyKeepsInv(db, op);
    RunsPersist(db, op, p);
    forall id | id in db.rows && db.rows[id].planId == p ensures id in r.rows && r.rows[id] == db.rows[id] {
      StuckRowUnmoved(db, op, p, id);
    }
    forall id | id in r.rows && r.rows[id].planId == p ensures id in db.rows && db.rows[id] == r.rows[id] {
      RowsOfPlan(db, op, p, id);
    }
    SameStatuses(db, r, p);
    forall x | x in r.rows ensures !IsReady(r, p, x) {
      if r.rows[x].planId == p && r.rows[x].status == Pending {
        assert !IsReady(db, p, x);
        var d :| d in db.rows[x].assignment.step.dependsOn && !DependencySucceeded(db, p, d);
        assert !DependencySucceeded(r, p, d);
      }
    }
  }

  /** Step `s` transitively depends on the step of row `x` or on a cancelled one. */
  ghost predicate LeadsTo(db: Db, p: Text, s: Text, x: Text)
  {
    && x in db.rows
    && exists path ::
         && Path(PlanGraphOf(db, p), path) && |path| >= 2 && path[0] == s
         && (IsCancelled(db, p, path[|path| - 1]) || path[|path| - 1] == db.rows[x].assignment.step.stepId)
  }

  ghost predicate AllPendingLeadTo(db: Db, p: Text, x: Text)
  {
    forall id :: id in db.rows && db.rows[id].planId == p && db.rows[id].status == Pending ==>
      LeadsTo(db, p, db.rows[id].assignment.step.stepId, x)
  }

  /** Cancelling row `x` puts behind a cancelled step exactly what led to it or to a cancelled one before. */
  lemma CancellingPutsBehind(db: Db, r: Db, p: Text, x: Text)
    requires p in db.runs && x in db.rows && db.rows[x].planId == p && InFlight(db.rows[x].status)
    requires r == Refresh(SetStatus(db, x, StepCancelled), p)
    ensures AllPendingBehind(r, p) <==> AllPendingLeadTo(db, p, x)
  {
    forall t { CancellingAdds(db, r, p, x, t); }
    assert PlanGraphOf(r, p) == PlanGraphOf(db, p);
    forall id | id in db.rows && db.rows[id].planId == p && db.rows[id].status == Pending
      ensures BehindCancelled(r, p, db.rows[id].assignment.step.stepId) <==>
        LeadsTo(db, p, db.rows[id].assignment.step.stepId, x)
    {
    }
    assert forall id :: id in db.rows && db.rows[id].status == Pending ==> r.rows[id] == db.rows[id];
    assert forall id :: id in r.rows && r.rows[id].status == Pending ==> r.rows[id] == db.rows[id];
  }

  lemma CancellingAdds(db: Db, r: Db, p: Text, x: Text, t: Text)
    requires x in db.rows && db.rows[x].planId == p && InFlight(db.rows[x].status)
    requires r == Refresh(SetStatus(db, x, StepCancelled), p)
    ensures IsCancelled(r, p, t) <==> IsCancelled(db, p, t) || t == db.rows[x].assignment.step.stepId
  {
    assert r.rows[x] == db.rows[x].(status := StepCancelled);
    if IsCancelled(db, p, t) {
      var w :| w in db.rows && db.rows[w].planId == p && db.rows[w].assignment.step.stepId == t
        && db.rows[w].status == StepCancelled;
      assert r.rows[w] == db.rows[w];
    }
  }

  /** One cancelled outcome leaves a run stuck: the only step in flight of an active run is
      reported cancelled, and then the run is stuck exactly when pending steps remain and
      each of them leads to that step or to a cancelled one. */
  lemma CancelledOutcomeSticks(db: Db, p: Text, x: Text, r: Db)
    requires Inv(db) && Causal(db) && p in db.runs && db.runs[p].status == Active
    requires x in db.rows && db.rows[x].planId == p && r == Apply(db, Record(x, Cancelled))
    requires forall id :: id in db.rows && db.rows[id].planId == p ==> (InFlight(db.rows[id].status) <==> id == x)
    ensures Stuck(r, p) <==> Has(db, p, Pending) && AllPendingLeadTo(db, p, x)
  {
    ApplyKeepsInv(db, Record(x, Cancelled));
    CancelledShape(db, p, x, r);
    SameButOne(db, r, p, x);
    CancellingPutsBehind(db, r, p, x);
    if Has(db, p, Pending) {
      StuckExactlyBehindCancelled(r, p);
      ReadyListsAll(r, p);
    }
  }

  ghost predicate AllPendingBehind(db: Db, p: Text) {
    forall id :: id in db.rows && db.rows[id].planId == p && db.rows[id].status == Pending ==>
      BehindCancelled(db, p, db.rows[id].assignment.step.stepId)
  }

  lemma CancelledShape(db: Db, p: Text, x: Text, r: Db)
    requires x in db.rows && db.rows[x].planId == p && InFlight(db.rows[x].status)
    requires r == Apply(db, Record(x, Cancelled))
    ensures r == Refresh(SetStatus(db, x, StepCancelled), p)
  {
  }

  /** The statuses after the one row became cancelled, and what they classify as. */
  lemma SameButOne(db: Db, r: Db, p: Text, x: Text)
    requires Inv(db) && Causal(db) && Inv(r) && p in db.runs && db.runs[p].status == Active
    requires x in db.rows && db.rows[x].planId == p && InFlight(db.rows[x].status)
    requires r == Refresh(SetStatus(db, x, StepCancelled), p)
    requires forall id :: id in db.rows && db.rows[id].planId == p && id != x ==> !InFlight(db.rows[id].status)
    ensures p in r.runs && Causal(r) && Idle(r, p)
    ensures r.runs[p].status == Active <==> Has(db, p, Pending)
  {
    forall id, d | id in r.rows && WasSent(r.rows[id].status) && d in r.rows[id].assignment.step.dependsOn
      ensures DependencySucceeded(r, r.rows[id].planId, d)
    {
      assert DependencySucceeded(db, db.rows[id].planId, d);
      var w :| w in db.rows && db.rows[w].planId == db.rows[id].planId && db.rows[w].assignment.step.stepId == d &&
        db.rows[w].status == StepSucceeded;
      assert r.rows[w] == db.rows[w];
    }
    SettledStatuses(db, r, p, x);
  }

  lemma SettledStatuses(db: Db, r: Db, p: Text, x: Text)
    requires Cache(db) && Cache(r) && p in db.runs && p in r.runs && db.runs[p].status == Active
    requires x in db.rows && db.rows[x].planId == p && InFlight(db.rows[x].status)
    requires r == Refresh(SetStatus(db, x, StepCancelled), p)
    requires forall id :: id in db.rows && db.rows[id].planId == p && id != x ==> !InFlight(db.rows[id].status)
    ensures r.runs[p].status == Active <==> Has(db, p, Pending)
  {
    forall s | Has(r, p, s) ensures s in {Pending, StepSucceeded, StepCancelled} {
      var id :| id in r.rows && r.rows[id].planId == p && r.rows[id].status == s;
      if id != x {
        assert Has(db, p, s) && s in Statuses(db, p);
        assert s in {StepFailed, StepRejected} ==> s in Statuses(db, p) * {StepFailed, StepRejected};
      }
    }
    assert r.rows[x].status == StepCancelled;
    assert Has(r, p, StepCancelled) && StepCancelled in Statuses(r, p);
    assert Has(r, p, Pending) <==> Has(db, p, Pending) by {
      if Has(db, p, Pending) {
        var id :| id in db.rows && db.rows[id].planId == p && db.rows[id].status == Pending;
        assert r.rows[id].status == Pending;
      }
    }
    assert Statuses(r, p) * {StepFailed, StepRejected} == {};
    assert Pending in Statuses(r, p) <==> Has(r, p, Pending);
  }

  // ---------------------------------------------------------------- dispatch and the run's status

  /** Some step of the plan failed, was rejected or is unknown. */
  predicate Blemished(db: Db, p: Text) {
    Has(db, p, StepFailed) || Has(db, p, StepRejected) || Has(db, p, StepUnknown)
  }

  /** The run of a pending step is active exactly when none of its steps failed, was rejected or is unknown. */
  lemma PendingRunIsActiveExactly(db: Db, id: Text)
    requires Cache(db) && id in db.rows && db.rows[id].status == Pending && db.rows[id].planId in db.runs
    ensures db.runs[db.rows[id].planId].status == Active <==> !Blemished(db, db.rows[id].planId)
  {
    var p := db.rows[id].planId;
    assert Has(db, p, Pending);
    assert forall s :: s in Statuses(db, p) <==> Has(db, p, s);
    assert Statuses(db, p) * {StepFailed, StepRejected} != {} <==>
      Has(db, p, StepFailed) || Has(db, p, StepRejected) by {
      assert StepFailed in Statuses(db, p) ==> StepFailed in Statuses(db, p) * {StepFailed, StepRejected};
      assert StepRejected in Statuses(db, p) ==> StepRejected in Statuses(db, p) * {StepFailed, StepRejected};
    }
  }

  lemma ActiveHasNoUnknown(db: Db, p: Text)
    requires Cache(db) && p in db.runs && db.runs[p].status == Active
    ensures !Has(db, p, StepUnknown)
  {
    assert Has(db, p, StepUnknown) ==> StepUnknown in Statuses(db, p);
  }
}
