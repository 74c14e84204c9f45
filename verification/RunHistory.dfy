/** What every history of store transactions keeps: the cached run status is the
    classification of the step statuses, known outcomes are final, finished runs are
    absorbing, and a failure stays visible. */
module RunHistory {
  import opened Ump
  import opened PlanGraph
  import opened RunStore

  datatype Op =
    | Create(goal: Goal, plan: Plan, batch: seq<Assignment>, peers: map<Text, PeerContext>, now: int)
    | Mark(id: Text)
    | Cancel(planId: Text)
    | CancelAck(id: Text, accepted: bool)
    | Ack(id: Text, status: AssignmentStatus)
    | Record(id: Text, status: AssignmentStatus)
    | Reconcile(id: Text, status: AssignmentStatus)
    | Restart

  /** The tables after one transaction; a failing transaction is rolled back. */
  function Apply(db: Db, op: Op): Db {
    match op
    case Create(goal, plan, batch, _, _) =>
      (match CreateRun(db, goal, plan, batch) case Ok(db') => db' case Err(_) => db)
    case Mark(id) => MarkDispatched(db, id).0
    case Cancel(p) => (match RequestCancellation(db, p) case Ok(r) => r.0 case Err(_) => db)
    case CancelAck(id, accepted) => RecordCancellationAck(db, id, accepted).0
    case Ack(id, status) => (match RecordAck(db, id, status) case Ok(r) => r.0 case Err(_) => db)
    case Record(id, status) => (match RecordOutcome(db, id, status) case Ok(r) => r.0 case Err(_) => db)
    case Reconcile(id, status) => (match ReconcileOutcome(db, id, status) case Ok(r) => r.0 case Err(_) => db)
    case Restart => Recover(db)
  }

  /** One fresh assignment per plan step, in plan order. */
  predicate Prepared(plan: Plan, batch: seq<Assignment>) {
    |batch| == |plan.steps| && forall i :: 0 <= i < |batch| ==>
      batch[i].step == plan.steps[i] && batch[i].planId == plan.planId
  }

  /** The coordinator creates a run only for a validated plan. */
  ghost predicate Legal(op: Op) {
    op.Create? ==> PlanValid(op.goal, op.plan, op.peers, op.now) && Prepared(op.plan, op.batch)
  }

  // ---------------------------------------------------------------- table invariant

  ghost predicate PlanOk(plan: Plan) {
    |plan.steps| > 0 && ValidIds(plan.steps) && Closed(GraphOf(plan.steps)) && Ordered(GraphOf(plan.steps))
  }

  predicate StepHasRow(db: Db, p: Text, step: PlanStep) {
    exists id :: id in db.rows && db.rows[id].planId == p && db.rows[id].assignment.step == step
  }

  ghost predicate RowsIndexed(db: Db) {
    && (forall id :: id in db.rows <==> id in db.order)
    && (forall id :: id in db.rows ==>
      db.rows[id].assignment.id == id && db.rows[id].assignment.planId == db.rows[id].planId &&
        db.rows[id].planId in db.runs)
  }

  ghost predicate StepsUnique(db: Db) {
    forall i, j :: i in db.rows && j in db.rows && i != j && db.rows[i].planId == db.rows[j].planId ==>
      db.rows[i].assignment.step.stepId != db.rows[j].assignment.step.stepId
  }

  ghost predicate PlansComplete(db: Db) {
    && (forall id :: id in db.rows ==>
      db.rows[id].planId in db.runs && db.rows[id].assignment.step in db.runs[db.rows[id].planId].plan.steps)
    && (forall p :: p in db.runs ==> db.runs[p].plan.planId == p && PlanOk(db.runs[p].plan))
    && (forall p, step :: p in db.runs && step in db.runs[p].plan.steps ==> StepHasRow(db, p, step))
  }

  ghost predicate Tables(db: Db) {
    RowsIndexed(db) && StepsUnique(db) && PlansComplete(db)
  }

  predicate Cache(db: Db) {
    forall p :: p in db.runs ==> db.runs[p].status == Classify(Statuses(db, p))
  }

  ghost predicate Inv(db: Db) {
    Tables(db) && Cache(db)
  }

  /** The two tables hold the same plans and assignments; only statuses may differ. */
  predicate SameWork(db: Db, db': Db) {
    && db'.order == db.order && db'.rows.Keys == db.rows.Keys && db'.runs.Keys == db.runs.Keys
    && (forall id :: id in db.rows ==> db'.rows[id] == db.rows[id].(status := db'.rows[id].status))
    && (forall p :: p in db.runs ==> db'.runs[p] == db.runs[p].(status := db'.runs[p].status))
  }

  lemma SameWorkKeepsTables(db: Db, db': Db)
    requires Tables(db) && SameWork(db, db')
    ensures Tables(db')
  {
    forall p, step | p in db'.runs && step in db'.runs[p].plan.steps ensures StepHasRow(db', p, step) {
      assert StepHasRow(db, p, step);
    }
  }

  // ---------------------------------------------------------------- the step lifecycle

  /** The status changes any transaction can make; every final status is a dead end. */
  predicate Follows(a: StepStatus, b: StepStatus) {
    match a
    case Pending => b in {Dispatched, StepCancelled}
    case Dispatched => b in {StepAccepted, CancellationRequested} || Terminal(b)
    case StepAccepted => b == CancellationRequested || Terminal(b)
    case CancellationRequested => Terminal(b)
    case StepUnknown => b == CancellationRequested || Final(b)
    case _ => false
  }

  /** A reported step either stays as it is or moves one allowed step, and its run is refreshed. */
  ghost predicate Reported(db: Db, r: Db, id: Text) {
    id in db.rows && (
      r == Refresh(db, db.rows[id].planId) ||
      exists s :: (s == db.rows[id].status || Follows(db.rows[id].status, s)) &&
        r == Refresh(SetStatus(db, id, s), db.rows[id].planId))
  }

  lemma ReportShape(db: Db, op: Op)
    requires op.CancelAck? || op.Ack? || op.Record? || op.Reconcile?
    ensures Apply(db, op) == db || Reported(db, Apply(db, op), op.id)
  {
    if op.id in db.rows && Apply(db, op) != db {
      var p := db.rows[op.id].planId;
      var target :=
        if op.CancelAck? then StepUnknown
        else if op.status == Accepted then StepAccepted
        else TerminalStep(op.status);
      assert Apply(db, op) == Refresh(db, p) || Apply(db, op) == Refresh(SetStatus(db, op.id, target), p);
    }
  }

  /** All rows but this one are as they were. */
  predicate OthersUnmoved(db: Db, r: Db, id: Text) {
    r.rows.Keys == db.rows.Keys && forall x :: x in db.rows && x != id ==> r.rows[x] == db.rows[x]
  }

  /** An outcome gives a step in flight its own status, each of the five a different one, and no
      other step is moved. */
  lemma OutcomesAreRecordedAsTheyAre(db: Db, id: Text, status: AssignmentStatus)
    requires id in db.rows
    ensures var r, before := Apply(db, Record(id, status)), db.rows[id].status;
      && OthersUnmoved(db, r, id)
      && (before !in {Dispatched, StepAccepted, CancellationRequested} || status == Accepted ==>
           r.rows[id].status == before)
      && (before in {Dispatched, StepAccepted, CancellationRequested} ==>
           && (r.rows[id].status == StepSucceeded <==> status == Succeeded)
           && (r.rows[id].status == StepFailed <==> status == Failed)
           && (r.rows[id].status == StepRejected <==> status == Rejected)
           && (r.rows[id].status == StepCancelled <==> status == Cancelled)
           && (r.rows[id].status == StepUnknown <==> status == Unknown))
  {
  }

  /** Reconciliation gives an unknown step the known outcome it is told, and moves nothing else. */
  lemma UnknownIsReconciledAsTold(db: Db, id: Text, status: AssignmentStatus)
    requires id in db.rows
    ensures var r, before := Apply(db, Reconcile(id, status)), db.rows[id].status;
      && OthersUnmoved(db, r, id)
      && (before != StepUnknown || status in {Accepted, Unknown} ==> r.rows[id].status == before)
      && (before == StepUnknown ==>
           && (r.rows[id].status == StepSucceeded <==> status == Succeeded)
           && (r.rows[id].status == StepFailed <==> status == Failed)
           && (r.rows[id].status == StepRejected <==> status == Rejected)
           && (r.rows[id].status == StepCancelled <==> status == Cancelled))
  {
  }

  /** An acknowledgement moves only a dispatched or accepted step, and only to accepted, rejected or unknown. */
  lemma AcknowledgementsAreRecordedAsTheyAre(db: Db, id: Text, status: AssignmentStatus)
    requires id in db.rows
    ensures var r, before := Apply(db, Ack(id, status)), db.rows[id].status;
      && OthersUnmoved(db, r, id)
      && (before !in {Dispatched, StepAccepted} || status in {Succeeded, Failed, Cancelled} ==>
           r.rows[id].status == before)
      && (before in {Dispatched, StepAccepted} && status == Accepted ==> r.rows[id].status == StepAccepted)
      && (before in {Dispatched, StepAccepted} && status == Rejected ==> r.rows[id].status == StepRejected)
      && (before in {Dispatched, StepAccepted} && status == Unknown ==> r.rows[id].status == StepUnknown)
    ensures RecordAck(db, id, status).Err? <==>
      status in {Accepted, Rejected, Unknown} && db.rows[id].status in {Pending, CancellationRequested}
  {
  }

  /** A refused cancellation makes the step it was requested for unknown; nothing else moves. */
  lemma RefusedCancellationIsUnknown(db: Db, id: Text, accepted: bool)
    requires id in db.rows
    ensures var r, before := Apply(db, CancelAck(id, accepted)), db.rows[id].status;
      && OthersUnmoved(db, r, id)
      && r.rows[id].status == if before == CancellationRequested && !accepted then StepUnknown else before
  {
  }

  predicate Lifecycle(db: Db, db': Db) {
    SameWork(db, db') && forall id :: id in db.rows ==>
      db'.rows[id].status == db.rows[id].status || Follows(db.rows[id].status, db'.rows[id].status)
  }

  lemma CancelLifecycle(db: Db, p: Text)
    ensures Lifecycle(db, CancelRows(db, p)) && Lifecycle(db, Refresh(CancelRows(db, p), p))
  {
  }

  lemma ReportLifecycle(db: Db, r: Db, id: Text)
    requires Reported(db, r, id)
    ensures Lifecycle(db, r)
  {
  }

  /** No transaction but a new run adds or alters work, and each step only moves along its lifecycle. */
  lemma Transactions(db: Db, op: Op)
    requires !op.Create?
    ensures Lifecycle(db, Apply(db, op))
  {
    if op.Cancel? {
      CancelLifecycle(db, op.planId);
    } else if !op.Mark? && !op.Restart? {
      ReportShape(db, op);
      if Apply(db, op) != db {
        ReportLifecycle(db, Apply(db, op), op.id);
      }
    }
  }

  // ---------------------------------------------------------------- the status cache

  lemma SameStatuses(db: Db, db': Db, p: Text)
    requires forall id :: (id in db.rows && db.rows[id].planId == p) <==> (id in db'.rows && db'.rows[id].planId == p)
    requires forall id :: id in db.rows && db.rows[id].planId == p ==> db'.rows[id].status == db.rows[id].status
    ensures Statuses(db', p) == Statuses(db, p)
  {
  }

  /** Refreshing the one plan whose rows changed restores the cache. */
  lemma RefreshRestoresCache(db: Db, db': Db, p: Text)
    requires Cache(db) && SameWork(db, db') && db'.runs == db.runs && p in db.runs
    requires forall id :: id in db.rows && db.rows[id].planId != p ==> db'.rows[id] == db.rows[id]
    ensures Cache(Refresh(db', p))
  {
    var r := Refresh(db', p);
    forall q | q in r.runs ensures r.runs[q].status == Classify(Statuses(r, q)) {
      SameStatuses(db', r, q);
      if q != p {
        SameStatuses(db, db', q);
      }
    }
  }

  /** Dispatching never changes what the statuses classify as, so no refresh is needed. */
  lemma DispatchKeepsClass(db: Db, id: Text, p: Text)
    requires id in db.rows && db.rows[id].status == Pending
    ensures Classify(Statuses(SetStatus(db, id, Dispatched), p)) == Classify(Statuses(db, p))
  {
    var db' := SetStatus(db, id, Dispatched);
    if db.rows[id].planId != p {
      SameStatuses(db, db', p);
    } else {
      forall s | s != Pending && s != Dispatched ensures Has(db, p, s) <==> Has(db', p, s) {
        if Has(db, p, s) {
          var w :| w in db.rows && db.rows[w].planId == p && db.rows[w].status == s;
          assert db'.rows[w] == db.rows[w];
        }
      }
      assert db.rows[id].status == Pending && db'.rows[id].planId == p && db'.rows[id].status == Dispatched;
      assert Has(db, p, Pending) && Has(db', p, Dispatched);
      assert Pending in Statuses(db, p) && Dispatched in Statuses(db', p);
      assert Statuses(db, p) * {StepFailed, StepRejected} == Statuses(db', p) * {StepFailed, StepRejected};
    }
  }

  lemma RecoveryKeepsCache(db: Db)
    requires Cache(db)
    ensures Cache(Recover(db))
  {
    var r := Recover(db);
    forall p | p in r.runs ensures r.runs[p].status == Classify(Statuses(r, p)) {
      if Interrupted(db, p) {
        var id :| id in db.rows && db.rows[id].planId == p && InFlight(db.rows[id].status);
        assert r.rows[id].status == StepUnknown;
        assert Has(r, p, StepUnknown);
      } else {
        SameStatuses(db, r, p);
      }
    }
  }

  /** The new rows are exactly the batch, all pending; the old rows are untouched. */
  ghost predicate RunAdded(db: Db, r: Db, goal: Goal, plan: Plan, batch: seq<Assignment>) {
    var p := plan.planId;
    && p !in db.runs && r.runs == db.runs[p := Run(goal, plan, Active)]
    && (forall id :: id in r.order <==> id in db.order || exists i :: 0 <= i < |batch| && id == batch[i].id)
    && (forall id :: id in db.rows ==> id in r.rows && r.rows[id] == db.rows[id])
    && (forall i :: 0 <= i < |batch| ==>
      batch[i].id !in db.rows && batch[i].id in r.rows && r.rows[batch[i].id] == StepRow(p, batch[i], Pending))
    && DistinctSteps(batch)
    && (forall id :: id in r.rows && id !in db.rows ==> exists i :: 0 <= i < |batch| && id == batch[i].id)
  }

  lemma CreateShape(db: Db, goal: Goal, plan: Plan, batch: seq<Assignment>)
    requires plan.planId !in db.runs && CreateRun(db, goal, plan, batch).Ok?
    ensures RunAdded(db, CreateRun(db, goal, plan, batch).value, goal, plan, batch)
  {
    InsertShape(db.rows, plan.planId, batch, Insert(db.rows, plan.planId, batch).value);
    forall i | 0 <= i < |batch| ensures batch[i].id in Ids(batch) {
      assert Ids(batch)[i] == batch[i].id;
    }
  }

  lemma CreateKeepsCache(db: Db, r: Db, goal: Goal, plan: Plan, batch: seq<Assignment>)
    requires RowsIndexed(db) && Cache(db) && RunAdded(db, r, goal, plan, batch) && batch != []
    ensures Cache(r)
  {
    var p := plan.planId;
    forall q | q in r.runs ensures r.runs[q].status == Classify(Statuses(r, q)) {
      if q != p {
        SameStatuses(db, r, q);
      } else {
        assert r.rows[batch[0].id].status == Pending;
        assert Has(r, p, Pending) && Pending in Statuses(r, p);
        assert forall s :: Has(r, p, s) ==> s == Pending;
      }
    }
  }

  lemma CreateKeepsUnique(db: Db, r: Db, goal: Goal, plan: Plan, batch: seq<Assignment>)
    requires RowsIndexed(db) && StepsUnique(db) && RunAdded(db, r, goal, plan, batch)
    ensures StepsUnique(r)
  {
  }

  lemma CreatedStepHasRow(db: Db, r: Db, goal: Goal, plan: Plan, batch: seq<Assignment>, step: PlanStep)
    requires RunAdded(db, r, goal, plan, batch) && Prepared(plan, batch) && step in plan.steps
    ensures StepHasRow(r, plan.planId, step)
  {
  }

  lemma CreateKeepsSteps(db: Db, r: Db, goal: Goal, plan: Plan, batch: seq<Assignment>)
    requires PlansComplete(db) && RunAdded(db, r, goal, plan, batch) && Prepared(plan, batch) && PlanOk(plan)
    ensures forall id :: id in r.rows ==>
      r.rows[id].planId in r.runs && r.rows[id].assignment.step in r.runs[r.rows[id].planId].plan.steps
    ensures forall p :: p in r.runs ==> r.runs[p].plan.planId == p && PlanOk(r.runs[p].plan)
  {
  }

  lemma OldStepHasRow(db: Db, r: Db, p: Text, step: PlanStep)
    requires StepHasRow(db, p, step) && forall id :: id in db.rows ==> id in r.rows && r.rows[id] == db.rows[id]
    ensures StepHasRow(r, p, step)
  {
  }

  lemma CreateKeepsPlans(db: Db, r: Db, goal: Goal, plan: Plan, batch: seq<Assignment>)
    requires PlansComplete(db) && RunAdded(db, r, goal, plan, batch) && Prepared(plan, batch) && PlanOk(plan)
    ensures PlansComplete(r)
  {
    forall q, step | q in r.runs && step in r.runs[q].plan.steps ensures StepHasRow(r, q, step) {
      if q == plan.planId {
        CreatedStepHasRow(db, r, goal, plan, batch, step);
      } else {
        OldStepHasRow(db, r, q, step);
      }
    }
    CreateKeepsSteps(db, r, goal, plan, batch);
  }

  lemma CreateKeepsInv(db: Db, op: Op)
    requires Inv(db) && Legal(op) && op.Create?
    ensures Inv(Apply(db, op))
  {
    var r := Apply(db, op);
    if r != db {
      CreateShape(db, op.goal, op.plan, op.batch);
      AdmissibleIsClosed(op.goal, op.plan.steps, op.peers, op.now);
      CreateKeepsUnique(db, r, op.goal, op.plan, op.batch);
      CreateKeepsPlans(db, r, op.goal, op.plan, op.batch);
      CreateKeepsCache(db, r, op.goal, op.plan, op.batch);
    }
  }

  lemma ReportKeepsCache(db: Db, r: Db, id: Text)
    requires Cache(db) && RowsIndexed(db) && Reported(db, r, id)
    ensures Cache(r)
  {
    var p := db.rows[id].planId;
    if r == Refresh(db, p) {
      RefreshRestoresCache(db, db, p);
    } else {
      var s :| r == Refresh(SetStatus(db, id, s), p);
      RefreshRestoresCache(db, SetStatus(db, id, s), p);
    }
  }

  lemma CancelKeepsCache(db: Db, p: Text)
    requires Cache(db)
    ensures Cache(Apply(db, Cancel(p)))
  {
    if p in db.runs {
      CancelLifecycle(db, p);
      RefreshRestoresCache(db, CancelRows(db, p), p);
    }
  }

  lemma MarkKeepsCache(db: Db, id: Text)
    requires Cache(db)
    ensures Cache(Apply(db, Mark(id)))
  {
    if id in db.rows && db.rows[id].status == Pending {
      forall p { DispatchKeepsClass(db, id, p); }
    }
  }

  lemma ApplyKeepsInv(db: Db, op: Op)
    requires Inv(db) && Legal(op)
    ensures Inv(Apply(db, op))
  {
    if op.Create? {
      CreateKeepsInv(db, op);
    } else {
      Transactions(db, op);
      SameWorkKeepsTables(db, Apply(db, op));
      if op.Mark? {
        MarkKeepsCache(db, op.id);
      } else if op.Cancel? {
        CancelKeepsCache(db, op.planId);
      } else if op.Restart? {
        RecoveryKeepsCache(db);
      } else {
        ReportShape(db, op);
        if Apply(db, op) != db {
          ReportKeepsCache(db, Apply(db, op), op.id);
        }
      }
    }
  }

  // ---------------------------------------------------------------- every history

  function RunAll(db: Db, ops: seq<Op>): Db {
    if ops == [] then db else Apply(RunAll(db, ops[..|ops| - 1]), ops[|ops| - 1])
  }

  ghost predicate AllLegal(ops: seq<Op>) {
    forall i :: 0 <= i < |ops| ==> Legal(ops[i])
  }

  lemma RowsPersist(db: Db, op: Op, id: Text)
    requires id in db.rows
    ensures id in Apply(db, op).rows && (
      var before, after := db.rows[id], Apply(db, op).rows[id];
      after == before.(status := after.status) &&
        (after.status == before.status || Follows(before.status, after.status)))
  {
    if op.Create? {
      if op.plan.planId !in db.runs && CreateRun(db, op.goal, op.plan, op.batch).Ok? {
        CreateShape(db, op.goal, op.plan, op.batch);
      }
    } else {
      Transactions(db, op);
    }
  }

  /** A step that succeeded, failed, was rejected or was cancelled never changes again. */
  lemma {:induction false} KnownOutcomesAreFinal(db: Db, ops: seq<Op>, id: Text)
    requires id in db.rows && Final(db.rows[id].status)
    ensures id in RunAll(db, ops).rows && RunAll(db, ops).rows[id] == db.rows[id]
  {
    if ops != [] {
      KnownOutcomesAreFinal(db, ops[..|ops| - 1], id);
      RowsPersist(RunAll(db, ops[..|ops| - 1]), ops[|ops| - 1], id);
    }
  }

  predicate AllFinal(db: Db, p: Text) {
    forall id :: id in db.rows && db.rows[id].planId == p ==> Final(db.rows[id].status)
  }

  /** A new run never adds rows to an existing plan. */
  lemma RowsOfPlan(db: Db, op: Op, p: Text, id: Text)
    requires p in db.runs && id in Apply(db, op).rows && Apply(db, op).rows[id].planId == p
    ensures id in db.rows && db.rows[id].planId == p
  {
    if op.Create? {
      if op.plan.planId !in db.runs && CreateRun(db, op.goal, op.plan, op.batch).Ok? {
        CreateShape(db, op.goal, op.plan, op.batch);
      }
    } else {
      Transactions(db, op);
    }
  }

  lemma FinalPlanUnmoved(db: Db, op: Op, p: Text)
    requires Cache(db) && Cache(Apply(db, op)) && p in db.runs && AllFinal(db, p)
    ensures p in Apply(db, op).runs && Apply(db, op).runs[p].status == db.runs[p].status && AllFinal(Apply(db, op), p)
  {
    var r := Apply(db, op);
    forall id | id in db.rows && db.rows[id].planId == p ensures id in r.rows && r.rows[id] == db.rows[id] {
      RowsPersist(db, op, id);
    }
    forall id | id in r.rows && r.rows[id].planId == p ensures id in db.rows && db.rows[id].planId == p {
      RowsOfPlan(db, op, p, id);
    }
    SameStatuses(db, r, p);
    RunsPersist(db, op, p);
  }

  lemma RunsPersist(db: Db, op: Op, p: Text)
    requires p in db.runs
    ensures p in Apply(db, op).runs && Apply(db, op).runs[p] == db.runs[p].(status := Apply(db, op).runs[p].status)
  {
  }

  lemma {:induction false} FinalPlanStays(db: Db, ops: seq<Op>, p: Text)
    requires Inv(db) && AllLegal(ops) && p in db.runs && AllFinal(db, p)
    ensures Inv(RunAll(db, ops)) && p in RunAll(db, ops).runs && RunAll(db, ops).runs[p].status == db.runs[p].status
    ensures AllFinal(RunAll(db, ops), p)
  {
    if ops != [] {
      var before := RunAll(db, ops[..|ops| - 1]);
      FinalPlanStays(db, ops[..|ops| - 1], p);
      ApplyKeepsInv(before, ops[|ops| - 1]);
      FinalPlanUnmoved(before, ops[|ops| - 1], p);
    }
  }

  lemma {:induction false} HistoryKeepsInv(db: Db, ops: seq<Op>)
    requires Inv(db) && AllLegal(ops)
    ensures Inv(RunAll(db, ops))
  {
    if ops != [] {
      HistoryKeepsInv(db, ops[..|ops| - 1]);
      ApplyKeepsInv(RunAll(db, ops[..|ops| - 1]), ops[|ops| - 1]);
    }
  }

  /** A state some history of transactions, restarts included, can reach. */
  ghost predicate ReachableDb(db: Db) {
    exists ops :: AllLegal(ops) && RunAll(EMPTY, ops) == db
  }

  lemma DbInv(db: Db)
    ensures ReachableDb(db) ==> Inv(db)
  {
    if ReachableDb(db) {
      var ops :| AllLegal(ops) && RunAll(EMPTY, ops) == db;
      HistoryKeepsInv(EMPTY, ops);
    }
  }

  /** In every reachable state the stored run status says exactly this about the plan's steps. */
  lemma CacheIsAlwaysCorrect(db: Db, p: Text)
    requires ReachableDb(db) && p in db.runs
    ensures db.runs[p].status == Classify(Statuses(db, p))
    ensures db.runs[p].status == RunUnknown <==> Has(db, p, StepUnknown)
    ensures db.runs[p].status == RunFailed <==>
      !Has(db, p, StepUnknown) && (Has(db, p, StepFailed) || Has(db, p, StepRejected))
    ensures db.runs[p].status == RunSucceeded <==> Only(db, p, {StepSucceeded})
    ensures db.runs[p].status == RunCancelled <==>
      Only(db, p, {StepSucceeded, StepCancelled}) && Has(db, p, StepCancelled)
    ensures db.runs[p].status == Active <==>
      !Has(db, p, StepUnknown) && !Has(db, p, StepFailed) && !Has(db, p, StepRejected) &&
        !Only(db, p, {StepSucceeded, StepCancelled})
  {
    DbInv(db);
    ClassMeans(db, p);
    var id := RowOfRun(db, p);
    StatusesOfRow(db, p, id);
  }

  lemma RowOfRun(db: Db, p: Text) returns (id: Text)
    requires PlansComplete(db) && p in db.runs
    ensures id in db.rows && db.rows[id].planId == p
  {
    var step := db.runs[p].plan.steps[0];
    assert StepHasRow(db, p, step);
    id :| id in db.rows && db.rows[id].planId == p && db.rows[id].assignment.step == step;
  }

  /** What the sets of statuses have in common once the plan has a row. */
  lemma StatusesOfRow(db: Db, p: Text, id: Text)
    requires id in db.rows && db.rows[id].planId == p
    ensures Only(db, p, {StepSucceeded}) ==> Has(db, p, StepSucceeded)
    ensures Only(db, p, {StepSucceeded, StepCancelled}) && !Has(db, p, StepCancelled) ==> Only(db, p, {StepSucceeded})
    ensures Only(db, p, {StepSucceeded}) ==> !Has(db, p, StepCancelled)
  {
    assert Has(db, p, db.rows[id].status);
    forall x | x in db.rows && db.rows[x].planId == p && db.rows[x].status == StepCancelled
      ensures Has(db, p, StepCancelled)
    {
    }
  }

  /** Succeeded and cancelled runs are absorbing, whatever is done to the store afterwards. */
  lemma FinishedRunsAbsorb(db: Db, ops: seq<Op>, p: Text)
    requires ReachableDb(db) && AllLegal(ops) && p in db.runs && db.runs[p].status in {RunSucceeded, RunCancelled}
    ensures p in RunAll(db, ops).runs && RunAll(db, ops).runs[p].status == db.runs[p].status
  {
    DbInv(db);
    forall id | id in db.rows && db.rows[id].planId == p ensures Final(db.rows[id].status) {
      assert Has(db, p, db.rows[id].status);
      assert db.rows[id].status in Statuses(db, p);
    }
    FinalPlanStays(db, ops, p);
  }

  /** Once a step has failed or been rejected, its run is failed or unknown for ever. */
  lemma FailureSticks(db: Db, ops: seq<Op>, id: Text)
    requires ReachableDb(db) && AllLegal(ops) && id in db.rows && db.rows[id].status in {StepFailed, StepRejected}
    ensures var r, p := RunAll(db, ops), db.rows[id].planId;
      p in r.runs && r.runs[p].status in {RunFailed, RunUnknown}
  {
    var r, p := RunAll(db, ops), db.rows[id].planId;
    DbInv(db);
    HistoryKeepsInv(db, ops);
    KnownOutcomesAreFinal(db, ops, id);
    assert Has(r, p, r.rows[id].status);
    assert r.rows[id].status in Statuses(r, p) * {StepFailed, StepRejected};
  }
}
