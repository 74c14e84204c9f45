/** The coordinator's durable run store: every transaction of CoordinatorStore as a
    function of the stored tables. */
module RunStore {
  import opened Ump

  datatype StepStatus =
    | Pending | Dispatched | StepAccepted | CancellationRequested
    | StepSucceeded | StepFailed | StepRejected | StepCancelled | StepUnknown

  datatype RunStatus = Active | RunSucceeded | RunFailed | RunCancelled | RunUnknown

  datatype StoreError =
    | UnknownPlan | PlanConflict | IntegrityError | NotTerminal | Immutable | InvalidTransition | NotUnknown

  datatype Run = Run(goal: Goal, plan: Plan, status: RunStatus)

  datatype StepRow = StepRow(planId: Text, assignment: Assignment, status: StepStatus)

  /** The tables `runs` and `run_steps`; `order` is the rowid order of the latter. */
  datatype Db = Db(runs: map<Text, Run>, rows: map<Text, StepRow>, order: seq<Text>)

  const EMPTY := Db(map[], map[], [])

  predicate Has(db: Db, p: Text, s: StepStatus) {
    exists id :: id in db.rows && db.rows[id].planId == p && db.rows[id].status == s
  }

  function Statuses(db: Db, p: Text): set<StepStatus> {
    set s: StepStatus | Has(db, p, s)
  }

  predicate Terminal(s: StepStatus) {
    s in {StepSucceeded, StepFailed, StepRejected, StepCancelled, StepUnknown}
  }

  /** A status that no transaction may replace; Unknown is terminal but can be reconciled. */
  predicate Final(s: StepStatus) {
    Terminal(s) && s != StepUnknown
  }

  predicate InFlight(s: StepStatus) {
    s in {Dispatched, StepAccepted, CancellationRequested}
  }

  function Classify(statuses: set<StepStatus>): RunStatus {
    if StepUnknown in statuses then RunUnknown
    else if statuses * {StepFailed, StepRejected} != {} then RunFailed
    else if statuses == {StepSucceeded} then RunSucceeded
    else if statuses <= {StepSucceeded, StepCancelled} then RunCancelled
    else Active
  }

  /** Every row of the plan has one of these statuses. */
  predicate Only(db: Db, p: Text, allowed: set<StepStatus>) {
    forall id :: id in db.rows && db.rows[id].planId == p ==> db.rows[id].status in allowed
  }

  /** What the classification says about the rows; a plan without rows counts as cancelled. */
  lemma ClassMeans(db: Db, p: Text)
    ensures var c := Classify(Statuses(db, p));
      && (c == RunUnknown <==> Has(db, p, StepUnknown))
      && (c == RunFailed <==> !Has(db, p, StepUnknown) && (Has(db, p, StepFailed) || Has(db, p, StepRejected)))
      && (c == RunSucceeded <==> Has(db, p, StepSucceeded) && Only(db, p, {StepSucceeded}))
      && (c == RunCancelled <==>
           Only(db, p, {StepSucceeded, StepCancelled}) && (Has(db, p, StepSucceeded) ==> Has(db, p, StepCancelled)))
      && (c == Active <==>
           !Has(db, p, StepUnknown) && !Has(db, p, StepFailed) && !Has(db, p, StepRejected) &&
             (Has(db, p, Pending) || Has(db, p, Dispatched) || Has(db, p, StepAccepted) ||
               Has(db, p, CancellationRequested)))
  {
    var statuses := Statuses(db, p);
    assert forall s :: s in statuses <==> Has(db, p, s);
    assert forall s :: s in statuses * {StepFailed, StepRejected} <==> s in statuses && s in {StepFailed, StepRejected};
    assert forall allowed :: Only(db, p, allowed) <==> statuses <= allowed by {
      forall allowed | statuses <= allowed ensures Only(db, p, allowed) {
        forall id | id in db.rows && db.rows[id].planId == p ensures db.rows[id].status in allowed {
          assert Has(db, p, db.rows[id].status);
        }
      }
    }
  }

  function Refresh(db: Db, p: Text): Db {
    if p in db.runs then
      db.(runs := db.runs[p := db.runs[p].(status := Classify(Statuses(db, p)))])
    else db
  }

  function SetStatus(db: Db, id: Text, s: StepStatus): Db
    requires id in db.rows
  {
    db.(rows := db.rows[id := db.rows[id].(status := s)])
  }

  // ---------------------------------------------------------------- transactions

  /** Inserting the row breaks the primary key or UNIQUE(plan_id, step_id). */
  predicate Violates(rows: map<Text, StepRow>, p: Text, a: Assignment) {
    a.id in rows || exists id :: id in rows && rows[id].planId == p && rows[id].assignment.step.stepId == a.step.stepId
  }

  /** The rows after inserting the batch in order, or nothing if one insertion is refused. */
  function Insert(rows: map<Text, StepRow>, p: Text, batch: seq<Assignment>): Option<map<Text, StepRow>> {
    if batch == [] then Some(rows)
    else
      var last := batch[|batch| - 1];
      match Insert(rows, p, batch[..|batch| - 1])
      case None => None
      case Some(r) => if Violates(r, p, last) then None else Some(r[last.id := StepRow(p, last, Pending)])
  }

  predicate DistinctSteps(batch: seq<Assignment>) {
    forall i, j :: 0 <= i < j < |batch| ==> batch[i].id != batch[j].id && batch[i].step.stepId != batch[j].step.stepId
  }

  /** A refused insertion rolls everything back, so a successful batch is new and free of repetitions. */
  lemma {:induction false} InsertShape(rows: map<Text, StepRow>, p: Text, batch: seq<Assignment>, r: map<Text, StepRow>)
    requires Insert(rows, p, batch) == Some(r)
    ensures forall id :: id in rows ==> id in r && r[id] == rows[id]
    ensures forall i :: 0 <= i < |batch| ==>
      batch[i].id !in rows && batch[i].id in r && r[batch[i].id] == StepRow(p, batch[i], Pending)
    ensures DistinctSteps(batch)
    ensures forall id :: id in r && id !in rows ==> exists i :: 0 <= i < |batch| && id == batch[i].id
  {
    if batch != [] {
      var init, last := batch[..|batch| - 1], batch[|batch| - 1];
      var before := Insert(rows, p, init).value;
      InsertShape(rows, p, init, before);
      forall i | 0 <= i < |init|
        ensures batch[i].id != last.id && batch[i].step.stepId != last.step.stepId
        ensures r[batch[i].id] == StepRow(p, batch[i], Pending)
      {
        assert init[i] == batch[i] && batch[i].id in before;
      }
      assert r == before[last.id := StepRow(p, last, Pending)];
    }
  }

  /** None of the batch is stored already or has its step stored under the plan. */
  predicate AllNew(rows: map<Text, StepRow>, p: Text, batch: seq<Assignment>) {
    && (forall i :: 0 <= i < |batch| ==> batch[i].id !in rows)
    && (forall i, id :: 0 <= i < |batch| && id in rows && rows[id].planId == p ==>
      rows[id].assignment.step.stepId != batch[i].step.stepId)
  }

  /** A batch can be inserted exactly when nothing in it repeats and nothing in it is stored. */
  lemma {:induction false} InsertsExactly(rows: map<Text, StepRow>, p: Text, batch: seq<Assignment>)
    ensures Insert(rows, p, batch).Some? <==> DistinctSteps(batch) && AllNew(rows, p, batch)
  {
    if batch != [] {
      var init, last := batch[..|batch| - 1], batch[|batch| - 1];
      InsertsExactly(rows, p, init);
      assert DistinctSteps(batch) && AllNew(rows, p, batch) ==> DistinctSteps(init) && AllNew(rows, p, init);
      if Insert(rows, p, init).Some? {
        InsertShape(rows, p, init, Insert(rows, p, init).value);
        LastInserts(rows, p, batch, Insert(rows, p, init).value);
      }
    }
  }

  lemma LastInserts(rows: map<Text, StepRow>, p: Text, batch: seq<Assignment>, r: map<Text, StepRow>)
    requires batch != [] && Insert(rows, p, batch[..|batch| - 1]) == Some(r)
    requires DistinctSteps(batch[..|batch| - 1]) && AllNew(rows, p, batch[..|batch| - 1])
    requires forall id :: id in rows ==> id in r && r[id] == rows[id]
    requires forall i :: 0 <= i < |batch| - 1 ==>
      batch[i].id in r && r[batch[i].id] == StepRow(p, batch[i], Pending)
    requires forall id :: id in r && id !in rows ==> exists i :: 0 <= i < |batch| - 1 && id == batch[i].id
    ensures Violates(r, p, batch[|batch| - 1]) <==> !(DistinctSteps(batch) && AllNew(rows, p, batch))
  {
  }

  function Ids(batch: seq<Assignment>): seq<Text> {
    seq(|batch|, i requires 0 <= i < |batch| => batch[i].id)
  }

  function CreateRun(db: Db, goal: Goal, plan: Plan, batch: seq<Assignment>): Result<Db, StoreError> {
    var p := plan.planId;
    if p in db.runs then
      if db.runs[p].goal == goal && db.runs[p].plan == plan then Ok(db) else Err(PlanConflict)
    else
      match Insert(db.rows, p, batch)
      case None => Err(IntegrityError)
      case Some(rows) => Ok(Db(db.runs[p := Run(goal, plan, Active)], rows, db.order + Ids(batch)))
  }

  predicate DependencySucceeded(db: Db, p: Text, stepId: Text) {
    exists id :: id in db.rows && db.rows[id].planId == p && db.rows[id].assignment.step.stepId == stepId &&
      db.rows[id].status == StepSucceeded
  }

  predicate IsReady(db: Db, p: Text, id: Text) {
    && id in db.rows && db.rows[id].planId == p && db.rows[id].status == Pending
    && forall d :: d in db.rows[id].assignment.step.dependsOn ==> DependencySucceeded(db, p, d)
  }

  /** The assignments of `ids` in `chosen`, in that order. */
  function Select(db: Db, ids: seq<Text>, chosen: set<Text>): (r: seq<Assignment>)
    ensures forall a :: a in r ==>
      exists id :: id in ids && id in db.rows && id in chosen && a == db.rows[id].assignment
    ensures forall id :: id in ids && id in db.rows && id in chosen ==> db.rows[id].assignment in r
  {
    if ids == [] then []
    else
      var id := ids[|ids| - 1];
      Select(db, ids[..|ids| - 1], chosen) + if id in db.rows && id in chosen then [db.rows[id].assignment] else []
  }

  /** `at` names positions of the rowid order, increasing, and `list` has the assignments stored there. */
  predicate ListsInOrder(db: Db, list: seq<Assignment>, at: seq<nat>) {
    && |at| == |list|
    && (forall k, l :: 0 <= k < l < |at| ==> at[k] < at[l])
    && (forall k :: 0 <= k < |at| ==>
      at[k] < |db.order| && db.order[at[k]] in db.rows && list[k] == db.rows[db.order[at[k]]].assignment)
  }

  /** The positions, among the first `n`, of the rows in `chosen`. */
  predicate Positions(db: Db, chosen: set<Text>, n: nat, at: seq<nat>) {
    && n <= |db.order|
    && (forall k :: 0 <= k < |at| ==> at[k] < n && db.order[at[k]] in db.rows && db.order[at[k]] in chosen)
    && (forall i :: 0 <= i < n && db.order[i] in db.rows && db.order[i] in chosen ==> i in at)
  }

  /** `list` has the assignments of the rows in `chosen`, all of them, once each, in rowid order. */
  ghost predicate ListsExactly(db: Db, chosen: set<Text>, list: seq<Assignment>) {
    exists at :: ListsInOrder(db, list, at) && Positions(db, chosen, |db.order|, at)
  }

  lemma SkipPosition(db: Db, chosen: set<Text>, n: nat, at: seq<nat>)
    requires n < |db.order| && Positions(db, chosen, n, at)
    requires db.order[n] !in db.rows || db.order[n] !in chosen
    ensures Positions(db, chosen, n + 1, at)
  {
  }

  lemma AppendPosition(db: Db, chosen: set<Text>, n: nat, list: seq<Assignment>, at: seq<nat>)
    requires n < |db.order| && ListsInOrder(db, list, at) && Positions(db, chosen, n, at)
    requires db.order[n] in db.rows && db.order[n] in chosen
    ensures ListsInOrder(db, list + [db.rows[db.order[n]].assignment], at + [n])
    ensures Positions(db, chosen, n + 1, at + [n])
  {
    assert (at + [n])[|at|] == n;
  }

  lemma SelectNext(db: Db, ids: seq<Text>, chosen: set<Text>, id: Text)
    ensures Select(db, ids + [id], chosen) ==
      Select(db, ids, chosen) + if id in db.rows && id in chosen then [db.rows[id].assignment] else []
  {
    assert (ids + [id])[..|ids|] == ids;
  }

  lemma {:induction false} SelectPositions(db: Db, chosen: set<Text>, n: nat)
    returns (list: seq<Assignment>, at: seq<nat>)
    requires n <= |db.order|
    ensures list == Select(db, db.order[..n], chosen) && ListsInOrder(db, list, at) && Positions(db, chosen, n, at)
  {
    list, at := [], [];
    if n > 0 {
      var id := db.order[n - 1];
      list, at := SelectPositions(db, chosen, n - 1);
      assert db.order[..n] == db.order[..n - 1] + [id];
      SelectNext(db, db.order[..n - 1], chosen, id);
      if id in db.rows && id in chosen {
        AppendPosition(db, chosen, n - 1, list, at);
        list, at := list + [db.rows[id].assignment], at + [n - 1];
      } else {
        SkipPosition(db, chosen, n - 1, at);
      }
    }
  }

  lemma SelectListsExactly(db: Db, chosen: set<Text>)
    ensures ListsExactly(db, chosen, Select(db, db.order, chosen))
  {
    assert db.order[..|db.order|] == db.order;
    var list, at := SelectPositions(db, chosen, |db.order|);
  }

  /** The rows a dispatch of the plan may pick. */
  function ReadyRows(db: Db, p: Text): set<Text> {
    set id | id in db.rows && IsReady(db, p, id)
  }

  function ReadyAssignments(db: Db, p: Text): Result<seq<Assignment>, StoreError> {
    if p !in db.runs then Err(UnknownPlan)
    else if db.runs[p].status != Active then Ok([])
    else Ok(Select(db, db.order, ReadyRows(db, p)))
  }

  /** A row is ready exactly if it is pending and its dependencies all have a succeeded row. */
  lemma ReadyMeans(db: Db, p: Text, id: Text)
    ensures id in ReadyRows(db, p) <==>
      && id in db.rows && db.rows[id].planId == p && db.rows[id].status == Pending
      && forall d :: d in db.rows[id].assignment.step.dependsOn ==> exists x ::
           && x in db.rows && db.rows[x].planId == p && db.rows[x].assignment.step.stepId == d
           && db.rows[x].status == StepSucceeded
  {
  }

  lemma ReadyIsListed(db: Db, p: Text)
    requires p in db.runs && db.runs[p].status == Active
    ensures ReadyAssignments(db, p).Ok? && ListsExactly(db, ReadyRows(db, p), ReadyAssignments(db, p).value)
  {
    SelectListsExactly(db, ReadyRows(db, p));
  }

  function MarkDispatched(db: Db, id: Text): (Db, bool) {
    if id in db.rows && db.rows[id].status == Pending then (SetStatus(db, id, Dispatched), true)
    else (db, false)
  }

  predicate CancelTarget(s: StepStatus) {
    s in {Dispatched, StepAccepted, StepUnknown}
  }

  function CancelledRow(row: StepRow): StepRow {
    if row.status == Pending then row.(status := StepCancelled)
    else if CancelTarget(row.status) then row.(status := CancellationRequested)
    else row
  }

  function CancelRows(db: Db, p: Text): Db {
    db.(rows := map id | id in db.rows :: if db.rows[id].planId == p then CancelledRow(db.rows[id]) else db.rows[id])
  }

  /** The one change a cancellation makes to the rows. */
  predicate CancelsExactly(db: Db, r: Db, p: Text) {
    && r.rows.Keys == db.rows.Keys
    && (forall id :: id in db.rows && db.rows[id].planId == p && db.rows[id].status == Pending ==>
      r.rows[id] == db.rows[id].(status := StepCancelled))
    && (forall id :: id in SentRows(db, p) ==> r.rows[id] == db.rows[id].(status := CancellationRequested))
    && (forall id :: id in db.rows && id !in SentRows(db, p) ==>
      (db.rows[id].planId == p && db.rows[id].status == Pending) || r.rows[id] == db.rows[id])
  }

  /** The rows a cancellation request has to be sent for. */
  function SentRows(db: Db, p: Text): set<Text> {
    set id | id in db.rows && db.rows[id].planId == p && db.rows[id].status in {Dispatched, StepAccepted, StepUnknown}
  }

  function RequestCancellation(db: Db, p: Text): Result<(Db, seq<Assignment>), StoreError> {
    if p !in db.runs then Err(UnknownPlan)
    else
      var chosen := set id | id in db.rows && db.rows[id].planId == p && CancelTarget(db.rows[id].status);
      var targets := Select(db, db.order, chosen);
      Ok((Refresh(CancelRows(db, p), p), targets))
  }

  lemma CancellationMeans(db: Db, p: Text)
    requires p in db.runs
    ensures var r := RequestCancellation(db, p);
      r.Ok? && CancelsExactly(db, r.value.0, p) && ListsExactly(db, SentRows(db, p), r.value.1)
  {
    SelectListsExactly(db, SentRows(db, p));
    assert SentRows(db, p) == set id | id in db.rows && db.rows[id].planId == p && CancelTarget(db.rows[id].status);
  }

  function RecordCancellationAck(db: Db, id: Text, accepted: bool): (Db, Option<Text>) {
    if id !in db.rows then (db, None)
    else
      var p := db.rows[id].planId;
      var db' := if db.rows[id].status == CancellationRequested && !accepted then SetStatus(db, id, StepUnknown)
        else db;
      (Refresh(db', p), Some(p))
  }

  function Transition(db: Db, id: Text, target: StepStatus, fromAck: bool): Result<(Db, Option<Text>), StoreError> {
    if id !in db.rows then Ok((db, None))
    else
      var p, current := db.rows[id].planId, db.rows[id].status;
      if Terminal(current) then
        if fromAck then Ok((db, Some(p)))
        else if current != target then Err(Immutable)
        else Ok((Refresh(db, p), Some(p)))
      else if current == Dispatched || current == StepAccepted || (!fromAck && current == CancellationRequested) then
        Ok((Refresh(SetStatus(db, id, target), p), Some(p)))
      else Err(InvalidTransition)
  }

  function RecordAck(db: Db, id: Text, status: AssignmentStatus): Result<(Db, Option<Text>), StoreError> {
    match status
    case Accepted => Transition(db, id, StepAccepted, true)
    case Rejected => Transition(db, id, StepRejected, true)
    case Unknown => Transition(db, id, StepUnknown, true)
    case _ => Ok((db, if id in db.rows then Some(db.rows[id].planId) else None))
  }

  function TerminalStep(status: AssignmentStatus): StepStatus
    requires status != Accepted
  {
    match status
    case Succeeded => StepSucceeded
    case Failed => StepFailed
    case Rejected => StepRejected
    case Cancelled => StepCancelled
    case Unknown => StepUnknown
  }

  /** A step status and an assignment status that stand for the same outcome. */
  predicate SameOutcome(step: StepStatus, status: AssignmentStatus) {
    || (step == StepSucceeded && status == Succeeded)
    || (step == StepFailed && status == Failed)
    || (step == StepRejected && status == Rejected)
    || (step == StepCancelled && status == Cancelled)
    || (step == StepUnknown && status == Unknown)
  }

  function RecordOutcome(db: Db, id: Text, status: AssignmentStatus): Result<(Db, Option<Text>), StoreError> {
    if status == Accepted then Err(NotTerminal)
    else Transition(db, id, TerminalStep(status), false)
  }

  function ReconcileOutcome(db: Db, id: Text, status: AssignmentStatus): Result<(Db, Option<Text>), StoreError> {
    if status == Accepted || status == Unknown then Err(NotTerminal)
    else if id !in db.rows then Ok((db, None))
    else if db.rows[id].status != StepUnknown then Err(NotUnknown)
    else
      var p := db.rows[id].planId;
      Ok((Refresh(SetStatus(db, id, TerminalStep(status)), p), Some(p)))
  }

  predicate Interrupted(db: Db, p: Text) {
    exists id :: id in db.rows && db.rows[id].planId == p && InFlight(db.rows[id].status)
  }

  /** Startup recovery: in-flight steps and their runs become unknown, without a refresh. */
  function Recover(db: Db): Db {
    db.(
      rows := map id | id in db.rows ::
        if InFlight(db.rows[id].status) then db.rows[id].(status := StepUnknown) else db.rows[id],
      runs := map p | p in db.runs :: if Interrupted(db, p) then db.runs[p].(status := RunUnknown) else db.runs[p])
  }
}
