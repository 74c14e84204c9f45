/** The coordinator's store as it runs: tables updated in place, one method per
    transaction, each proved to leave exactly the tables that RunStore prescribes. */
module CoordinatorStore {
  import opened Ump
  import S = RunStore

  class Store {
    var runs: map<Text, S.Run>
    var rows: map<Text, S.StepRow>
    var order: seq<Text>

    function Contents(): S.Db
      reads this
    {
      S.Db(runs, rows, order)
    }

    constructor ()
      ensures Contents() == S.EMPTY
    {
      runs, rows, order := map[], map[], [];
    }

    /** Opening an existing database with recovery enabled. */
    method RecoverInterruptedRuns()
      modifies this
      ensures Contents() == S.Recover(old(Contents()))
      ensures rows.Keys == old(rows).Keys && runs.Keys == old(runs).Keys && order == old(order)
      ensures forall id :: id in rows ==>
        var row := old(rows)[id];
        if row.status in {S.Dispatched, S.StepAccepted, S.CancellationRequested} then
          rows[id] == row.(status := S.StepUnknown)
        else rows[id] == row
      ensures forall p :: p in runs ==>
        if exists id :: id in rows && rows[id].planId == p && rows[id] != old(rows)[id] then
          runs[p] == old(runs)[p].(status := S.RunUnknown)
        else runs[p] == old(runs)[p]
    {
      var affected := set id | id in rows && S.InFlight(rows[id].status) :: rows[id].planId;
      rows := map id | id in rows ::
        if S.InFlight(rows[id].status) then rows[id].(status := S.StepUnknown) else rows[id];
      var rest := affected;
      while rest != {}
        invariant rest <= affected && runs.Keys == old(runs).Keys
        invariant rows == S.Recover(old(Contents())).rows && order == old(order)
        invariant forall p :: p in runs ==>
          runs[p] == if p in affected - rest then old(runs)[p].(status := S.RunUnknown) else old(runs)[p]
        decreases rest
      {
        var p :| p in rest;
        if p in runs {
          runs := runs[p := runs[p].(status := S.RunUnknown)];
        }
        rest := rest - {p};
      }
      assert forall p :: S.Interrupted(old(Contents()), p) <==> p in affected;
    }

    method CreateRun(goal: Goal, plan: Plan, batch: seq<Assignment>) returns (r: Result<(), S.StoreError>)
      modifies this
      ensures match S.CreateRun(old(Contents()), goal, plan, batch)
        case Ok(db) => r == Ok(()) && Contents() == db
        case Err(e) => r == Err(e) && Contents() == old(Contents())
      ensures var p := plan.planId;
        && (r == Err(S.PlanConflict) <==> p in old(runs) && (old(runs)[p].goal != goal || old(runs)[p].plan != plan))
        && (r == Err(S.IntegrityError) <==>
             p !in old(runs) && !(S.DistinctSteps(batch) && S.AllNew(old(rows), p, batch)))
        && (p in old(runs) ==> Contents() == old(Contents()))
        && (r.Ok? && p !in old(runs) ==> runs == old(runs)[p := S.Run(goal, plan, S.Active)])
        && (r.Ok? && p !in old(runs) ==> order == old(order) + S.Ids(batch))
      ensures r.Ok? && plan.planId !in old(runs) ==>
        && (forall id :: id in rows <==> id in old(rows) || exists i :: 0 <= i < |batch| && batch[i].id == id)
        && (forall id :: id in old(rows) ==> rows[id] == old(rows)[id])
        && (forall i :: 0 <= i < |batch| ==> rows[batch[i].id] == S.StepRow(plan.planId, batch[i], S.Pending))
    {
      var p := plan.planId;
      S.InsertsExactly(rows, p, batch);
      if S.Insert(rows, p, batch).Some? {
        S.InsertShape(rows, p, batch, S.Insert(rows, p, batch).value);
      }
      if p in runs {
        if runs[p].goal != goal || runs[p].plan != plan {
          return Err(S.PlanConflict);
        }
        return Ok(());
      }
      var before := Contents();
      runs := runs[p := S.Run(goal, plan, S.Active)];
      var inserted := InsertRows(p, batch);
      if !inserted {
        runs, rows, order := before.runs, before.rows, before.order;
        return Err(S.IntegrityError);
      }
      return Ok(());
    }

    /** Insert one row per assignment until a uniqueness constraint refuses one. */
    method InsertRows(p: Text, batch: seq<Assignment>) returns (ok: bool)
      modifies `rows, `order
      ensures ok <==> S.Insert(old(rows), p, batch).Some?
      ensures ok ==> rows == S.Insert(old(rows), p, batch).value && order == old(order) + S.Ids(batch)
    {
      for i := 0 to |batch|
        invariant S.Insert(old(rows), p, batch[..i]) == Some(rows)
        invariant order == old(order) + S.Ids(batch[..i])
      {
        var a := batch[i];
        assert batch[..i + 1][..i] == batch[..i];
        if S.Violates(rows, p, a) {
          RefusedInsert(old(rows), p, batch, i + 1);
          return false;
        }
        rows, order := rows[a.id := S.StepRow(p, a, S.Pending)], order + [a.id];
        assert S.Ids(batch[..i + 1]) == S.Ids(batch[..i]) + [a.id];
      }
      assert batch[..|batch|] == batch;
      return true;
    }

    /** A refused prefix refuses the whole batch. */
    static lemma {:induction false} RefusedInsert(rows: map<Text, S.StepRow>, p: Text, batch: seq<Assignment>, i: nat)
      requires i <= |batch| && S.Insert(rows, p, batch[..i]).None?
      ensures S.Insert(rows, p, batch).None?
      decreases |batch| - i
    {
      if i == |batch| {
        assert batch[..i] == batch;
      } else {
        assert batch[..i + 1][..i] == batch[..i];
        RefusedInsert(rows, p, batch, i + 1);
      }
    }

    method ReadyAssignments(p: Text) returns (r: Result<seq<Assignment>, S.StoreError>)
      ensures r == S.ReadyAssignments(Contents(), p)
      ensures p !in runs ==> r == Err(S.UnknownPlan)
      ensures p in runs && runs[p].status != S.Active ==> r == Ok([])
      ensures p in runs && runs[p].status == S.Active ==>
        r.Ok? && S.ListsExactly(Contents(), S.ReadyRows(Contents(), p), r.value)
    {
      if p !in runs {
        return Err(S.UnknownPlan);
      }
      if runs[p].status != S.Active {
        return Ok([]);
      }
      S.ReadyIsListed(Contents(), p);
      var ready := CollectReady(p);
      return Ok(ready);
    }

    /** The pending steps of the plan in rowid order whose dependencies have all succeeded. */
    method CollectReady(p: Text) returns (ready: seq<Assignment>)
      ensures ready == S.Select(Contents(), order, S.ReadyRows(Contents(), p))
    {
      var db := Contents();
      ghost var chosen := S.ReadyRows(db, p);
      ready := [];
      for i := 0 to |order|
        invariant ready == S.Select(db, order[..i], chosen)
      {
        assert order[..i + 1] == order[..i] + [order[i]];
        S.SelectNext(db, order[..i], chosen, order[i]);
        if S.IsReady(db, p, order[i]) {
          ready := ready + [db.rows[order[i]].assignment];
        }
      }
      assert order[..|order|] == order;
    }

    method MarkDispatched(id: Text) returns (won: bool)
      modifies this
      ensures (Contents(), won) == S.MarkDispatched(old(Contents()), id)
      ensures won <==> id in old(rows) && old(rows)[id].status == S.Pending
      ensures won ==> rows[id].status == S.Dispatched
      ensures rows.Keys == old(rows).Keys && runs == old(runs) && order == old(order)
      ensures forall x :: x in rows && (x != id || !won) ==> rows[x] == old(rows)[x]
    {
      won := id in rows && rows[id].status == S.Pending;
      if won {
        rows := rows[id := rows[id].(status := S.Dispatched)];
      }
    }

    method RefreshRun(p: Text)
      modifies this
      ensures Contents() == S.Refresh(old(Contents()), p)
      ensures rows == old(rows) && order == old(order) && runs.Keys == old(runs).Keys
      ensures forall q :: q in runs && q != p ==> runs[q] == old(runs)[q]
      ensures p in runs ==> runs[p].goal == old(runs)[p].goal && runs[p].plan == old(runs)[p].plan
      ensures p in runs ==> var db, status := Contents(), runs[p].status;
        && (status == S.RunUnknown <==> S.Has(db, p, S.StepUnknown))
        && (status == S.RunFailed <==>
             !S.Has(db, p, S.StepUnknown) && (S.Has(db, p, S.StepFailed) || S.Has(db, p, S.StepRejected)))
        && (status == S.RunSucceeded <==> S.Has(db, p, S.StepSucceeded) && S.Only(db, p, {S.StepSucceeded}))
        && (status == S.RunCancelled && S.Has(db, p, S.StepSucceeded) ==> S.Has(db, p, S.StepCancelled))
        && (S.Has(db, p, S.StepCancelled) ==>
             (status == S.RunCancelled <==> S.Only(db, p, {S.StepSucceeded, S.StepCancelled})))
    {
      S.ClassMeans(Contents(), p);
      if p in runs {
        runs := runs[p := runs[p].(status := S.Classify(S.Statuses(Contents(), p)))];
      }
    }

    /** The two updates of a cancellation: first the pending rows, then the rows already sent. */
    method CancelSteps(p: Text)
      modifies `rows
      ensures Contents() == S.CancelRows(old(Contents()), p)
    {
      rows := map id | id in rows ::
        if rows[id].planId == p && rows[id].status == S.Pending then rows[id].(status := S.StepCancelled) else rows[id];
      rows := map id | id in rows ::
        if rows[id].planId == p && S.CancelTarget(rows[id].status) then rows[id].(status := S.CancellationRequested)
        else rows[id];
      assert rows == S.CancelRows(old(Contents()), p).rows;
    }

    method RequestCancellation(p: Text) returns (r: Result<seq<Assignment>, S.StoreError>)
      modifies this
      ensures match S.RequestCancellation(old(Contents()), p)
        case Ok(result) => r == Ok(result.1) && Contents() == result.0
        case Err(e) => r == Err(e) && Contents() == old(Contents())
      ensures r.Ok? <==> p in old(runs)
      ensures r.Ok? ==> S.ListsExactly(old(Contents()), S.SentRows(old(Contents()), p), r.value)
      ensures r.Ok? ==> S.CancelsExactly(old(Contents()), Contents(), p) && order == old(order)
    {
      if p !in runs {
        return Err(S.UnknownPlan);
      }
      S.CancellationMeans(Contents(), p);
      var chosen := set id | id in rows && rows[id].planId == p && S.CancelTarget(rows[id].status);
      var targets := S.Select(Contents(), order, chosen);
      CancelSteps(p);
      RefreshRun(p);
      return Ok(targets);
    }

    method RecordCancellationAck(id: Text, accepted: bool) returns (plan: Option<Text>)
      modifies this
      ensures (Contents(), plan) == S.RecordCancellationAck(old(Contents()), id, accepted)
      ensures plan.Some? <==> id in old(rows)
      ensures rows.Keys == old(rows).Keys && forall x :: x in rows && x != id ==> rows[x] == old(rows)[x]
      ensures id in rows ==>
        rows[id].status == if old(rows)[id].status == S.CancellationRequested && !accepted then S.StepUnknown
        else old(rows)[id].status
    {
      if id !in rows {
        return None;
      }
      if rows[id].status == S.CancellationRequested && !accepted {
        rows := rows[id := rows[id].(status := S.StepUnknown)];
      }
      RefreshRun(rows[id].planId);
      return Some(rows[id].planId);
    }

    method Transition(id: Text, target: S.StepStatus, fromAck: bool) returns (r: Result<Option<Text>, S.StoreError>)
      modifies this
      ensures match S.Transition(old(Contents()), id, target, fromAck)
        case Ok(result) => r == Ok(result.1) && Contents() == result.0
        case Err(e) => r == Err(e) && Contents() == old(Contents())
      ensures rows.Keys == old(rows).Keys && forall x :: x in rows && x != id ==> rows[x] == old(rows)[x]
      ensures r == Ok(None) <==> id !in old(rows)
      ensures r == Err(S.Immutable) <==>
        && id in old(rows) && !fromAck && old(rows)[id].status != target
        && old(rows)[id].status !in {S.Pending, S.Dispatched, S.StepAccepted, S.CancellationRequested}
      ensures r == Err(S.InvalidTransition) <==>
        && id in old(rows)
        && (old(rows)[id].status == S.Pending || (fromAck && old(rows)[id].status == S.CancellationRequested))
      ensures r.Err? ==> r.error in {S.Immutable, S.InvalidTransition}
      ensures id in rows && S.Terminal(old(rows)[id].status) ==> rows[id] == old(rows)[id]
      ensures id in rows && !S.Terminal(old(rows)[id].status) && r.Ok? ==> rows[id].status == target
    {
      if id !in rows {
        return Ok(None);
      }
      var p, current := rows[id].planId, rows[id].status;
      if S.Terminal(current) {
        if fromAck {
          return Ok(Some(p));
        }
        if current != target {
          return Err(S.Immutable);
        }
      } else {
        var allowed := current == S.Dispatched || current == S.StepAccepted ||
          (!fromAck && current == S.CancellationRequested);
        if !allowed {
          return Err(S.InvalidTransition);
        }
        rows := rows[id := rows[id].(status := target)];
      }
      RefreshRun(p);
      return Ok(Some(p));
    }

    method ReconcileOutcome(id: Text, status: AssignmentStatus) returns (r: Result<Option<Text>, S.StoreError>)
      modifies this
      ensures match S.ReconcileOutcome(old(Contents()), id, status)
        case Ok(result) => r == Ok(result.1) && Contents() == result.0
        case Err(e) => r == Err(e) && Contents() == old(Contents())
      ensures r.Ok? && r.value.Some? ==>
        id in old(rows) && old(rows)[id].status == S.StepUnknown && S.SameOutcome(rows[id].status, status)
      ensures r == Err(S.NotTerminal) <==> status in {Accepted, Unknown}
      ensures r == Err(S.NotUnknown) <==>
        status !in {Accepted, Unknown} && id in old(rows) && old(rows)[id].status != S.StepUnknown
      ensures r == Ok(None) <==> status !in {Accepted, Unknown} && id !in old(rows)
      ensures rows.Keys == old(rows).Keys && forall x :: x in rows && x != id ==> rows[x] == old(rows)[x]
    {
      if status == Accepted || status == Unknown {
        return Err(S.NotTerminal);
      }
      if id !in rows {
        return Ok(None);
      }
      if rows[id].status != S.StepUnknown {
        return Err(S.NotUnknown);
      }
      rows := rows[id := rows[id].(status := S.TerminalStep(status))];
      RefreshRun(rows[id].planId);
      return Ok(Some(rows[id].planId));
    }
  }
}
