/** What the coordinator does with each kind of message it receives, and which messages a
    cancellation and a reconciliation send. */
module Handlers {
  import opened Ump
  import opened RunStore
  import opened RunHistory
  import opened Deployment
  import P = Participant

  /** The step with this identifier belongs to the robot that sent the message. */
  predicate Heard(s: System, m: P.Message, id: Text) {
    InNetwork(s, m) && P.Subject(m) == Some(id) && FromAssignedRobot(s.db, id, m.source)
  }

  /** Only the tables change, and in them only this row and its run. */
  predicate OnlyRowMoves(s: System, s': System, id: Text) {
    s' == s.(db := s'.db) && OthersUnmoved(s.db, s'.db, id)
  }

  /** A report that was not seen to concern an unknown step is recorded for a step in flight; one
      that was is reconciled, if it says what happened. Otherwise it changes no step. */
  lemma ReportIsRecorded(s: System, s': System, m: P.Message, id: Text, sawUnknown: bool)
    requires m.Report? && Heard(s, m, id) && m.outcome.robot == m.source && s' == Step(s, OnReport(m, sawUnknown))
    ensures OnlyRowMoves(s, s', id)
    ensures var before, after := s.db.rows[id].status, s'.db.rows[id].status;
      if (if sawUnknown then before == StepUnknown && m.outcome.status != Unknown
          else before in {Dispatched, StepAccepted, CancellationRequested})
      then SameOutcome(after, m.outcome.status) else after == before
  {
    OutcomesAreRecordedAsTheyAre(s.db, id, m.outcome.status);
    UnknownIsReconciledAsTold(s.db, id, m.outcome.status);
  }

  lemma AcknowledgementIsRecorded(s: System, s': System, m: P.Message, id: Text)
    requires m.Ack? && Heard(s, m, id) && s' == Step(s, OnAck(m))
    ensures OnlyRowMoves(s, s', id)
    ensures var before, after := s.db.rows[id].status, s'.db.rows[id].status;
      if before in {Dispatched, StepAccepted} && m.status in {Accepted, Rejected, Unknown} then
        after == match m.status case Accepted => StepAccepted case Rejected => StepRejected case _ => StepUnknown
      else after == before
  {
    AcknowledgementsAreRecordedAsTheyAre(s.db, id, m.status);
  }

  /** A snapshot settles an unknown step with the outcome it carries, if that is known and the
      snapshot is of the very assignment. */
  lemma SnapshotReconciles(s: System, s': System, m: P.Message, id: Text)
    requires m.Snapshot? && Heard(s, m, id) && s' == Step(s, OnSnapshot(m))
    ensures OnlyRowMoves(s, s', id)
    ensures var before, after := s.db.rows[id].status, s'.db.rows[id].status;
      if before == StepUnknown && m.assignment == s.db.rows[id].assignment && m.result.Some? &&
        m.result.value.assignmentId == id && m.result.value.status == m.status != Unknown
      then SameOutcome(after, m.result.value.status) else after == before
  {
    UnknownIsReconciledAsTold(s.db, id, m.status);
  }

  /** Of the four replies, a refusal and an uncertain one make the step unknown for which a
      cancellation was requested; the other two wait for the outcome. */
  lemma CancelReplyIsRecorded(s: System, s': System, m: P.Message, id: Text)
    requires m.CancelAck? && Heard(s, m, id) && s' == Step(s, OnCancelAck(m))
    ensures OnlyRowMoves(s, s', id)
    ensures s.db.rows[id].status != CancellationRequested ==> s'.db.rows[id].status == s.db.rows[id].status
    ensures s.db.rows[id].status == CancellationRequested ==> s'.db.rows[id].status == match m.cancel
      case CancelAccepted => CancellationRequested
      case AlreadyTerminal => CancellationRequested
      case CancelRejected => StepUnknown
      case CancelUnknown => StepUnknown
  {
    RefusedCancellationIsUnknown(s.db, id, m.cancel in {P.CancelAccepted, P.AlreadyTerminal});
  }

  /** What another robot says about a step, or anyone about a step that does not exist, changes nothing. */
  lemma StrangersAreIgnored(s: System, act: Action, id: Text)
    requires act.OnReport? || act.OnAck? || act.OnSnapshot? || act.OnCancelAck?
    requires P.Subject(act.message) == Some(id)
    requires (id in s.db.rows ==> s.db.rows[id].assignment.step.robot != act.message.source) ||
      (act.OnReport? && act.message.Report? && act.message.outcome.robot != act.message.source)
    ensures Step(s, act) == s
  {
  }

  /** A cancellation request stops the steps not yet sent, requests the cancellation of those that
      are or may be under way, and sends exactly their robots a request for each. */
  lemma CancellationReachesRobots(s: System, s': System, p: Text)
    requires RowsIndexed(s.db) && p in s.db.runs && s' == Step(s, CancelPlan(p))
    ensures CancelsExactly(s.db, s'.db, p)
    ensures forall m :: m in s'.requests <==> m in s.requests || exists id ::
      && id in s.db.rows && s.db.rows[id].planId == p
      && s.db.rows[id].status in {Dispatched, StepAccepted, StepUnknown}
      && m == P.CancelRequest(s.coordinator, id, s.db.rows[id].assignment.step.robot)
  {
    CancellationMeans(s.db, p);
  }

  /** Every step that just came to wait for a cancellation has had its own robot asked for it. */
  lemma RequestedIsAsked(s: System, s': System, p: Text, id: Text)
    requires RowsIndexed(s.db) && s' == Step(s, CancelPlan(p)) && id in s.db.rows
    requires id in s'.db.rows && s'.db.rows[id].status == CancellationRequested != s.db.rows[id].status
    ensures s.db.rows[id].planId == p
    ensures P.CancelRequest(s.coordinator, id, s.db.rows[id].assignment.step.robot) in s'.requests
  {
    CancellationReachesRobots(s, s', p);
  }

  /** Reconciling a plan asks exactly the robots of its unknown steps about each. */
  lemma ReconciliationAsksRobots(s: System, s': System, p: Text)
    requires s' == Step(s, QueryUnknown(p))
    ensures s'.db == s.db && s'.robots == s.robots && s'.published == s.published
    ensures forall m :: m in s'.requests <==> m in s.requests || exists id ::
      && id in s.db.rows && s.db.rows[id].planId == p && s.db.rows[id].status == StepUnknown
      && m == P.Query(s.coordinator, id, s.db.rows[id].assignment.step.robot)
  {
  }

  // ---------------------------------------------------------------- the dispatch loop

  /** One turn of a dispatch loop: the next listed assignment is won if its step is still pending
      and passed over otherwise, and the rest of the list stays. */
  lemma TurnOfLoop(s: System, s': System, k: nat, a: Assignment, rest: seq<Assignment>)
    requires k in s.loops && s.loops[k] == Iterating([a] + rest) && s' == Step(s, TryMark(k))
    ensures s' == s.(db := s'.db, loops := s'.loops)
    ensures a.id in s.db.rows && s.db.rows[a.id].status == Pending ==>
      s'.loops == s.loops[k := Won(a, rest)] && s'.db.rows == s.db.rows[a.id := s.db.rows[a.id].(status := Dispatched)]
    ensures a.id !in s.db.rows || s.db.rows[a.id].status != Pending ==>
      s'.loops == s.loops[k := Iterating(rest)] && s'.db == s.db
  {
    assert ([a] + rest)[0] == a && ([a] + rest)[1..] == rest;
  }

  /** A won assignment is published to its robot, and the loop goes on with the rest. */
  lemma WonIsPublished(s: System, s': System, k: nat, a: Assignment, rest: seq<Assignment>)
    requires k in s.loops && s.loops[k] == Won(a, rest) && s' == Step(s, Publish(k))
    ensures s' == s.(
      loops := s.loops[k := Iterating(rest)],
      published := s.published + [a],
      requests := s.requests + {P.Assign(s.coordinator, a)})
  {
  }

  /** The loop has still to come to the assignment, or its step is no longer pending. */
  predicate Covered(s: System, k: nat, a: Assignment) {
    k in s.loops && a.id in s.db.rows && (a in s.loops[k].rest || s.db.rows[a.id].status != Pending)
  }

  lemma CoveredNext(s: System, act: Action, k: nat, a: Assignment)
    requires Covered(s, k, a) && !act.RestartCoordinator?
    ensures Covered(Step(s, act), k, a)
  {
    if Transaction(s, act).Some? {
      ApplyEvolves(s.db, Transaction(s, act).value);
    }
    if act == TryMark(k) && s.loops[k].Iterating? && s.loops[k].rest != [] {
      CoveredAfterTurn(s, k, a);
    } else {
      ListKept(s, act, k);
    }
  }

  /** Only a turn of its own loop shortens a list. */
  lemma ListKept(s: System, act: Action, k: nat)
    requires k in s.loops && !act.RestartCoordinator?
    requires act != TryMark(k) || !s.loops[k].Iterating? || s.loops[k].rest == []
    ensures k in Step(s, act).loops && Step(s, act).loops[k].rest == s.loops[k].rest
  {
  }

  lemma CoveredAfterTurn(s: System, k: nat, a: Assignment)
    requires Covered(s, k, a) && s.loops[k].Iterating? && s.loops[k].rest != []
    ensures Covered(Step(s, TryMark(k)), k, a)
  {
    var next, rest := s.loops[k].rest[0], s.loops[k].rest[1..];
    assert s.loops[k].rest == [next] + rest;
    TurnOfLoop(s, Step(s, TryMark(k)), k, next, rest);
  }

  /** A dispatch loop that is not cut off by a restart skips nothing: of the list it once had, every
      assignment is either still to come or no longer pending, so when the list is used up none is. */
  lemma {:induction false} NothingListedIsSkipped(s: System, acts: seq<Action>, k: nat, a: Assignment)
    requires k in s.loops && a in s.loops[k].rest && a.id in s.db.rows
    requires forall i :: 0 <= i < |acts| ==> !acts[i].RestartCoordinator?
    ensures Covered(RunSystem(s, acts), k, a)
  {
    if acts != [] {
      NothingListedIsSkipped(s, acts[..|acts| - 1], k, a);
      CoveredNext(RunSystem(s, acts[..|acts| - 1]), acts[|acts| - 1], k, a);
    }
  }
}
