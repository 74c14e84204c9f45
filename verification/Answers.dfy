/** What a robot answers to each message, and what each step of its handlers sends. */
module Answers {
  import opened Ump
  import opened Participant
  import J = Journal

  /** The acknowledgement and the outcome of an answer that the journal does not record. */
  predicate AnswersUnrecorded(r: Robot, act: Action, id: Text, description: Text, status: TerminalStatus) {
    && Act(r, act) == r.(sent := r.sent + Emitted(r, act))
    && Emitted(r, act) == {Ack(r.id, id, status), Report(r.id, Outcome(id, r.id, description, status))}
  }

  predicate IsReserved(r: Robot, resources: seq<Text>) {
    exists x :: x in resources && x in r.ledger.reservations
  }

  /** A new assignment with free resources is recorded as accepted, reserves what it lists and waits to start. */
  ghost predicate TakenOn(r: Robot, r': Robot, a: Assignment, issuer: Text, k: nat) {
    && r' == r.(ledger := r'.ledger, tasks := r.tasks[k := Admitted(a)], sent := r.sent + {Ack(r.id, a.id, Accepted)})
    && r'.ledger.rows == r.ledger.rows[a.id := J.Row(a, issuer, Accepted, None)]
    && r'.ledger.resolutions == r.ledger.resolutions
    && (forall x :: x in a.step.resources ==> J.Holds(r'.ledger, a.id, x))
    && (forall x, id :: x !in a.step.resources ==> (J.Holds(r'.ledger, id, x) <==> J.Holds(r.ledger, id, x)))
  }

  /** How an admitted assignment is answered, by what the journal holds: a new one is accepted if its
      resources are free and rejected otherwise; a known one is rejected if it differs, replayed if
      it has an outcome, and unknown if it has none. */
  lemma AssignmentAnswers(r: Robot, r': Robot, m: Message, k: nat, description: Text)
    requires J.Inv(r.ledger) && m.Assign? && m.assignment.step.robot == r.id && k !in r.tasks
    requires Distinct(m.assignment.step.resources) && r' == Act(r, Receive(m, k, description))
    ensures var a, rows, act := m.assignment, r.ledger.rows, Receive(m, k, description);
      if a.id !in rows then
        if IsReserved(r, a.step.resources) then AnswersUnrecorded(r, act, a.id, description, Rejected)
        else TakenOn(r, r', a, m.source, k) && Emitted(r, act) == {Ack(r.id, a.id, Accepted)}
      else if rows[a.id].assignment != a || rows[a.id].issuer != m.source then
        AnswersUnrecorded(r, act, a.id, description, Rejected)
      else match rows[a.id].outcome
        case None => AnswersUnrecorded(r, act, a.id, description, Unknown)
        case Some(o) =>
          r' == r.(sent := r.sent + Emitted(r, act)) && Emitted(r, act) == {Ack(r.id, a.id, o.status), Report(r.id, o)}
  {
    var a := m.assignment;
    if a.id !in r.ledger.rows {
      forall x | x in a.step.resources && x in r.ledger.reservations ensures r.ledger.reservations[x] != a.id {
        assert J.Holds(r.ledger, r.ledger.reservations[x], x);
        assert J.Entitled(r.ledger, r.ledger.reservations[x], x);
      }
    }
  }

  /** An assignment passes admission exactly inside its closed window, authorized, for an advertised
      capability and with conforming input; otherwise it is answered with a rejection, whatever the
      journal holds. */
  lemma AdmissionIsExact(r: Robot, m: Message, c: Checks, k: nat, description: Text)
    requires m.Assign? && m.assignment.step.robot == r.id
    ensures var act, step := OnAssignment(m, c, k, description), m.assignment.step;
      var tooEarly := step.notBefore.Some? && c.now < step.notBefore.value;
      var tooLate := step.deadline.Some? && step.deadline.value < c.now;
      if tooEarly || tooLate || !c.authorized || !c.advertised || !c.conforms then
        AnswersUnrecorded(r, act, m.assignment.id, description, Rejected)
      else act == Receive(m, k, description)
  {
  }

  /** A query is answered, for the issuer alone, with exactly what the journal holds. */
  lemma QueryAnswers(r: Robot, m: Message)
    requires m.Query?
    ensures var act, rows := Answer(m), r.ledger.rows;
      if m.robot == r.id && m.id in rows && rows[m.id].issuer == m.source then
        && Act(r, act) == r.(sent := r.sent + Emitted(r, act))
        && Emitted(r, act) ==
             {Snapshot(r.id, m.id, rows[m.id].status, rows[m.id].assignment, rows[m.id].outcome)}
      else Act(r, act) == r
  {
  }

  /** A cancellation request is answered at once for finished and for unknown work; only work that
      is accepted and has no outcome is put to the native adapter. */
  lemma CancellationAnswers(r: Robot, m: Message, k: nat)
    requires J.Inv(r.ledger) && m.CancelRequest? && k !in r.tasks
    ensures var act, rows := LookCancel(m, k), r.ledger.rows;
      var r', emitted := Act(r, act), Emitted(r, act);
      if m.robot != r.id || m.id !in rows || rows[m.id].issuer != m.source then r' == r
      else match rows[m.id].outcome
        case Some(o) =>
          r' == r.(sent := r.sent + emitted) && emitted == {CancelAck(r.id, m.id, AlreadyTerminal), Report(r.id, o)}
        case None =>
          if rows[m.id].status == Unknown then
            r' == r.(sent := r.sent + emitted) && emitted == {CancelAck(r.id, m.id, CancelUnknown)}
          else rows[m.id].status == Accepted && r' == r.(tasks := r.tasks[k := Cancelling(rows[m.id].assignment)])
  {
  }

  lemma NativeCancelAnswers(r: Robot, k: nat, granted: bool, description: Text)
    requires k in r.tasks && r.tasks[k].Cancelling?
    ensures var act, a := NativeCancel(k, granted, description), r.tasks[k].assignment;
      if granted then
        Act(r, act) == r.(tasks := r.tasks[k := CancelGranted(a, Outcome(a.id, r.id, description, Cancelled))])
      else
        Act(r, act) == r.(tasks := r.tasks - {k}, sent := r.sent + {CancelAck(r.id, a.id, CancelRejected)})
  {
  }

  /** The journal takes the outcome unless it already has a different one. */
  predicate Takes(r: Robot, o: Outcome) {
    o.assignmentId in r.ledger.rows && r.ledger.rows[o.assignmentId].outcome in {None, Some(o)}
  }

  /** Recording comes before reporting: the outcome of a task and what is said about it are sent
      exactly if the journal takes it, and otherwise the task ends in silence. */
  lemma ReportsExactlyWhatIsTaken(r: Robot, r': Robot, k: nat, act: Action)
    requires Inv(r) && k in r.tasks && r' == Act(r, act)
    requires (act == Finish(k) && r.tasks[k].Completing?) || (act == FinishCancel(k) && r.tasks[k].CancelGranted?)
    ensures var o := r.tasks[k].outcome;
      if Takes(r, o) then
        && Recorded(r', o) && r'.tasks == r.tasks - {k}
        && Emitted(r, act) == {Report(r.id, o)} +
             if act.Finish? then {} else {CancelAck(r.id, o.assignmentId, CancelAccepted)}
      else r' == r.(tasks := r.tasks - {k}) && Emitted(r, act) == {}
  {
    assert TaskOk(r, r.tasks[k]);
  }

  /** A task that finds an outcome recorded meanwhile reports that one instead of its own. */
  lemma LatestOutcomeWins(r: Robot, r': Robot, k: nat)
    requires Inv(r) && k in r.tasks && r.tasks[k].Returned? && r' == Act(r, Look(k))
    ensures r.tasks[k].assignment.id in r.ledger.rows
    ensures var a := r.tasks[k].assignment;
      match r.ledger.rows[a.id].outcome
      case Some(o) => r' == r.(tasks := r.tasks - {k}, sent := r.sent + {Report(r.id, o)})
      case None => r' == r.(tasks := r.tasks[k := Completing(a, r.tasks[k].outcome)])
  {
    assert TaskOk(r, r.tasks[k]);
  }

  /** An operator's resolution is recorded exactly for work that is unknown and has no outcome. */
  lemma ResolutionIsRecorded(r: Robot, id: Text, status: AssignmentStatus, description: Text, documented: bool)
    requires J.Inv(r.ledger)
    ensures var act, rows := Resolve(id, status, description, documented), r.ledger.rows;
      var r' := Act(r, act);
      if status !in {Accepted, Unknown} && documented && id in rows && rows[id].status == Unknown &&
        rows[id].outcome.None?
      then
        var o := Outcome(id, rows[id].assignment.step.robot, description, status);
        && r' == r.(ledger := r'.ledger)
        && r'.ledger.rows == rows[id := rows[id].(status := status, outcome := Some(o))]
        && forall x :: x in r'.ledger.reservations <==>
             x in r.ledger.reservations && r.ledger.reservations[x] != id
      else r' == r
  {
  }

  /** A crash loses the tasks, and after it and after any opening of the journal exactly the
      accepted work without an outcome is unknown. */
  lemma CrashInterrupts(r: Robot, r': Robot, act: Action)
    requires act in {Crash, OpenJournal} && r' == Act(r, act)
    ensures r' == r.(ledger := r'.ledger, tasks := if act == Crash then map[] else r.tasks)
    ensures r'.ledger == r.ledger.(rows := r'.ledger.rows) && r'.ledger.rows.Keys == r.ledger.rows.Keys
    ensures forall id :: id in r.ledger.rows ==>
      var row := r.ledger.rows[id];
      r'.ledger.rows[id] == if row.status == Accepted && row.outcome.None? then row.(status := Unknown) else row
  {
  }

  // ---------------------------------------------------------------- every reply, in every run

  predicate RecordedAs(r: Robot, id: Text, status: AssignmentStatus) {
    id in r.ledger.rows && r.ledger.rows[id].outcome.Some? && r.ledger.rows[id].outcome.value.status == status
  }

  predicate HasOutcome(r: Robot, id: Text) {
    id in r.ledger.rows && r.ledger.rows[id].outcome.Some?
  }

  /** What a reply promises about the journal. */
  predicate Keeps(r: Robot, m: Message) {
    match m
    case Ack(_, id, status) =>
      (status == Accepted ==> id in r.ledger.rows) && (Definite(status) ==> RecordedAs(r, id, status))
    case CancelAck(_, id, CancelAccepted) => RecordedAs(r, id, Cancelled)
    case CancelAck(_, id, AlreadyTerminal) => HasOutcome(r, id)
    case CancelAck(_, id, _) => id in r.ledger.rows
    case _ => true
  }

  predicate RepliesKept(r: Robot) {
    && (forall m :: m in r.sent ==> Keeps(r, m))
    && (forall k :: k in r.tasks && r.tasks[k].CancelGranted? ==> r.tasks[k].outcome.status == Cancelled)
  }

  lemma ReceiptKept(r: Robot, m: Message, k: nat, description: Text, x: Message)
    requires J.Inv(r.ledger) && OwnRows(r) && m.Assign? && x !in r.sent
    requires var r' := Claim(r, m, k, description); x in r'.sent
    ensures Keeps(Claim(r, m, k, description), x)
  {
  }

  lemma CancelReplyKept(r: Robot, r': Robot, act: Action, m: Message)
    requires TasksOk(r) && RepliesKept(r) && r' == Act(r, act) && m in r'.sent && m !in r.sent
    requires act.LookCancel? || act.NativeCancel? || act.FinishCancel?
    ensures Keeps(r', m)
  {
    if !act.LookCancel? {
      assert TaskOk(r, r.tasks[act.task]);
    }
  }

  lemma NewReplyKept(r: Robot, r': Robot, act: Action, m: Message)
    requires Inv(r) && RepliesKept(r) && r' == Act(r, act) && m in r'.sent && m !in r.sent
    ensures Keeps(r', m)
  {
    if act.Receive? {
      ReceiptKept(r, act.message, act.task, act.description, m);
    } else if act.LookCancel? || act.NativeCancel? || act.FinishCancel? {
      CancelReplyKept(r, r', act, m);
    }
  }

  lemma TasksStayCancelled(r: Robot, r': Robot, act: Action, k: nat)
    requires RepliesKept(r) && r' == Act(r, act) && k in r'.tasks && r'.tasks[k].CancelGranted?
    ensures r'.tasks[k].outcome.status == Cancelled
  {
  }

  lemma ActKeepsReplies(r: Robot, act: Action)
    requires Inv(r) && RepliesKept(r)
    ensures RepliesKept(Act(r, act))
  {
    var r' := Act(r, act);
    ActGrows(r, act);
    forall k | k in r'.tasks && r'.tasks[k].CancelGranted? ensures r'.tasks[k].outcome.status == Cancelled {
      TasksStayCancelled(r, r', act, k);
    }
    forall m | m in r'.sent ensures Keeps(r', m) {
      if m in r.sent {
        assert Keeps(r, m);
      } else {
        NewReplyKept(r, r', act, m);
      }
    }
  }

  /** In every run of a robot, an acknowledgement of acceptance names a journaled assignment, one of a
      success, failure or cancellation the recorded outcome, a granted cancellation an outcome
      recorded as cancelled, and the reply `already terminal` a recorded outcome. */
  lemma {:induction false} RepliesAreKept(id: Text, acts: seq<Action>)
    ensures RepliesKept(RunAll(Fresh(id), acts))
  {
    if acts != [] {
      RepliesAreKept(id, acts[..|acts| - 1]);
      AlwaysInv(id, acts[..|acts| - 1]);
      ActKeepsReplies(RunAll(Fresh(id), acts[..|acts| - 1]), acts[|acts| - 1]);
    }
  }

  // ---------------------------------------------------------------- outcomes come from work

  /** Native work begins with an admitted task, once, and is logged. */
  lemma StartBegins(r: Robot, r': Robot, k: nat)
    requires k in r.tasks && r.tasks[k].Admitted? && r' == Act(r, Start(k))
    ensures r' == r.(
      tasks := r.tasks[k := Running(r.tasks[k].assignment)],
      starts := r.starts + [r.tasks[k].assignment])
  {
  }

  /** The work was begun, its outcome was put in by an operator, or it was cancelled. */
  predicate Accounted(r: Robot, row: J.Row) {
    row.outcome.Some? ==>
      row.assignment in r.starts || row.assignment.id in r.ledger.resolutions || row.outcome.value.status == Cancelled
  }

  /** Tasks at work have begun, and so has whatever has an outcome, but for resolutions and cancellations. */
  predicate WorkAccounted(r: Robot) {
    && (forall id :: id in r.ledger.rows ==> Accounted(r, r.ledger.rows[id]))
    && (forall k :: k in r.tasks && (r.tasks[k].Running? || r.tasks[k].Returned? || r.tasks[k].Completing?) ==>
      r.tasks[k].assignment in r.starts)
    && (forall k :: k in r.tasks && r.tasks[k].CancelGranted? ==> r.tasks[k].outcome.status == Cancelled)
  }

  lemma TasksStayAccounted(r: Robot, r': Robot, act: Action)
    requires WorkAccounted(r) && r' == Act(r, act)
    ensures r.starts <= r'.starts
    ensures forall k :: k in r'.tasks && (r'.tasks[k].Running? || r'.tasks[k].Returned? || r'.tasks[k].Completing?) ==>
      r'.tasks[k].assignment in r'.starts
    ensures forall k :: k in r'.tasks && r'.tasks[k].CancelGranted? ==> r'.tasks[k].outcome.status == Cancelled
  {
    if act.Start? && act.task in r.tasks && r.tasks[act.task].Admitted? {
      StartBegins(r, r', act.task);
    }
  }

  lemma RecordStaysAccounted(r: Robot, k: nat, a: Assignment, o: Outcome, messages: set<Message>, id: Text)
    requires J.RowsOk(r.ledger) && (forall x :: x in r.ledger.rows ==> Accounted(r, r.ledger.rows[x]))
    requires a in r.starts || o.status == Cancelled
    requires id in Record(r, k, a, o, messages).ledger.rows
    ensures Accounted(Record(r, k, a, o, messages), Record(r, k, a, o, messages).ledger.rows[id])
  {
  }

  lemma JournalStaysAccounted(r: Robot, r': Robot, act: Action, id: Text)
    requires J.RowsOk(r.ledger) && (forall x :: x in r.ledger.rows ==> Accounted(r, r.ledger.rows[x]))
    requires act.Receive? || act.Resolve? || act.OpenJournal? || act.Crash?
    requires r' == Act(r, act) && id in r'.ledger.rows
    ensures Accounted(r', r'.ledger.rows[id])
  {
  }

  lemma RowsStayAccounted(r: Robot, r': Robot, act: Action, id: Text)
    requires J.RowsOk(r.ledger) && WorkAccounted(r) && r' == Act(r, act) && id in r'.ledger.rows
    ensures Accounted(r', r'.ledger.rows[id])
  {
    if act.Receive? || act.Resolve? || act.OpenJournal? || act.Crash? {
      JournalStaysAccounted(r, r', act, id);
    } else if act.Finish? && act.task in r.tasks && r.tasks[act.task].Completing? {
      var t := r.tasks[act.task];
      RecordStaysAccounted(r, act.task, t.assignment, t.outcome, {Report(r.id, t.outcome)}, id);
    } else if act.FinishCancel? && act.task in r.tasks && r.tasks[act.task].CancelGranted? {
      var t := r.tasks[act.task];
      RecordStaysAccounted(r, act.task, t.assignment, t.outcome,
        {CancelAck(r.id, t.assignment.id, CancelAccepted), Report(r.id, t.outcome)}, id);
    } else {
      assert r'.ledger == r.ledger && Accounted(r, r.ledger.rows[id]);
    }
  }

  /** In every run of a robot, whatever has an outcome in the journal was natively begun, unless an
      operator resolved it or it was cancelled. */
  lemma {:induction false} OutcomesComeFromWork(id: Text, acts: seq<Action>)
    ensures WorkAccounted(RunAll(Fresh(id), acts))
  {
    if acts != [] {
      var r, act := RunAll(Fresh(id), acts[..|acts| - 1]), acts[|acts| - 1];
      OutcomesComeFromWork(id, acts[..|acts| - 1]);
      AlwaysInv(id, acts[..|acts| - 1]);
      var r' := Act(r, act);
      TasksStayAccounted(r, r', act);
      forall x | x in r'.ledger.rows ensures Accounted(r', r'.ledger.rows[x]) {
        RowsStayAccounted(r, r', act, x);
      }
    }
  }
}
