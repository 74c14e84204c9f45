/** One robot: its handlers as steps at journal-operation granularity, so that the
    executor, the cancellation handler, an operator and a crash interleave freely. */
module Participant {
  import opened Ump
  import J = Journal

  datatype CancelStatus = CancelAccepted | CancelRejected | AlreadyTerminal | CancelUnknown

  datatype Message =
    | Assign(source: Text, assignment: Assignment)
    | Query(source: Text, id: Text, robot: Text)
    | CancelRequest(source: Text, id: Text, robot: Text)
    | Ack(source: Text, id: Text, status: AssignmentStatus)
    | Report(source: Text, outcome: Outcome)
    | Snapshot(source: Text, id: Text, status: AssignmentStatus, assignment: Assignment, result: Option<Outcome>)
    | CancelAck(source: Text, id: Text, cancel: CancelStatus)

  /** Where a handler or an executor thread stands between two journal operations. */
  datatype Task =
    | Admitted(assignment: Assignment)
    | Running(assignment: Assignment)
    | Returned(assignment: Assignment, outcome: Outcome)
    | Completing(assignment: Assignment, outcome: Outcome)
    | Cancelling(assignment: Assignment)
    | CancelGranted(assignment: Assignment, outcome: Outcome)

  /** `ledger` is durable and `tasks` is lost in a crash; `starts` and `sent` record what happened. */
  datatype Robot = Robot(id: Text, ledger: J.Ledger, tasks: map<nat, Task>, starts: seq<Assignment>, sent: set<Message>)

  function Fresh(id: Text): Robot {
    Robot(id, J.EMPTY, map[], [], {})
  }

  datatype Action =
    | Refuse(message: Message, description: Text)
    | Receive(message: Message, task: nat, description: Text)
    | Start(task: nat)
    | Return(task: nat, outcome: Outcome)
    | Look(task: nat)
    | Finish(task: nat)
    | Answer(message: Message)
    | LookCancel(message: Message, task: nat)
    | NativeCancel(task: nat, granted: bool, description: Text)
    | FinishCancel(task: nat)
    | Resolve(id: Text, status: AssignmentStatus, description: Text, documented: bool)
    | OpenJournal
    | Crash

  function Send(r: Robot, messages: set<Message>): Robot {
    r.(sent := r.sent + messages)
  }

  function Unrecorded(r: Robot, id: Text, description: Text, status: TerminalStatus): set<Message> {
    {Ack(r.id, id, status), Report(r.id, Outcome(id, r.id, description, status))}
  }

  /** `_assignment` from the claim on, once the admission checks have passed. */
  function Claim(r: Robot, m: Message, k: nat, description: Text): Robot
    requires m.Assign?
  {
    var a := m.assignment;
    match J.Claim(r.ledger, a, m.source)
    case Err(_) => r
    case Ok((ledger, New)) =>
      Send(r.(ledger := ledger, tasks := r.tasks[k := Admitted(a)]), {Ack(r.id, a.id, Accepted)})
    case Ok((_, Replay(o))) => Send(r, {Ack(r.id, a.id, o.status), Report(r.id, o)})
    case Ok((_, Conflict)) => Send(r, Unrecorded(r, a.id, description, Rejected))
    case Ok((_, ResourceConflict)) => Send(r, Unrecorded(r, a.id, description, Rejected))
    case Ok((_, Uncertain)) => Send(r, Unrecorded(r, a.id, description, Unknown))
  }

  function EndTask(r: Robot, k: nat): Robot {
    r.(tasks := r.tasks - {k})
  }

  /** Record an outcome and announce it; a refused recording ends the handler silently. */
  function Record(r: Robot, k: nat, a: Assignment, o: Outcome, messages: set<Message>): Robot {
    match J.Complete(r.ledger, a, o)
    case Ok(ledger) => Send(EndTask(r, k).(ledger := ledger), messages)
    case Err(_) => EndTask(r, k)
  }

  predicate Concerns(r: Robot, m: Message) {
    (m.Query? || m.CancelRequest?) && m.robot == r.id && m.id in r.ledger.rows && r.ledger.rows[m.id].issuer == m.source
  }

  /** One step; an action that is not enabled changes nothing. */
  function Act(r: Robot, act: Action): Robot {
    match act
    case Refuse(m, description) =>
      if m.Assign? && m.assignment.step.robot == r.id then
        Send(r, Unrecorded(r, m.assignment.id, description, Rejected))
      else r
    case Receive(m, k, description) =>
      if m.Assign? && m.assignment.step.robot == r.id && k !in r.tasks then Claim(r, m, k, description) else r
    case Start(k) =>
      if k in r.tasks && r.tasks[k].Admitted? then
        var a := r.tasks[k].assignment;
        r.(tasks := r.tasks[k := Running(a)], starts := r.starts + [a])
      else r
    case Return(k, o) =>
      if k in r.tasks && r.tasks[k].Running? && o.assignmentId == r.tasks[k].assignment.id && o.robot == r.id then
        r.(tasks := r.tasks[k := Returned(r.tasks[k].assignment, o)])
      else r
    case Look(k) =>
      if k in r.tasks && r.tasks[k].Returned? then
        var t := r.tasks[k];
        match J.Lookup(r.ledger, t.assignment.id)
        case Some(Row(_, _, _, Some(o))) => Send(EndTask(r, k), {Report(r.id, o)})
        case _ => r.(tasks := r.tasks[k := Completing(t.assignment, t.outcome)])
      else r
    case Finish(k) =>
      if k in r.tasks && r.tasks[k].Completing? then
        var t := r.tasks[k];
        Record(r, k, t.assignment, t.outcome, {Report(r.id, t.outcome)})
      else r
    case Answer(m) =>
      if m.Query? && Concerns(r, m) then
        var row := r.ledger.rows[m.id];
        Send(r, {Snapshot(r.id, m.id, row.status, row.assignment, row.outcome)})
      else r
    case LookCancel(m, k) =>
      if m.CancelRequest? && Concerns(r, m) && k !in r.tasks then
        var row := r.ledger.rows[m.id];
        if row.outcome.Some? then Send(r, {CancelAck(r.id, m.id, AlreadyTerminal), Report(r.id, row.outcome.value)})
        else if row.status == Unknown then Send(r, {CancelAck(r.id, m.id, CancelUnknown)})
        else r.(tasks := r.tasks[k := Cancelling(row.assignment)])
      else r
    case NativeCancel(k, granted, description) =>
      if k in r.tasks && r.tasks[k].Cancelling? then
        var a := r.tasks[k].assignment;
        if granted then r.(tasks := r.tasks[k := CancelGranted(a, Outcome(a.id, r.id, description, Cancelled))])
        else Send(EndTask(r, k), {CancelAck(r.id, a.id, CancelRejected)})
      else r
    case FinishCancel(k) =>
      if k in r.tasks && r.tasks[k].CancelGranted? then
        var t := r.tasks[k];
        Record(r, k, t.assignment, t.outcome,
          {CancelAck(r.id, t.assignment.id, CancelAccepted), Report(r.id, t.outcome)})
      else r
    case Resolve(id, status, description, documented) =>
      (match J.ResolveUnknown(r.ledger, id, status, description, documented)
       case Ok((ledger, _)) => r.(ledger := ledger)
       case Err(_) => r)
    case OpenJournal => r.(ledger := J.Restart(r.ledger))
    case Crash => r.(ledger := J.Restart(r.ledger), tasks := map[])
  }

  function RunAll(r: Robot, acts: seq<Action>): Robot {
    if acts == [] then r else Act(RunAll(r, acts[..|acts| - 1]), acts[|acts| - 1])
  }

  // ---------------------------------------------------------------- invariant

  /** The journal row with this identifier was claimed for exactly this assignment. */
  predicate ClaimedAs(r: Robot, a: Assignment) {
    a.id in r.ledger.rows && r.ledger.rows[a.id].assignment == a
  }

  predicate Recorded(r: Robot, o: Outcome) {
    o.assignmentId in r.ledger.rows && r.ledger.rows[o.assignmentId].outcome == Some(o)
  }

  predicate OwnRows(r: Robot) {
    && (forall id :: id in r.ledger.rows ==> r.ledger.rows[id].assignment.step.robot == r.id)
    && (forall id :: id in r.ledger.rows && r.ledger.rows[id].outcome.Some? ==>
      r.ledger.rows[id].outcome.value.assignmentId == id && r.ledger.rows[id].outcome.value.robot == r.id)
  }

  predicate TaskOk(r: Robot, t: Task) {
    && ClaimedAs(r, t.assignment)
    && ((t.Returned? || t.Completing? || t.CancelGranted?) ==>
      t.outcome.assignmentId == t.assignment.id && t.outcome.robot == r.id)
  }

  predicate TasksOk(r: Robot) {
    forall k :: k in r.tasks ==> TaskOk(r, r.tasks[k])
  }

  /** Native work starts once per identifier, and a claim waiting to start has not started. */
  predicate StartsOk(r: Robot) {
    && (forall i :: 0 <= i < |r.starts| ==> ClaimedAs(r, r.starts[i]))
    && (forall i, j :: 0 <= i < j < |r.starts| ==> r.starts[i].id != r.starts[j].id)
    && (forall k, i :: k in r.tasks && r.tasks[k].Admitted? && 0 <= i < |r.starts| ==>
      r.starts[i].id != r.tasks[k].assignment.id)
    && (forall k, l :: k in r.tasks && l in r.tasks && k != l && r.tasks[k].Admitted? && r.tasks[l].Admitted? ==>
      r.tasks[k].assignment.id != r.tasks[l].assignment.id)
  }

  /** A definite report or a snapshot is true when the journal of `r` records it. */
  predicate Truthful(r: Robot, m: Message) {
    && m.source == r.id
    && (m.Report? ==> m.outcome.robot == r.id && (Definite(m.outcome.status) ==> Recorded(r, m.outcome)))
    && (m.Snapshot? ==> m.id in r.ledger.rows && r.ledger.rows[m.id].assignment == m.assignment)
    && (m.Snapshot? && m.result.Some? ==>
      Recorded(r, m.result.value) && m.result.value.assignmentId == m.id && m.status == m.result.value.status)
  }

  predicate SentOk(r: Robot) {
    forall m :: m in r.sent ==> Truthful(r, m)
  }

  ghost predicate Inv(r: Robot) {
    J.Inv(r.ledger) && OwnRows(r) && TasksOk(r) && StartsOk(r) && SentOk(r)
  }

  /** Rows and recorded outcomes are never lost or altered. */
  predicate Grows(l: J.Ledger, l': J.Ledger) {
    forall id :: id in l.rows ==>
      && id in l'.rows && l'.rows[id].assignment == l.rows[id].assignment
      && (l.rows[id].outcome.Some? ==> l'.rows[id].outcome == l.rows[id].outcome)
  }

  lemma CallGrows(l: J.Ledger, c: J.Call)
    ensures Grows(l, J.Respond(l, c).0)
  {
  }

  /** What was true of the journal stays true as it grows. */
  lemma GrowthKeepsFacts(r: Robot, r': Robot)
    requires SentOk(r) && r'.id == r.id && Grows(r.ledger, r'.ledger)
    requires forall m :: m in r'.sent && m !in r.sent ==> Truthful(r', m)
    ensures SentOk(r')
  {
  }

  lemma GrowthKeepsTasks(r: Robot, r': Robot)
    requires TasksOk(r) && r'.id == r.id && Grows(r.ledger, r'.ledger)
    requires forall k :: k in r'.tasks ==> (k in r.tasks && r'.tasks[k] == r.tasks[k]) || TaskOk(r', r'.tasks[k])
    ensures TasksOk(r')
  {
  }

  /** Without a new start or a new admission, nothing can start twice. */
  lemma GrowthKeepsStarts(r: Robot, r': Robot)
    requires StartsOk(r) && r'.starts == r.starts && Grows(r.ledger, r'.ledger)
    requires forall k :: k in r'.tasks && r'.tasks[k].Admitted? ==> k in r.tasks && r.tasks[k] == r'.tasks[k]
    ensures StartsOk(r')
  {
  }

  /** A step that leaves the journal alone, ends or advances one task, and says only true things. */
  lemma QuietStepKeepsInv(r: Robot, r': Robot, k: nat, messages: set<Message>)
    requires Inv(r) && r' == r.(tasks := r'.tasks, sent := r.sent + messages)
    requires forall l :: l in r'.tasks && l != k ==> l in r.tasks && r'.tasks[l] == r.tasks[l]
    requires k in r'.tasks ==>
      r'.tasks[k] == (if k in r.tasks then r.tasks[k] else r'.tasks[k]) || !r'.tasks[k].Admitted?
    requires k in r'.tasks ==> TaskOk(r, r'.tasks[k]) && (r'.tasks[k].Admitted? ==> k in r.tasks)
    requires forall m :: m in messages ==> Truthful(r, m)
    ensures Inv(r')
  {
    GrowthKeepsStarts(r, r');
  }

  /** A newly claimed identifier was never started and is not waiting elsewhere. */
  lemma AdmitKeepsStarts(r: Robot, r': Robot, a: Assignment, k: nat)
    requires TasksOk(r) && StartsOk(r) && a.id !in r.ledger.rows && ClaimedAs(r', a)
    requires r'.tasks == r.tasks[k := Admitted(a)] && r'.starts == r.starts && Grows(r.ledger, r'.ledger)
    ensures StartsOk(r')
  {
  }

  lemma AdmitKeepsInv(r: Robot, r': Robot, a: Assignment, issuer: Text, k: nat)
    requires Inv(r) && k !in r.tasks && a.step.robot == r.id && a.id !in r.ledger.rows
    requires r' == r.(
      ledger := r'.ledger,
      tasks := r.tasks[k := Admitted(a)],
      sent := r.sent + {Ack(r.id, a.id, Accepted)})
    requires J.Inv(r'.ledger) && r'.ledger.rows == r.ledger.rows[a.id := J.Row(a, issuer, Accepted, None)]
    ensures Inv(r')
  {
    GrowthKeepsFacts(r, r');
    GrowthKeepsTasks(r, r');
    AdmitKeepsStarts(r, r', a, k);
  }

  lemma ReceiveKeepsInv(r: Robot, m: Message, k: nat, description: Text)
    requires Inv(r) && m.Assign? && m.assignment.step.robot == r.id && k !in r.tasks
    ensures Inv(Claim(r, m, k, description))
  {
    var a, r' := m.assignment, Claim(r, m, k, description);
    match J.Claim(r.ledger, a, m.source) {
      case Err(_) =>
      case Ok((_, New)) =>
        J.ClaimKeepsInv(r.ledger, a, m.source);
        AdmitKeepsInv(r, r', a, m.source, k);
      case Ok((_, Replay(o))) => QuietStepKeepsInv(r, r', k, {Ack(r.id, a.id, o.status), Report(r.id, o)});
      case Ok((_, Conflict)) => QuietStepKeepsInv(r, r', k, Unrecorded(r, a.id, description, Rejected));
      case Ok((_, ResourceConflict)) => QuietStepKeepsInv(r, r', k, Unrecorded(r, a.id, description, Rejected));
      case Ok((_, Uncertain)) => QuietStepKeepsInv(r, r', k, Unrecorded(r, a.id, description, Unknown));
    }
  }

  lemma StartKeepsInv(r: Robot, k: nat)
    requires Inv(r)
    ensures Inv(Act(r, Start(k)))
  {
  }

  lemma RecordKeepsInv(r: Robot, k: nat, a: Assignment, o: Outcome, messages: set<Message>)
    requires Inv(r) && ClaimedAs(r, a) && o.assignmentId == a.id && o.robot == r.id
    requires forall m :: m in messages ==> m.source == r.id && !m.Snapshot? && (m.Report? ==> m.outcome == o)
    ensures Inv(Record(r, k, a, o, messages))
  {
    var r' := Record(r, k, a, o, messages);
    if J.Complete(r.ledger, a, o).Ok? {
      J.SettleKeepsReserved(r.ledger, a.id, o);
      assert r'.ledger.rows == r.ledger.rows[a.id := r.ledger.rows[a.id].(status := o.status, outcome := Some(o))];
      GrowthKeepsFacts(r, r');
    }
    GrowthKeepsTasks(r, r');
    GrowthKeepsStarts(r, r');
  }

  lemma JournalStepKeepsInv(r: Robot, r': Robot, c: J.Call)
    requires Inv(r) && (c.Reopen? || c.ResolveCall?)
    requires r' == r.(ledger := J.Respond(r.ledger, c).0) ||
      r' == r.(ledger := J.Respond(r.ledger, c).0, tasks := map[])
    ensures Inv(r')
  {
    J.CallKeepsInv(r.ledger, c);
    CallGrows(r.ledger, c);
    GrowthKeepsFacts(r, r');
    GrowthKeepsTasks(r, r');
    GrowthKeepsStarts(r, r');
  }

  lemma LookKeepsInv(r: Robot, k: nat)
    requires Inv(r) && k in r.tasks && r.tasks[k].Returned?
    ensures Inv(Act(r, Look(k)))
  {
    var row := r.ledger.rows[r.tasks[k].assignment.id];
    if row.outcome.Some? {
      QuietStepKeepsInv(r, Act(r, Look(k)), k, {Report(r.id, row.outcome.value)});
    } else {
      QuietStepKeepsInv(r, Act(r, Look(k)), k, {});
    }
  }

  lemma LookCancelKeepsInv(r: Robot, m: Message, k: nat)
    requires Inv(r) && m.CancelRequest? && Concerns(r, m) && k !in r.tasks
    ensures Inv(Act(r, LookCancel(m, k)))
  {
    var row := r.ledger.rows[m.id];
    if row.outcome.Some? {
      QuietStepKeepsInv(r, Act(r, LookCancel(m, k)), k,
        {CancelAck(r.id, m.id, AlreadyTerminal), Report(r.id, row.outcome.value)});
    } else if row.status == Unknown {
      QuietStepKeepsInv(r, Act(r, LookCancel(m, k)), k, {CancelAck(r.id, m.id, CancelUnknown)});
    } else {
      QuietStepKeepsInv(r, Act(r, LookCancel(m, k)), k, {});
    }
  }

  /** Steps that only read the journal. */
  lemma ReadOnlyKeepsInv(r: Robot, act: Action)
    requires Inv(r) && Act(r, act) != r
    requires (act.Refuse? || act.Return? || act.Look? || act.Answer? || act.LookCancel? || act.NativeCancel?)
    ensures Inv(Act(r, act))
  {
    if act.Refuse? {
      QuietStepKeepsInv(r, Act(r, act), 0, Unrecorded(r, act.message.assignment.id, act.description, Rejected));
    } else if act.Return? {
      QuietStepKeepsInv(r, Act(r, act), act.task, {});
    } else if act.Look? {
      LookKeepsInv(r, act.task);
    } else if act.Answer? {
      var row := r.ledger.rows[act.message.id];
      QuietStepKeepsInv(r, Act(r, act), 0, {Snapshot(r.id, act.message.id, row.status, row.assignment, row.outcome)});
    } else if act.LookCancel? {
      LookCancelKeepsInv(r, act.message, act.task);
    } else if act.granted {
      QuietStepKeepsInv(r, Act(r, act), act.task, {});
    } else {
      QuietStepKeepsInv(r, Act(r, act), act.task, {CancelAck(r.id, r.tasks[act.task].assignment.id, CancelRejected)});
    }
  }

  lemma ActKeepsInv(r: Robot, act: Action)
    requires Inv(r)
    ensures Inv(Act(r, act))
  {
    match act {
      case Receive(m, k, description) =>
        if m.Assign? && m.assignment.step.robot == r.id && k !in r.tasks { ReceiveKeepsInv(r, m, k, description); }
      case Start(k) => StartKeepsInv(r, k);
      case Finish(k) =>
        if k in r.tasks && r.tasks[k].Completing? {
          RecordKeepsInv(r, k, r.tasks[k].assignment, r.tasks[k].outcome, {Report(r.id, r.tasks[k].outcome)});
        }
      case FinishCancel(k) =>
        if k in r.tasks && r.tasks[k].CancelGranted? {
          var t := r.tasks[k];
          RecordKeepsInv(r, k, t.assignment, t.outcome,
            {CancelAck(r.id, t.assignment.id, CancelAccepted), Report(r.id, t.outcome)});
        }
      case Resolve(id, status, description, documented) =>
        JournalStepKeepsInv(r, Act(r, act), J.ResolveCall(id, status, description, documented));
      case OpenJournal => JournalStepKeepsInv(r, Act(r, act), J.Reopen);
      case Crash => JournalStepKeepsInv(r, Act(r, act), J.Reopen);
      case Refuse(_, _) => if Act(r, act) != r { ReadOnlyKeepsInv(r, act); }
      case Return(_, _) => if Act(r, act) != r { ReadOnlyKeepsInv(r, act); }
      case Look(_) => if Act(r, act) != r { ReadOnlyKeepsInv(r, act); }
      case Answer(_) => if Act(r, act) != r { ReadOnlyKeepsInv(r, act); }
      case LookCancel(_, _) => if Act(r, act) != r { ReadOnlyKeepsInv(r, act); }
      case NativeCancel(_, _, _) => if Act(r, act) != r { ReadOnlyKeepsInv(r, act); }
    }
  }

  lemma ActKeepsId(r: Robot, act: Action)
    ensures Act(r, act).id == r.id
  {
  }

  /** Each step makes at most one journal call, and claims only for the assignment it received. */
  lemma ActLedger(r: Robot, act: Action)
    ensures Act(r, act).ledger == r.ledger || exists c ::
      && Act(r, act).ledger == J.Respond(r.ledger, c).0
      && (c.ClaimCall? ==> act.Receive? && act.message.Assign? && c.assignment == act.message.assignment)
  {
    var r' := Act(r, act);
    match act {
      case Receive(m, _, _) =>
        if m.Assign? { assert r'.ledger == r.ledger ||
          r'.ledger == J.Respond(r.ledger, J.ClaimCall(m.assignment, m.source)).0; }
      case Finish(k) =>
        if k in r.tasks && r.tasks[k].Completing? { assert r'.ledger ==
          J.Respond(r.ledger, J.CompleteCall(r.tasks[k].assignment, r.tasks[k].outcome)).0; }
      case FinishCancel(k) =>
        if k in r.tasks && r.tasks[k].CancelGranted? { assert r'.ledger ==
          J.Respond(r.ledger, J.CompleteCall(r.tasks[k].assignment, r.tasks[k].outcome)).0; }
      case Resolve(id, status, description, documented) =>
        assert r'.ledger == J.Respond(r.ledger, J.ResolveCall(id, status, description, documented)).0;
      case OpenJournal => assert r'.ledger == J.Respond(r.ledger, J.Reopen).0;
      case Crash => assert r'.ledger == J.Respond(r.ledger, J.Reopen).0;
      case _ => assert r'.ledger == r.ledger;
    }
  }

  lemma CallRows(l: J.Ledger, c: J.Call, id: Text)
    requires id in J.Respond(l, c).0.rows && id !in l.rows
    ensures c.ClaimCall? && J.Respond(l, c).0.rows[id].assignment == c.assignment
  {
  }

  /** The journal grows, and a new row can only be the assignment just received. */
  lemma ActGrows(r: Robot, act: Action)
    ensures Grows(r.ledger, Act(r, act).ledger)
    ensures forall id :: id in Act(r, act).ledger.rows && id !in r.ledger.rows ==>
      act.Receive? && act.message.Assign? && Act(r, act).ledger.rows[id].assignment == act.message.assignment
  {
    ActLedger(r, act);
    var l' := Act(r, act).ledger;
    if l' != r.ledger {
      var c :| l' == J.Respond(r.ledger, c).0 &&
        (c.ClaimCall? ==> act.Receive? && act.message.Assign? && c.assignment == act.message.assignment);
      CallGrows(r.ledger, c);
      forall id | id in l'.rows && id !in r.ledger.rows { CallRows(r.ledger, c, id); }
    }
  }

  /** The assignment a robot's message speaks of. */
  function Subject(m: Message): Option<Text> {
    match m
    case Ack(_, id, _) => Some(id)
    case Report(_, o) => Some(o.assignmentId)
    case Snapshot(_, id, _, _, _) => Some(id)
    case CancelAck(_, id, _) => Some(id)
    case _ => None
  }

  lemma ClaimSubject(r: Robot, m: Message, k: nat, description: Text, x: Message)
    requires OwnRows(r) && m.Assign? && x in Claim(r, m, k, description).sent && x !in r.sent
    ensures Subject(x) == Some(m.assignment.id)
  {
  }

  lemma TaskSubject(r: Robot, act: Action, x: Message)
    requires OwnRows(r) && TasksOk(r) && (act.Look? || act.Finish? || act.NativeCancel? || act.FinishCancel?)
    requires x in Act(r, act).sent && x !in r.sent
    ensures Subject(x).Some? && Subject(x).value in r.ledger.rows
  {
  }

  /** A robot speaks only of what its journal holds or what it has just been assigned. */
  lemma NewMessageSubject(r: Robot, act: Action, m: Message)
    requires Inv(r) && m in Act(r, act).sent && m !in r.sent
    ensures Subject(m).Some?
    ensures Subject(m).value in r.ledger.rows || (
      (act.Refuse? || act.Receive?) && act.message.Assign? && Subject(m).value == act.message.assignment.id)
  {
    if act.Receive? {
      ClaimSubject(r, act.message, act.task, act.description, m);
    } else if act.Look? || act.Finish? || act.NativeCancel? || act.FinishCancel? {
      TaskSubject(r, act, m);
    }
  }

  lemma RobotsAssignNothing(r: Robot, act: Action, m: Message)
    requires m in Act(r, act).sent && m !in r.sent
    ensures !m.Assign?
  {
  }

  lemma FreshInv(id: Text)
    ensures Inv(Fresh(id))
  {
  }

  // ---------------------------------------------------------------- every interleaving

  lemma {:induction false} AlwaysInv(id: Text, acts: seq<Action>)
    ensures Inv(RunAll(Fresh(id), acts)) && RunAll(Fresh(id), acts).id == id
  {
    if acts == [] {
      FreshInv(id);
    } else {
      AlwaysInv(id, acts[..|acts| - 1]);
      ActKeepsId(RunAll(Fresh(id), acts[..|acts| - 1]), acts[|acts| - 1]);
      ActKeepsInv(RunAll(Fresh(id), acts[..|acts| - 1]), acts[|acts| - 1]);
    }
  }

  /** Single truth: whatever messages arrive and however the handlers interleave, every
      success, failure or cancellation a robot reports is the outcome in its journal. */
  lemma SingleTruth(id: Text, acts: seq<Action>, o: Outcome)
    requires Report(id, o) in RunAll(Fresh(id), acts).sent && Definite(o.status)
    ensures Recorded(RunAll(Fresh(id), acts), o)
    ensures forall o' ::
      Report(id, o') in RunAll(Fresh(id), acts).sent && Definite(o'.status) && o'.assignmentId == o.assignmentId ==>
        o' == o
  {
    AlwaysInv(id, acts);
    var r := RunAll(Fresh(id), acts);
    forall o' | Report(id, o') in r.sent && Definite(o'.status) && o'.assignmentId == o.assignmentId ensures o' == o {
      assert Recorded(r, o') && Recorded(r, o);
    }
  }

  /** Native work starts at most once per assignment identifier, crashes included. */
  lemma NativeStartsOnce(id: Text, acts: seq<Action>, i: nat, j: nat)
    requires i < j < |RunAll(Fresh(id), acts).starts|
    ensures RunAll(Fresh(id), acts).starts[i].id != RunAll(Fresh(id), acts).starts[j].id
  {
    AlwaysInv(id, acts);
  }

  // ---------------------------------------------------------------- reports that are not recorded

  /** Every report of this status, in every run of the robot, is the outcome in its journal. */
  ghost predicate AlwaysRecorded(id: Text, status: TerminalStatus) {
    forall acts, o :: Report(id, o) in RunAll(Fresh(id), acts).sent && o.status == status ==>
      Recorded(RunAll(Fresh(id), acts), o)
  }

  lemma RunTwo(r: Robot, a: Action, b: Action)
    ensures RunAll(r, [a]) == Act(r, a) && RunAll(r, [a, b]) == Act(Act(r, a), b)
  {
  }

  lemma FirstClaim(m: Message, k: nat, description: Text)
    requires m.Assign? && Distinct(m.assignment.step.resources)
    ensures var id := m.assignment.step.robot; var r := Act(Fresh(id), Receive(m, k, description));
      ClaimedAs(r, m.assignment) && r.ledger.rows[m.assignment.id].outcome.None? &&
        r.ledger.rows[m.assignment.id].issuer == m.source && r.id == id && r.tasks.Keys == {k} &&
          r.tasks[k] == Admitted(m.assignment)
  {
  }

  /** Exactly successes, failures and cancellations are always recorded: a rejection is sent
      without a journal entry, and an interrupted assignment is reported unknown before anyone resolves it. */
  lemma RecordedExactlyWhenDefinite(m: Message, description: Text, status: TerminalStatus)
    requires m.Assign? && Distinct(m.assignment.step.resources)
    ensures AlwaysRecorded(m.assignment.step.robot, status) <==> Definite(status)
  {
    var id, a := m.assignment.step.robot, m.assignment;
    if Definite(status) {
      forall acts, o | Report(id, o) in RunAll(Fresh(id), acts).sent && o.status == status
        ensures Recorded(RunAll(Fresh(id), acts), o)
      {
        SingleTruth(id, acts, o);
      }
    } else if status == Rejected {
      var refused := RunAll(Fresh(id), [Refuse(m, description)]);
      RunTwo(Fresh(id), Refuse(m, description), Crash);
      assert Report(id, Outcome(a.id, id, description, Rejected)) in refused.sent;
      assert !Recorded(refused, Outcome(a.id, id, description, Rejected));
    } else {
      var first, again := Receive(m, 0, description), Receive(m, 1, description);
      FirstClaim(m, 0, description);
      RunTwo(Fresh(id), first, again);
      var r := RunAll(Fresh(id), [first, again]);
      assert Report(id, Outcome(a.id, id, description, Unknown)) in r.sent;
      assert !Recorded(r, Outcome(a.id, id, description, Unknown));
    }
  }

  /** What the admission checks of `_assignment` see, in the order in which they look. */
  datatype Checks = Checks(now: int, authorized: bool, advertised: bool, conforms: bool)

  predicate Admits(a: Assignment, c: Checks) {
    && (a.step.notBefore.Some? ==> c.now >= a.step.notBefore.value)
    && (a.step.deadline.Some? ==> c.now <= a.step.deadline.value)
    && c.authorized && c.advertised && c.conforms
  }

  /** The checks come before the journal is consulted. */
  function OnAssignment(m: Message, c: Checks, k: nat, description: Text): Action
    requires m.Assign?
  {
    if Admits(m.assignment, c) then Receive(m, k, description) else Refuse(m, description)
  }

  /** The messages a step sends. */
  function Emitted(r: Robot, act: Action): set<Message> {
    Act(r.(sent := {}), act).sent
  }

  /** A repeated assignment message never starts work again, and it is answered with the
      recorded outcome exactly when it still passes the admission checks or that outcome is the
      very rejection; otherwise, say after the deadline, the answer contradicts the journal. */
  lemma RepeatReplaysExactlyWhenAdmitted(r: Robot, m: Message, c: Checks, k: nat, description: Text, o: Outcome)
    requires m.Assign? && m.assignment.step.robot == r.id && k !in r.tasks && ClaimedAs(r, m.assignment)
    requires r.ledger.rows[m.assignment.id].issuer == m.source && r.ledger.rows[m.assignment.id].outcome == Some(o)
    requires o.assignmentId == m.assignment.id
    ensures var emitted := Emitted(r, OnAssignment(m, c, k, description));
      var rejection := Outcome(m.assignment.id, r.id, description, Rejected);
      && (emitted == {Ack(r.id, o.assignmentId, o.status), Report(r.id, o)} <==>
          Admits(m.assignment, c) || o == rejection)
      && (!Admits(m.assignment, c) ==> Report(r.id, rejection) in emitted)
    ensures var r' := Act(r, OnAssignment(m, c, k, description));
      r'.ledger == r.ledger && r'.starts == r.starts && r'.tasks == r.tasks
  {
  }
}
