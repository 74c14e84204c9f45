/** What the inbox workers do with a message over a receiver's whole life: it is handled
    again only after a crash interrupted its handling, and never once it was finished. */
module Handling {
  import opened Ump
  import opened Outbox
  import opened Receiver

  predicate Begun(log: seq<Event>, e: Envelope) {
    Start(e) in log
  }

  predicate Finished(log: seq<Event>, e: Envelope) {
    Finish(e) in log
  }

  predicate CrashedAfter(log: seq<Event>, t: nat) {
    exists u :: t < u < |log| && log[u] == Restart
  }

  /** Every start of the message was followed by a crash. */
  predicate AlwaysInterrupted(log: seq<Event>, e: Envelope) {
    forall t :: 0 <= t < |log| && log[t] == Start(e) ==> CrashedAfter(log, t)
  }

  /** Between two starts of one message lies a crash, and the message was not finished before the second. */
  predicate RestartsOnlyAfterCrash(log: seq<Event>) {
    forall t, u :: 0 <= t < u < |log| && log[t].Start? && log[u] == log[t] ==>
      CrashedAfter(log[..u], t) && !Finished(log[..u], log[t].envelope)
  }

  predicate RowMatchesLog(log: seq<Event>, row: InRow) {
    match row.status
    case Staged => !Begun(log, row.envelope) && !Finished(log, row.envelope)
    case Received => AlwaysInterrupted(log, row.envelope) && !Finished(log, row.envelope)
    case Processing => Begun(log, row.envelope) && !Finished(log, row.envelope)
    case _ => Begun(log, row.envelope) && Finished(log, row.envelope)
  }

  predicate LogOk(n: Node) {
    && (forall t :: 0 <= t < |n.log| && !n.log[t].Restart? ==> Safe(n, n.log[t].envelope))
    && (forall i :: i in n.inbox ==> RowMatchesLog(n.log, n.inbox[i]))
    && RestartsOnlyAfterCrash(n.log)
  }

  lemma SafePersists(n: Node, n': Node, e: Envelope)
    requires Kept(n, n') && Safe(n, e)
    ensures Safe(n', e)
  {
  }

  /** Without a new event, rows may appear or leave `staged` and nothing else. */
  lemma QuietKeepsLog(n: Node, n': Node)
    requires UniqueIds(n) && LogOk(n) && n'.log == n.log
    requires forall e :: Safe(n, e) ==> Safe(n', e)
    requires forall i :: i in n'.inbox ==> (
      || (i in n.inbox && n'.inbox[i] == n.inbox[i])
      || (i in n.inbox && n.inbox[i].status == Staged && n'.inbox[i] == n.inbox[i].(status := Received))
      || (n'.inbox[i].status == Staged && !HasId(n, n'.inbox[i].envelope.id)))
    ensures LogOk(n')
  {
  }

  lemma AppendedRow(log: seq<Event>, ev: Event, row: InRow)
    requires RowMatchesLog(log, row) && !ev.Restart? && ev.envelope != row.envelope
    ensures RowMatchesLog(log + [ev], row)
  {
    if row.status == Received {
      forall t | 0 <= t < |log + [ev]| && (log + [ev])[t] == Start(row.envelope) ensures CrashedAfter(log + [ev], t) {
        assert log[t] == Start(row.envelope);
        var u :| t < u < |log| && log[u] == Restart;
        assert (log + [ev])[u] == Restart;
      }
    }
  }

  lemma AppendKeepsRestarts(log: seq<Event>, ev: Event)
    requires RestartsOnlyAfterCrash(log)
    requires ev.Start? ==> AlwaysInterrupted(log, ev.envelope) && !Finished(log, ev.envelope)
    ensures RestartsOnlyAfterCrash(log + [ev])
  {
    var all := log + [ev];
    forall t, u | 0 <= t < u < |all| && all[t].Start? && all[u] == all[t]
      ensures CrashedAfter(all[..u], t) && !Finished(all[..u], all[t].envelope)
    {
      if u < |log| {
        assert all[..u] == log[..u];
      } else {
        assert all[..u] == log && log[t] == Start(ev.envelope);
      }
    }
  }

  lemma ClaimKeepsLog(n: Node, i: nat)
    requires UniqueIds(n) && LogOk(n) && i in n.inbox && IsNext(n, i)
    ensures LogOk(Act(n, ClaimRow(i)))
  {
    var n', e := Act(n, ClaimRow(i)), n.inbox[i].envelope;
    assert RowMatchesLog(n.log, n.inbox[i]);
    AppendKeepsRestarts(n.log, Start(e));
    assert n'.inbox[i].envelope == e && n'.inbox[i].status == Processing;
    assert n'.log[|n.log|] == Start(e);
    forall j | j in n'.inbox && j != i ensures RowMatchesLog(n'.log, n'.inbox[j]) {
      assert RowMatchesLog(n.log, n.inbox[j]);
      AppendedRow(n.log, Start(e), n.inbox[j]);
    }
    EventsStaySafe(n, n', Start(e));
  }

  lemma EventsStaySafe(n: Node, n': Node, ev: Event)
    requires LogOk(n) && Kept(n, n') && n'.log == n.log + [ev] && (!ev.Restart? ==> Safe(n', ev.envelope))
    ensures forall t :: 0 <= t < |n'.log| && !n'.log[t].Restart? ==> Safe(n', n'.log[t].envelope)
  {
  }

  lemma FinishKeepsLog(n: Node, i: nat, ok: bool)
    requires UniqueIds(n) && LogOk(n) && i in n.inbox && n.inbox[i].status == Processing
    ensures LogOk(Act(n, FinishRow(i, ok)))
  {
    var n', e := Act(n, FinishRow(i, ok)), n.inbox[i].envelope;
    assert RowMatchesLog(n.log, n.inbox[i]);
    AppendKeepsRestarts(n.log, Finish(e));
    assert n'.inbox[i].envelope == e && n'.inbox[i].status != Staged;
    forall j | j in n'.inbox && j != i ensures RowMatchesLog(n'.log, n'.inbox[j]) {
      assert RowMatchesLog(n.log, n.inbox[j]);
      AppendedRow(n.log, Finish(e), n.inbox[j]);
    }
    EventsStaySafe(n, n', Finish(e));
  }

  lemma CrashKeepsLog(n: Node)
    requires UniqueIds(n) && LogOk(n)
    ensures LogOk(Act(n, Crash))
  {
    var n' := Act(n, Crash);
    AppendKeepsRestarts(n.log, Restart);
    assert n'.log[|n.log|] == Restart;
    forall j | j in n'.inbox ensures RowMatchesLog(n'.log, n'.inbox[j]) {
      assert RowMatchesLog(n.log, n.inbox[j]);
    }
    EventsStaySafe(n, n', Restart);
  }

  lemma OtherStepKeepsLog(n: Node, act: Action)
    requires Inv(n) && LogOk(n) && !act.ClaimRow? && !act.FinishRow? && !act.Crash?
    ensures LogOk(Act(n, act))
  {
    var n' := Act(n, act);
    if Discards(n, act) {
      DiscardEffect(n, act);
      forall e | Safe(n, e) ensures Safe(n', e) {
        var i :| i in n.inbox && n.inbox[i].envelope == e && n.inbox[i].status != Staged;
        assert n'.inbox[i] == n.inbox[i];
      }
    } else {
      StepKeepsRows(n, act);
      forall e | Safe(n, e) ensures Safe(n', e) { SafePersists(n, n', e); }
    }
    QuietKeepsLog(n, n');
  }

  lemma StepKeepsLog(n: Node, act: Action)
    requires Inv(n) && LogOk(n)
    ensures LogOk(Act(n, act))
  {
    if act.ClaimRow? {
      if act.order in n.inbox && IsNext(n, act.order) { ClaimKeepsLog(n, act.order); }
    } else if act.FinishRow? {
      if act.order in n.inbox && n.inbox[act.order].status == Processing { FinishKeepsLog(n, act.order, act.ok); }
    } else if act.Crash? {
      CrashKeepsLog(n);
    } else {
      OtherStepKeepsLog(n, act);
    }
  }

  lemma {:induction false} HistoryKeepsLog(acts: seq<Action>)
    requires AllApart(INITIAL, acts)
    ensures Inv(RunAll(INITIAL, acts)) && LogOk(RunAll(INITIAL, acts))
  {
    if acts != [] {
      var init := acts[..|acts| - 1];
      HistoryKeepsLog(init);
      StepKeepsLog(RunAll(INITIAL, init), acts[|acts| - 1]);
      StepKeepsInv(RunAll(INITIAL, init), acts[|acts| - 1]);
    }
  }

  /** A state some history of connections, workers and crashes can reach. */
  ghost predicate ReachableNode(n: Node) {
    exists acts :: AllApart(INITIAL, acts) && RunAll(INITIAL, acts) == n
  }

  /** A message is handled again only if the receiver crashed during its handling, and a
      finished message, successful or dead-lettered, is never handled again. */
  lemma HandledAgainOnlyAfterCrash(n: Node, t: nat, u: nat)
    requires ReachableNode(n) && t < u < |n.log| && n.log[t].Start? && n.log[u] == n.log[t]
    ensures CrashedAfter(n.log[..u], t) && !Finished(n.log[..u], n.log[t].envelope)
  {
    var acts :| AllApart(INITIAL, acts) && RunAll(INITIAL, acts) == n;
    HistoryKeepsLog(acts);
  }

  /** Every acknowledged message stays in the inbox past `staged` for ever, across crashes. */
  lemma AcknowledgedIsNeverLost(n: Node, acts: seq<Action>, id: Text)
    requires ReachableNode(n) && AllApart(n, acts) && id in n.acks
    ensures SafeId(RunAll(n, acts), id)
  {
    var before :| AllApart(INITIAL, before) && RunAll(INITIAL, before) == n;
    HistoryKeepsLog(before);
    HistoryKeepsInv(n, acts);
    AcksAccumulate(n, acts, id);
  }
}
