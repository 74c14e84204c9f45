/** When a message is handled a second time: exactly as long as its handling has not finished,
    some continuation starts it again. */
module Rehandling {
  import opened Outbox
  import opened Receiver
  import opened Handling

  /** The message is started once more in the course of the continuation. */
  predicate StartsAgain(n: Node, acts: seq<Action>, e: Envelope) {
    exists t :: |n.log| <= t < |RunAll(n, acts).log| && RunAll(n, acts).log[t] == Start(e)
  }

  // ---------------------------------------------------------------- continuations

  lemma {:induction false} RunConcat(n: Node, a: seq<Action>, b: seq<Action>)
    ensures RunAll(n, a + b) == RunAll(RunAll(n, a), b)
    ensures AllApart(n, a + b) <==> AllApart(n, a) && AllApart(RunAll(n, a), b)
  {
    if b == [] {
      assert a + b == a;
    } else {
      assert (a + b)[..|a + b| - 1] == a + b[..|b| - 1];
      RunConcat(n, a, b[..|b| - 1]);
    }
  }

  lemma StepLog(n: Node, act: Action)
    ensures n.log <= Act(n, act).log
  {
  }

  lemma {:induction false} LogGrows(n: Node, acts: seq<Action>)
    ensures n.log <= RunAll(n, acts).log
  {
    if acts != [] {
      var before := RunAll(n, acts[..|acts| - 1]);
      LogGrows(n, acts[..|acts| - 1]);
      StepLog(before, acts[|acts| - 1]);
    }
  }

  /** Steps that open no connection are always permitted. */
  predicate Internal(acts: seq<Action>) {
    forall i :: 0 <= i < |acts| ==> !acts[i].Open?
  }

  lemma {:induction false} InternalIsApart(n: Node, acts: seq<Action>)
    ensures Internal(acts) ==> AllApart(n, acts)
  {
    if acts != [] {
      InternalIsApart(n, acts[..|acts| - 1]);
    }
  }

  // ---------------------------------------------------------------- draining the inbox

  function ReceivedRows(n: Node): set<nat> {
    set i | i in n.inbox && n.inbox[i].status == Received
  }

  predicate NoneProcessing(n: Node) {
    forall i :: i in n.inbox ==> n.inbox[i].status != Processing
  }

  lemma {:induction false} Least(s: set<nat>) returns (m: nat)
    requires s != {}
    ensures m in s && forall x :: x in s ==> m <= x
  {
    var x :| x in s;
    m := x;
    if s != {x} {
      var rest := s - {x};
      assert s == rest + {x};
      var least := Least(rest);
      m := if x < least then x else least;
      assert forall y :: y in s ==> y == x || y in rest;
    }
  }

  /** Whatever waits, some row is next. */
  lemma SomeRowIsNext(n: Node, i: nat) returns (j: nat)
    requires NoneProcessing(n) && i in ReceivedRows(n)
    ensures j in n.inbox && IsNext(n, j)
  {
    var first := Least(ReceivedRows(n));
    var claimable := set k | k in n.inbox && Claimable(n, k);
    assert Claimable(n, first) by {
      assert forall k :: k in n.inbox && k < first ==> k !in ReceivedRows(n);
    }
    assert first in claimable;
    var urgent := set k | k in claimable && n.inbox[k].envelope.stream == Safety;
    if urgent == {} {
      j := Least(claimable);
      forall k | k in n.inbox && Claimable(n, k) ensures Before(n, j, k) {
        assert k in claimable && k !in urgent && j !in urgent;
      }
    } else {
      j := Least(urgent);
      forall k | k in n.inbox && Claimable(n, k) ensures Before(n, j, k) {
        assert k in claimable && (n.inbox[k].envelope.stream == Safety ==> k in urgent);
      }
    }
  }

  /** Handling the next row to its end. */
  lemma HandleNext(n: Node, j: nat) returns (r: Node)
    requires NoneProcessing(n) && j in n.inbox && IsNext(n, j)
    ensures r == RunAll(n, [ClaimRow(j), FinishRow(j, true)])
    ensures NoneProcessing(r) && ReceivedRows(r) == ReceivedRows(n) - {j} && n.log <= r.log
    ensures forall i :: i in ReceivedRows(r) ==> i in n.inbox && r.inbox[i] == n.inbox[i]
  {
    var claimed := Act(n, ClaimRow(j));
    r := Act(claimed, FinishRow(j, true));
    assert [ClaimRow(j), FinishRow(j, true)][..1] == [ClaimRow(j)] && [ClaimRow(j)][..0] == [];
    assert RunAll(n, [ClaimRow(j)]) == Act(RunAll(n, []), ClaimRow(j)) == claimed;
    assert claimed.inbox == n.inbox[j := n.inbox[j].(status := Processing)];
    assert r.inbox == n.inbox[j := n.inbox[j].(status := Processed)];
  }

  /** Workers reach every waiting row after finitely many others. */
  lemma {:induction false} Drain(n: Node, i: nat) returns (acts: seq<Action>)
    requires NoneProcessing(n) && i in ReceivedRows(n)
    ensures Internal(acts) && StartsAgain(n, acts, n.inbox[i].envelope)
    decreases |ReceivedRows(n)|
  {
    var j := SomeRowIsNext(n, i);
    if j == i {
      acts := [ClaimRow(i)];
      assert acts[..0] == [] && RunAll(n, acts) == Act(n, ClaimRow(i));
      assert RunAll(n, acts).log[|n.log|] == Start(n.inbox[i].envelope);
    } else {
      var r := HandleNext(n, j);
      assert i in ReceivedRows(r) && j in ReceivedRows(n);
      var rest := Drain(r, i);
      acts := [ClaimRow(j), FinishRow(j, true)] + rest;
      RunConcat(n, [ClaimRow(j), FinishRow(j, true)], rest);
      var t :| |r.log| <= t < |RunAll(r, rest).log| && RunAll(r, rest).log[t] == Start(r.inbox[i].envelope);
      assert |n.log| <= t && RunAll(n, acts).log[t] == Start(n.inbox[i].envelope);
    }
  }

  // ---------------------------------------------------------------- the exact condition

  lemma UnfinishedCanRestart(n: Node, e: Envelope) returns (acts: seq<Action>)
    requires Inv(n) && LogOk(n) && Begun(n.log, e) && !Finished(n.log, e)
    ensures AllApart(n, acts) && StartsAgain(n, acts, e)
  {
    var start :| 0 <= start < |n.log| && n.log[start] == Start(e);
    assert Safe(n, n.log[start].envelope);
    var i :| i in n.inbox && n.inbox[i].envelope == e && n.inbox[i].status != Staged;
    assert RowMatchesLog(n.log, n.inbox[i]);
    var crashed := Act(n, Crash);
    assert crashed.inbox[i] == InRow(e, Received);
    var rest := Drain(crashed, i);
    acts := [Crash] + rest;
    assert [Crash][..0] == [] && RunAll(n, [Crash]) == crashed;
    RunConcat(n, [Crash], rest);
    InternalIsApart(n, acts);
    var t :| |crashed.log| <= t < |RunAll(crashed, rest).log| && RunAll(crashed, rest).log[t] == Start(e);
    assert |n.log| <= t;
  }

  lemma FinishedNeverRestarts(n: Node, acts: seq<Action>, e: Envelope)
    requires ReachableNode(n) && AllApart(n, acts) && Begun(n.log, e) && Finished(n.log, e)
    ensures !StartsAgain(n, acts, e)
  {
    var before :| AllApart(INITIAL, before) && RunAll(INITIAL, before) == n;
    RunConcat(INITIAL, before, acts);
    var r := RunAll(n, acts);
    assert ReachableNode(r);
    LogGrows(n, acts);
    var u :| 0 <= u < |n.log| && n.log[u] == Start(e);
    var v :| 0 <= v < |n.log| && n.log[v] == Finish(e);
    forall t | |n.log| <= t < |r.log| ensures r.log[t] != Start(e) {
      if r.log[t] == Start(e) {
        HandledAgainOnlyAfterCrash(r, u, t);
        assert false;
      }
    }
  }

  /** A message whose handling has begun is started again in some continuation if and only if
      its handling has not finished. */
  lemma RestartsExactlyWhenUnfinished(n: Node, e: Envelope)
    requires ReachableNode(n) && Begun(n.log, e)
    ensures (exists acts :: AllApart(n, acts) && StartsAgain(n, acts, e)) <==> !Finished(n.log, e)
  {
    if Finished(n.log, e) {
      forall acts | AllApart(n, acts) ensures !StartsAgain(n, acts, e) {
        FinishedNeverRestarts(n, acts, e);
      }
    } else {
      var before :| AllApart(INITIAL, before) && RunAll(INITIAL, before) == n;
      HistoryKeepsLog(before);
      var acts := UnfinishedCanRestart(n, e);
    }
  }

  lemma OneMore(acts: seq<Action>, act: Action)
    requires AllApart(INITIAL, acts) && Apart(RunAll(INITIAL, acts), act)
    ensures AllApart(INITIAL, acts + [act]) && RunAll(INITIAL, acts + [act]) == Act(RunAll(INITIAL, acts), act)
  {
    assert (acts + [act])[..|acts|] == acts;
  }

  /** A message received and waiting, after the four steps that bring it there. */
  lemma Arrival(e: Envelope) returns (acts: seq<Action>)
    requires e.sequence >= 1
    ensures AllApart(INITIAL, acts)
    ensures RunAll(INITIAL, acts).inbox == map[0 := InRow(e, Received)] && RunAll(INITIAL, acts).log == []
  {
    acts := [];
    OneMore(acts, Open(0, e));
    acts := acts + [Open(0, e)];
    OneMore(acts, Stage(0));
    acts := acts + [Stage(0)];
    assert RunAll(INITIAL, acts) ==
      INITIAL.(connections := map[0 := Enqueued(e, true)], inbox := map[0 := InRow(e, Staged)], next := 1);
    OneMore(acts, Judge(0));
    acts := acts + [Judge(0)];
    assert RunAll(INITIAL, acts).connections == map[0 := Admitted(e)];
    OneMore(acts, Activate(0));
    acts := acts + [Activate(0)];
  }

  /** The run in which a message is handled twice: a crash while it is being handled. */
  lemma HandledTwice(e: Envelope) returns (acts: seq<Action>)
    requires e.sequence >= 1
    ensures AllApart(INITIAL, acts) && RunAll(INITIAL, acts).log == [Start(e), Restart, Start(e)]
  {
    acts := Arrival(e);
    OneMore(acts, ClaimRow(0));
    acts := acts + [ClaimRow(0)];
    OneMore(acts, Crash);
    acts := acts + [Crash];
    assert RunAll(INITIAL, acts).inbox == map[0 := InRow(e, Received)];
    OneMore(acts, ClaimRow(0));
    acts := acts + [ClaimRow(0)];
  }
}
