/** What connections that carry the same message at once can do to it: exactly when a stored
    message can still be lost, and how many such connections are too many. */
module Overlap {
  import opened Ump
  import opened Outbox
  import opened Receiver

  /** The connection inserted the message's row and may yet delete it again. */
  predicate MayDiscard(c: Connection, id: Text) {
    c.envelope.id == id && (c.Enqueued? || c.Replayed?) && c.isNew
  }

  predicate OpenDiscarder(n: Node, id: Text) {
    exists k :: k in n.connections && MayDiscard(n.connections[k], id)
  }

  predicate StillStaged(n: Node, e: Envelope) {
    exists i :: i in n.inbox && n.inbox[i] == InRow(e, Staged)
  }

  /** The row is still staged and the connection that inserted it has not passed its judgement. */
  predicate AtRisk(n: Node, e: Envelope) {
    StillStaged(n, e) && OpenDiscarder(n, e.id)
  }

  /** Identifiers determine messages, for the identifier of `e` and the open connections. */
  predicate Bound(n: Node, e: Envelope) {
    forall k :: k in n.connections && n.connections[k].envelope.id == e.id ==> n.connections[k].envelope == e
  }

  /** The open connections that carry a message with this identifier. */
  function Carrying(n: Node, id: Text): set<nat> {
    set k | k in n.connections && n.connections[k].envelope.id == id
  }

  /** A connection opens only while fewer than `c` others carry a message of its identifier. */
  predicate Within(n: Node, act: Action, c: nat) {
    act.Open? ==> |Carrying(n, act.envelope.id)| < c
  }

  predicate AllWithin(n: Node, acts: seq<Action>, c: nat) {
    acts == [] || (
      AllWithin(n, acts[..|acts| - 1], c) && Within(RunAll(n, acts[..|acts| - 1]), acts[|acts| - 1], c))
  }

  // ---------------------------------------------------------------- a message that is not at risk

  /** The message is stored and cannot be discarded. */
  predicate Secure(n: Node, e: Envelope) {
    ContainsExact(n, e) && !AtRisk(n, e)
  }

  lemma SecurityPersists(n: Node, act: Action, e: Envelope)
    requires UniqueIds(n) && Secure(n, e)
    ensures Secure(Act(n, act), e)
  {
    var i :| i in n.inbox && n.inbox[i].envelope == e;
    StepKeepsUnique(n, act);
    if n.inbox[i].status != Staged {
      if Discards(n, act) { DiscardEffect(n, act); } else { StepKeepsRows(n, act); }
      assert Act(n, act).inbox[i].envelope == e && Act(n, act).inbox[i].status != Staged;
    } else {
      assert n.inbox[i] == InRow(e, Staged);
      assert Retained(n, e);
      RetentionPersists(n, act, e);
    }
  }

  lemma {:induction false} HistoryKeepsSecure(n: Node, acts: seq<Action>, e: Envelope)
    requires UniqueIds(n) && Secure(n, e)
    ensures UniqueIds(RunAll(n, acts)) && Secure(RunAll(n, acts), e)
  {
    if acts != [] {
      HistoryKeepsSecure(n, acts[..|acts| - 1], e);
      StepKeepsUnique(RunAll(n, acts[..|acts| - 1]), acts[|acts| - 1]);
      SecurityPersists(RunAll(n, acts[..|acts| - 1]), acts[|acts| - 1], e);
    }
  }

  // ---------------------------------------------------------------- the run that loses it

  lemma {:induction false} SomeUnused(used: set<nat>) returns (l: nat)
    ensures l !in used && forall x :: x in used ==> x < l
  {
    l := 0;
    if used != {} {
      var x :| x in used;
      var above := SomeUnused(used - {x});
      assert forall y :: y in used ==> y == x || y in used - {x};
      l := if x < above then above else x + 1;
    }
  }

  lemma Then(n: Node, acts: seq<Action>, act: Action, c: nat)
    requires AllWithin(n, acts, c) && Within(RunAll(n, acts), act, c)
    ensures AllWithin(n, acts + [act], c) && RunAll(n, acts + [act]) == Act(RunAll(n, acts), act)
  {
    assert (acts + [act])[..|acts|] == acts;
  }

  /** A second connection with the stored message arrives. */
  lemma Arrives(n: Node, e: Envelope, l: nat, c: nat) returns (acts: seq<Action>)
    requires |Carrying(n, e.id)| < c && ContainsExact(n, e) && l !in n.connections
    ensures AllWithin(n, acts, c) && RunAll(n, acts) == Advance(n, l, Enqueued(e, false))
  {
    Then(n, [], Open(l, e), c);
    Then(n, [] + [Open(l, e)], Stage(l), c);
    acts := [] + [Open(l, e)] + [Stage(l)];
    assert RunAll(n, acts) == AfterStage(n, l, e);
    StageOutcome(n, l, e);
  }

  /** Its judgement raises the floor to the message, so that the first connection is refused. */
  lemma JudgedSecond(n: Node, e: Envelope, k: nat, l: nat)
    requires ContainsExact(n, e) && k in n.connections && l in n.connections && k != l
    requires n.connections[k] == Enqueued(e, true) || n.connections[k] == Replayed(e, true)
    requires n.connections[l] == Enqueued(e, false)
    ensures var r := Act(Act(Act(n, Judge(l)), Judge(k)), Check(l));
      && r.inbox == n.inbox && r.next == n.next && k in r.connections && r.connections[k] == Replayed(e, true)
      && l in r.connections && (r.connections[l] == Admitted(e) || r.connections[l] == Matched(e))
  {
    var first := Act(n, Judge(l));
    assert e.sequence <= Floor(first, LaneOf(e));
    var second := Act(first, Judge(k));
    assert second.connections[k] == Replayed(e, true);
    assert ContainsExact(second, e);
  }

  lemma Overtaken(n: Node, e: Envelope, k: nat, l: nat, c: nat) returns (acts: seq<Action>)
    requires |Carrying(n, e.id)| < c && ContainsExact(n, e) && k in n.connections && l !in n.connections
    requires n.connections[k] == Enqueued(e, true) || n.connections[k] == Replayed(e, true)
    ensures AllWithin(n, acts, c)
    ensures var r := RunAll(n, acts);
      && r.inbox == n.inbox && r.next == n.next && k in r.connections && r.connections[k] == Replayed(e, true)
      && l in r.connections && (r.connections[l] == Admitted(e) || r.connections[l] == Matched(e))
  {
    acts := Arrives(n, e, l, c);
    var arrived := RunAll(n, acts);
    assert ContainsExact(arrived, e);
    JudgedSecond(arrived, e, k, l);
    Then(n, acts, Judge(l), c);
    Then(n, acts + [Judge(l)], Judge(k), c);
    Then(n, acts + [Judge(l)] + [Judge(k)], Check(l), c);
    acts := acts + [Judge(l)] + [Judge(k)] + [Check(l)];
  }

  /** The first connection then deletes the row, and the second acknowledges the message. */
  lemma Discarded(n: Node, e: Envelope, k: nat, l: nat)
    requires UniqueIds(n) && StillStaged(n, e) && k != l && k in n.connections && n.connections[k] == Replayed(e, true)
    requires l in n.connections && (n.connections[l] == Admitted(e) || n.connections[l] == Matched(e))
    ensures var r := Act(Act(Act(n, Check(k)), Activate(l)), Acknowledge(l)); e.id in r.acks && !HasId(r, e.id)
  {
    var i :| i in n.inbox && n.inbox[i] == InRow(e, Staged);
    var discarded := Act(n, Check(k));
    assert discarded == DiscardStaged(Close(n, k), e.id);
    assert forall j :: j in n.inbox && n.inbox[j].envelope.id == e.id ==> j == i;
    assert !HasId(discarded, e.id);
    var activated := Act(discarded, Activate(l));
    assert forall j :: j in activated.inbox ==>
      j in discarded.inbox && activated.inbox[j].envelope == discarded.inbox[j].envelope;
  }

  lemma RiskIsReal(n: Node, e: Envelope, c: nat) returns (acts: seq<Action>)
    requires UniqueIds(n) && Bound(n, e) && AtRisk(n, e) && |Carrying(n, e.id)| < c
    ensures AllWithin(n, acts, c)
    ensures e.id in RunAll(n, acts).acks && !HasId(RunAll(n, acts), e.id)
  {
    var k :| k in n.connections && MayDiscard(n.connections[k], e.id);
    var l := SomeUnused(n.connections.Keys);
    acts := Overtaken(n, e, k, l, c);
    Discarded(RunAll(n, acts), e, k, l);
    Then(n, acts, Check(k), c);
    acts := acts + [Check(k)];
    Then(n, acts, Activate(l), c);
    acts := acts + [Activate(l)];
    Then(n, acts, Acknowledge(l), c);
    acts := acts + [Acknowledge(l)];
  }

  // ---------------------------------------------------------------- the exact conditions

  /** Some continuation acknowledges the message and has no row of it. */
  ghost predicate CanBeAcknowledgedAndLost(n: Node, e: Envelope) {
    exists acts :: e.id in RunAll(n, acts).acks && !HasId(RunAll(n, acts), e.id)
  }

  ghost predicate CanBeLost(n: Node, e: Envelope) {
    exists acts :: !ContainsExact(RunAll(n, acts), e)
  }

  /** A stored message can be lost in some continuation, and then also acknowledged and lost, if
      and only if its row is still staged and the connection that inserted it may yet discard it. */
  lemma LostExactlyWhenAtRisk(n: Node, e: Envelope)
    requires UniqueIds(n) && ContainsExact(n, e) && Bound(n, e)
    ensures CanBeLost(n, e) <==> AtRisk(n, e)
    ensures CanBeAcknowledgedAndLost(n, e) <==> AtRisk(n, e)
  {
    if AtRisk(n, e) {
      var acts := RiskIsReal(n, e, |Carrying(n, e.id)| + 1);
      assert ContainsExact(RunAll(n, acts), e) ==> HasId(RunAll(n, acts), e.id);
    } else {
      forall acts ensures ContainsExact(RunAll(n, acts), e) && HasId(RunAll(n, acts), e.id) {
        HistoryKeepsSecure(n, acts, e);
      }
    }
  }

  /** In every history with at most `c` connections for one message, what was acknowledged is stored. */
  ghost predicate NeverLoses(c: nat) {
    forall acts, id :: AllWithin(INITIAL, acts, c) && id in RunAll(INITIAL, acts).acks ==>
      SafeId(RunAll(INITIAL, acts), id)
  }

  lemma {:induction false} SingleIsApart(acts: seq<Action>, c: nat)
    requires c <= 1 && AllWithin(INITIAL, acts, c)
    ensures AllApart(INITIAL, acts)
  {
    if acts != [] {
      var init, act := acts[..|acts| - 1], acts[|acts| - 1];
      SingleIsApart(init, c);
      if act.Open? {
        assert Carrying(RunAll(INITIAL, init), act.envelope.id) == {};
        assert forall k :: k in RunAll(INITIAL, init).connections ==>
          k !in Carrying(RunAll(INITIAL, init), act.envelope.id);
      }
    }
  }

  lemma {:induction false} WithinConcat(n: Node, a: seq<Action>, b: seq<Action>, c: nat)
    requires AllWithin(n, a, c) && AllWithin(RunAll(n, a), b, c)
    ensures AllWithin(n, a + b, c) && RunAll(n, a + b) == RunAll(RunAll(n, a), b)
  {
    if b == [] {
      assert a + b == a;
    } else {
      assert (a + b)[..|a + b| - 1] == a + b[..|b| - 1];
      WithinConcat(n, a, b[..|b| - 1], c);
    }
  }

  /** With two connections for one message allowed, a history acknowledges it and loses it. */
  lemma TwoCanLose(e: Envelope, c: nat) returns (acts: seq<Action>)
    requires e.sequence >= 1 && c >= 2
    ensures AllWithin(INITIAL, acts, c) && e.id in RunAll(INITIAL, acts).acks && !SafeId(RunAll(INITIAL, acts), e.id)
  {
    assert Carrying(INITIAL, e.id) == {};
    Then(INITIAL, [], Open(0, e), c);
    Then(INITIAL, [Open(0, e)], Stage(0), c);
    acts := [Open(0, e)] + [Stage(0)];
    var staged := RunAll(INITIAL, acts);
    assert staged.inbox == map[0 := InRow(e, Staged)] && staged.connections == map[0 := Enqueued(e, true)];
    assert staged.inbox[0] == InRow(e, Staged) && MayDiscard(staged.connections[0], e.id);
    assert Carrying(staged, e.id) == {0};
    var rest := RiskIsReal(staged, e, c);
    WithinConcat(INITIAL, acts, rest, c);
    acts := acts + rest;
  }

  /** Whatever was acknowledged stays stored in every history if and only if no message is
      carried by two open connections at once. */
  lemma NeverLosesExactlyWithoutOverlap(c: nat, e: Envelope)
    requires e.sequence >= 1
    ensures NeverLoses(c) <==> c <= 1
  {
    if c <= 1 {
      forall acts, id | AllWithin(INITIAL, acts, c) && id in RunAll(INITIAL, acts).acks
        ensures SafeId(RunAll(INITIAL, acts), id)
      {
        SingleIsApart(acts, c);
        HistoryKeepsInv(INITIAL, acts);
      }
    } else {
      var acts := TwoCanLose(e, c);
    }
  }
}
