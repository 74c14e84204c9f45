/** Delivery can always make progress: every frame on the wire is acceptable to the receiver,
    so no lane ever wedges, and from every state every queued message can be brought to
    delivery. */
module Delivery {
  import opened Outbox
  import opened Receiver
  import opened Channel
  import MessageServer

  // ---------------------------------------------------------------- frames are acceptable

  /** In every reachable state each frame ever sent would be acknowledged if it were served now. */
  lemma SentIsAcceptable(s: System, e: Envelope)
    requires Reachable(s) && e in s.sent
    ensures Acceptable(s.node, e)
  {
    ReachableInv(s);
    if HasId(s.node, e.id) {
      var i :| i in s.node.inbox && s.node.inbox[i].envelope.id == e.id;
      var x := PositionOf(s, e);
      var y := PositionOf(s, s.node.inbox[i].envelope);
      assert x == y;
    } else {
      NewIsAboveFloor(s, e);
    }
  }

  // ---------------------------------------------------------------- runs

  lemma LeadsSelf(s: System)
    ensures Leads(s, s)
  {
    assert AllLegal(s, []) && RunMoves(s, []) == s;
  }

  lemma {:induction false} MovesConcat(s: System, a: seq<Move>, b: seq<Move>)
    ensures RunMoves(s, a + b) == RunMoves(RunMoves(s, a), b)
    ensures AllLegal(s, a + b) <==> AllLegal(s, a) && AllLegal(RunMoves(s, a), b)
  {
    if b == [] {
      assert a + b == a;
    } else {
      assert (a + b)[..|a + b| - 1] == a + b[..|b| - 1];
      MovesConcat(s, a, b[..|b| - 1]);
    }
  }

  lemma LeadsOn(s: System, t: System, u: System)
    requires Leads(s, t) && Leads(t, u)
    ensures Leads(s, u)
  {
    var a :| AllLegal(s, a) && RunMoves(s, a) == t;
    var b :| AllLegal(t, b) && RunMoves(t, b) == u;
    MovesConcat(s, a, b);
  }

  lemma LeadsStep(s: System, t: System, m: Move)
    requires Leads(s, t) && Legal(t, m)
    ensures Leads(s, Step(t, m))
  {
    var a :| AllLegal(s, a) && RunMoves(s, a) == t;
    assert (a + [m])[..|a|] == a;
    assert AllLegal(s, a + [m]) && RunMoves(s, a + [m]) == Step(t, m);
  }

  lemma NodeActs(s: System, t: System, act: Action) returns (u: System)
    requires Leads(s, t) && Apart(t.node, act) && (act.Open? ==> act.envelope in t.sent)
    ensures Leads(s, u) && u == t.(node := Act(t.node, act))
  {
    LeadsStep(s, t, Receive(act));
    u := Step(t, Receive(act));
  }

  lemma Queued(s: System, t: System, e: Envelope) returns (u: System)
    requires Leads(s, t) && WellNumbered(t, e)
    ensures Leads(s, u) && u == t.(queue := t.queue + [Entry(e, false)])
  {
    LeadsStep(s, t, Move.Enqueue(e));
    u := Step(t, Move.Enqueue(e));
  }

  lemma Sent(s: System, t: System, i: nat) returns (u: System)
    requires Leads(s, t) && IsHead(t, i)
    ensures Leads(s, u) && u == t.(sent := t.sent + {t.queue[i].envelope})
  {
    LeadsStep(s, t, SendHead(i));
    u := Step(t, SendHead(i));
  }

  lemma Confirmed(s: System, t: System, i: nat) returns (u: System)
    requires Leads(s, t) && IsHead(t, i) && t.queue[i].envelope.id in t.node.acks
    ensures Leads(s, u) && u == t.(queue := t.queue[i := Entry(t.queue[i].envelope, true)])
  {
    LeadsStep(s, t, Confirm(i));
    u := Step(t, Confirm(i));
  }

  /** One connection served from start to end. */
  lemma Served(s: System, t: System, e: Envelope) returns (u: System)
    requires Leads(s, t) && t.node.connections == map[] && e in t.sent
    ensures Leads(s, u) && u == t.(node := Serve(t.node, 0, e))
  {
    u := NodeActs(s, t, Open(0, e));
    u := NodeActs(s, u, Stage(0));
    u := NodeActs(s, u, Judge(0));
    u := NodeActs(s, u, Check(0));
    u := NodeActs(s, u, Activate(0));
    u := NodeActs(s, u, Acknowledge(0));
  }

  // ---------------------------------------------------------------- delivering the head of a flow

  lemma ServingChanges(n: Node, e: Envelope)
    requires UniqueIds(n) && n.connections == map[] && Acceptable(n, e)
    ensures var r := Serve(n, 0, e); e.id in r.acks && r.connections == map[] && r.log == n.log
    ensures !HasId(n, e.id) ==>
      Serve(n, 0, e).inbox == n.inbox[n.next := InRow(e, Received)] && Serve(n, 0, e).next == n.next + 1
  {
    MessageServer.Server.ServeCases(n, e);
    if !HasId(n, e.id) {
      var stored := MessageServer.Server.Stored(n, e);
      assert Floor(stored, LaneOf(e)) == Floor(n, LaneOf(e));
      assert ContainsExact(n, e) ==> HasId(n, e.id);
      assert Serve(n, 0, e).inbox == n.inbox[n.next := InRow(e, Received)];
    }
  }

  /** With no connection open, the head of any flow can be sent, acknowledged and confirmed. */
  lemma DeliverHead(s: System, i: nat) returns (u: System)
    requires Reachable(s) && s.node.connections == map[] && IsHead(s, i)
    ensures Leads(s, u) && Reachable(u)
    ensures u.queue == s.queue[i := Entry(s.queue[i].envelope, true)]
    ensures u.node.connections == map[] && u.node.log == s.node.log
    ensures !HasId(s.node, s.queue[i].envelope.id) ==>
      u.node.inbox == s.node.inbox[s.node.next := InRow(s.queue[i].envelope, Received)] &&
        u.node.next == s.node.next + 1
  {
    var e := s.queue[i].envelope;
    LeadsSelf(s);
    u := Sent(s, s, i);
    LeadsOn(START, s, u);
    SentIsAcceptable(u, e);
    assert UniqueIds(u.node) by { ReachableInv(u); }
    ServingChanges(u.node, e);
    u := Served(s, u, e);
    assert IsHead(u, i);
    u := Confirmed(s, u, i);
    LeadsOn(START, s, u);
  }

  // ---------------------------------------------------------------- no lane wedges

  function Undelivered(queue: seq<Entry>): set<nat> {
    set x | 0 <= x < |queue| && !queue[x].delivered
  }

  /** The oldest undelivered row of the flow of row `i`. */
  lemma {:induction false} FlowHead(s: System, i: nat) returns (h: nat)
    requires i < |s.queue| && !s.queue[i].delivered
    ensures h <= i && IsHead(s, h)
    decreases i
  {
    if IsHead(s, i) {
      h := i;
    } else {
      var j :| 0 <= j < i && SameFlow(s.queue[j].envelope, s.queue[i].envelope) && !s.queue[j].delivered;
      h := FlowHead(s, j);
    }
  }

  lemma {:induction false} DeliverUpTo(s: System, i: nat) returns (u: System)
    requires Reachable(s) && s.node.connections == map[] && i < |s.queue|
    ensures Leads(s, u) && |u.queue| == |s.queue| && u.queue[i] == Entry(s.queue[i].envelope, true)
    decreases |Undelivered(s.queue)|
  {
    if s.queue[i].delivered {
      LeadsSelf(s);
      u := s;
    } else {
      var h := FlowHead(s, i);
      var t := DeliverHead(s, h);
      assert Undelivered(t.queue) == Undelivered(s.queue) - {h} && h in Undelivered(s.queue);
      u := DeliverUpTo(t, i);
      LeadsOn(s, t, u);
    }
  }

  /** No lane ever wedges: from every reachable state, whatever was lost, refused or left open,
      every queued message can still be delivered. */
  lemma EveryMessageCanBeDelivered(s: System, i: nat) returns (u: System)
    requires Reachable(s) && i < |s.queue|
    ensures Leads(s, u) && |u.queue| == |s.queue| && u.queue[i] == Entry(s.queue[i].envelope, true)
  {
    LeadsSelf(s);
    var t := NodeActs(s, s, Crash);
    LeadsOn(START, s, t);
    u := DeliverUpTo(t, i);
    LeadsOn(s, t, u);
  }
}
