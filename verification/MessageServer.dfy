/** The durable receiver as a program: the inbox and replay tables it updates, the
    connection handler that drives them, and the workers' claim. */
module MessageServer {
  import opened Ump
  import opened Outbox
  import opened Receiver

  datatype InboxError = ConflictingContent | SlotInUse

  datatype Receipt = NewReceipt | DuplicateReceipt

  /** `acks` and `log` are what the outside observed. */
  class Server {
    var inbox: map<nat, InRow>
    var next: nat
    var floors: map<Lane, nat>
    ghost var acks: set<Text>
    ghost var log: seq<Event>

    ghost function Contents(): Node
      reads this
    {
      Node(inbox, next, floors, map[], acks, log)
    }

    constructor ()
      ensures Contents() == INITIAL
    {
      inbox, next, floors, acks, log := map[], 0, map[], {}, [];
    }

    /** Stage or store a message; an identical one is reported as not new. */
    method Enqueue(e: Envelope, ready: bool) returns (r: Result<bool, InboxError>)
      modifies this`inbox, this`next
      ensures r == Ok(true) ==>
        !HasId(old(Contents()), e.id) && !SlotUsed(old(Contents()), e) && next == old(next) + 1 &&
          inbox == old(inbox)[old(next) := InRow(e, if ready then Received else Staged)]
      ensures r != Ok(true) ==> Contents() == old(Contents())
      ensures UniqueIds(old(Contents())) ==> (r == Ok(false) <==> ContainsExact(old(Contents()), e))
      ensures UniqueIds(old(Contents())) ==>
        (r == Err(ConflictingContent) <==> HasId(old(Contents()), e.id) && !ContainsExact(old(Contents()), e))
      ensures r == Err(SlotInUse) <==> !HasId(old(Contents()), e.id) && SlotUsed(old(Contents()), e)
    {
      if exists i :: i in inbox && inbox[i].envelope.id == e.id {
        var row :| row in inbox && inbox[row].envelope.id == e.id;
        return if inbox[row].envelope != e then Err(ConflictingContent) else Ok(false);
      }
      if exists i :: i in inbox && LaneOf(inbox[i].envelope) == LaneOf(e) && inbox[i].envelope.sequence == e.sequence {
        return Err(SlotInUse);
      }
      inbox := inbox[next := InRow(e, if ready then Received else Staged)];
      next := next + 1;
      return Ok(true);
    }

    method ActivateMessage(id: Text)
      modifies this`inbox
      ensures Contents() == ActivateRow(old(Contents()), id)
      ensures inbox.Keys == old(inbox).Keys
      ensures forall i :: i in inbox && inbox[i].envelope.id == id ==> inbox[i].status != Staged
      ensures forall i :: i in inbox && inbox[i] != old(inbox)[i] ==>
        old(inbox)[i].status == Staged && inbox[i].envelope.id == id
    {
      inbox := map i | i in inbox ::
        if inbox[i].envelope.id == id && inbox[i].status == Staged then inbox[i].(status := Received) else inbox[i];
    }

    method Discard(id: Text)
      modifies this`inbox
      ensures Contents() == DiscardStaged(old(Contents()), id)
      ensures forall i :: i in inbox ==> i in old(inbox) && inbox[i] == old(inbox)[i]
      ensures forall i :: i in old(inbox) && i !in inbox ==>
        old(inbox)[i].status == Staged && old(inbox)[i].envelope.id == id
      ensures forall i :: i in inbox && inbox[i].envelope.id == id ==> inbox[i].status != Staged
    {
      inbox := map i | i in inbox && !(inbox[i].envelope.id == id && inbox[i].status == Staged) :: inbox[i];
    }

    method Contains(e: Envelope) returns (found: bool)
      requires UniqueIds(Contents())
      ensures found <==> ContainsExact(Contents(), e)
    {
      if !exists i :: i in inbox && inbox[i].envelope.id == e.id {
        return false;
      }
      var row :| row in inbox && inbox[row].envelope.id == e.id;
      found := inbox[row].envelope == e;
    }

    /** Raise the replay floor, or refuse a sequence at or below it. */
    method Accept(e: Envelope) returns (ok: bool)
      modifies this`floors
      ensures ok <==> e.sequence > Floor(old(Contents()), LaneOf(e))
      ensures floors == if ok then old(floors)[LaneOf(e) := e.sequence] else old(floors)
    {
      var previous := if LaneOf(e) in floors then floors[LaneOf(e)] else 0;
      if e.sequence <= previous {
        return false;
      }
      floors := floors[LaneOf(e) := e.sequence];
      ok := true;
    }

    /** One authenticated connection from its frame to its acknowledgement. */
    method HandleConnection(e: Envelope) returns (receipt: Option<Receipt>)
      requires UniqueIds(Contents())
      modifies this
      ensures Contents() == Serve(old(Contents()), 0, e)
      ensures receipt.Some? <==> Acceptable(old(Contents()), e)
      ensures receipt == Some(NewReceipt) <==> Acceptable(old(Contents()), e) && !ContainsExact(old(Contents()), e)
    {
      ghost var n := Contents();
      ServeCases(n, e);
      var stored := Enqueue(e, false);
      if stored.Err? {
        assert stored.error == ConflictingContent || stored.error == SlotInUse;
        assert Contents() == n;
        return None;
      }
      assert Contents() == if stored.value then Stored(n, e) else n;
      receipt := Conclude(e, stored.value);
    }

    /** The rest of a connection once its message is staged or recognised. */
    method Conclude(e: Envelope, isNew: bool) returns (receipt: Option<Receipt>)
      requires UniqueIds(Contents()) && ContainsExact(Contents(), e)
      modifies this
      ensures Contents() == Concluded(old(Contents()), e, isNew)
      ensures receipt.Some? <==> !isNew || e.sequence > Floor(old(Contents()), LaneOf(e))
      ensures receipt == Some(NewReceipt) <==> receipt.Some? && isNew
    {
      var admitted := Accept(e);
      if admitted {
        ActivateMessage(e.id);
        acks := acks + {e.id};
        return Some(if isNew then NewReceipt else DuplicateReceipt);
      }
      var found := Contains(e);
      if !isNew && found {
        ActivateMessage(e.id);
        acks := acks + {e.id};
        return Some(DuplicateReceipt);
      }
      if isNew {
        Discard(e.id);
      }
      return None;
    }

    // -------------------------------------------------------------- workers

    /** The row that comes first: safety messages, then inbox order. */
    method Select() returns (best: Option<nat>)
      requires UniqueIds(Contents())
      ensures best.Some? ==> IsNext(Contents(), best.value)
      ensures best.None? ==> forall i :: i in inbox ==> !Claimable(Contents(), i)
    {
      var table := Node(inbox, next, floors, map[], {}, []);
      best := None;
      for i := 0 to next
        invariant best.Some? ==> best.value < i && Claimable(table, best.value)
        invariant forall j :: 0 <= j < i && Claimable(table, j) ==> best.Some? && Before(table, best.value, j)
      {
        if Claimable(table, i) && (best.None? ||
          (inbox[i].envelope.stream == Safety && inbox[best.value].envelope.stream != Safety)) {
          best := Some(i);
        }
      }
      assert forall i :: Claimable(table, i) <==> Claimable(Contents(), i);
    }

    /** Take the next message and mark it as being processed. */
    method Claim() returns (claimed: Option<nat>)
      requires UniqueIds(Contents())
      modifies this
      ensures claimed.Some? ==>
        IsNext(old(Contents()), claimed.value) && Contents() == Act(old(Contents()), ClaimRow(claimed.value))
      ensures claimed.None? ==> Contents() == old(Contents()) && forall i :: i in inbox ==> !Claimable(Contents(), i)
      ensures claimed.Some? ==>
        && claimed.value in old(inbox) && old(inbox)[claimed.value].status == Received
        && inbox == old(inbox)[claimed.value := InRow(old(inbox)[claimed.value].envelope, Processing)]
        && log == old(log) + [Start(old(inbox)[claimed.value].envelope)]
      ensures claimed.Some? ==> forall j :: j in old(inbox) && j < claimed.value ==>
        LaneOf(old(inbox)[j].envelope) == LaneOf(old(inbox)[claimed.value].envelope) ==>
          old(inbox)[j].status !in {Received, Processing}
      ensures claimed.Some? ==> forall j :: j in old(inbox) && Claimable(old(Contents()), j) ==>
        if old(inbox)[j].envelope.stream == Safety then
          old(inbox)[claimed.value].envelope.stream == Safety && claimed.value <= j
        else old(inbox)[claimed.value].envelope.stream == Safety || claimed.value <= j
    {
      claimed := Select();
      if claimed.Some? {
        var i := claimed.value;
        log := log + [Start(inbox[i].envelope)];
        inbox := inbox[i := inbox[i].(status := Processing)];
      }
    }

    /** Record how the handler of a claimed message ended. */
    method Finish(i: nat, ok: bool)
      requires i in inbox && inbox[i].status == Processing
      modifies this
      ensures Contents() == Act(old(Contents()), FinishRow(i, ok))
      ensures inbox.Keys == old(inbox).Keys && inbox[i].status == (if ok then Processed else HandlerFailed)
      ensures forall j :: j in inbox && j != i ==> inbox[j] == old(inbox)[j]
      ensures next == old(next) && floors == old(floors) && acks == old(acks)
      ensures log == old(log) + [Event.Finish(old(inbox)[i].envelope)]
    {
      log := log + [Event.Finish(inbox[i].envelope)];
      inbox := inbox[i := inbox[i].(status := if ok then Processed else HandlerFailed)];
    }

    /** A restart returns interrupted messages to the queue. */
    method Reopen()
      modifies this
      ensures Contents() == Act(old(Contents()), Crash)
      ensures inbox.Keys == old(inbox).Keys && forall i :: i in inbox ==> inbox[i].status != Processing
      ensures forall i :: i in inbox && inbox[i] != old(inbox)[i] ==>
        old(inbox)[i].status == Processing && inbox[i] == InRow(old(inbox)[i].envelope, Received)
    {
      log := log + [Restart];
      inbox := map i | i in inbox :: if inbox[i].status == Processing then inbox[i].(status := Received) else inbox[i];
    }

    // -------------------------------------------------------------- joining the steps

    static ghost function Stored(n: Node, e: Envelope): Node {
      n.(inbox := n.inbox[n.next := InRow(e, Staged)], next := n.next + 1)
    }

    static ghost function Concluded(n: Node, e: Envelope, isNew: bool): Node {
      if e.sequence > Floor(n, LaneOf(e)) then
        ActivateRow(n.(floors := n.floors[LaneOf(e) := e.sequence], acks := n.acks + {e.id}), e.id)
      else if isNew then DiscardStaged(n, e.id)
      else ActivateRow(n.(acks := n.acks + {e.id}), e.id)
    }

    /** The steps of one connection, joined. */
    static lemma ServeCases(n: Node, e: Envelope)
      requires UniqueIds(n) && n.connections == map[]
      ensures ContainsExact(n, e) ==> HasId(n, e.id) && Serve(n, 0, e) == Concluded(n, e, false)
      ensures !HasId(n, e.id) && !SlotUsed(n, e) ==>
        UniqueIds(Stored(n, e)) && ContainsExact(Stored(n, e), e) && Serve(n, 0, e) == Concluded(Stored(n, e), e, true)
      ensures !ContainsExact(n, e) && (HasId(n, e.id) || SlotUsed(n, e)) ==> Serve(n, 0, e) == n
    {
      StageOutcome(n, 0, e);
      if ContainsExact(n, e) {
        AfterStaging(n, n, e, false);
      } else if !HasId(n, e.id) && !SlotUsed(n, e) {
        var s := Stored(n, e);
        assert s.inbox[n.next].envelope == e;
        StageKeepsRows(n, 0, e);
        AfterStaging(n, s, e, true);
      } else {
        assert Act(Act(Act(Act(n, Judge(0)), Check(0)), Activate(0)), Acknowledge(0)) == n;
      }
    }

    static lemma AfterStaging(n: Node, staged: Node, e: Envelope, isNew: bool)
      requires staged.connections == map[] && ContainsExact(staged, e) &&
        AfterStage(n, 0, e) == Advance(staged, 0, Enqueued(e, isNew))
      ensures Serve(n, 0, e) == Concluded(staged, e, isNew)
    {
      var a := Advance(staged, 0, Enqueued(e, isNew));
      VerdictOutcome(a, 0, e, isNew);
      assert ContainsExact(a, e) && Close(a, 0) == staged;
      AfterVerdict(staged, e, isNew, AfterCheck(n, 0, e));
    }

    static lemma AfterVerdict(staged: Node, e: Envelope, isNew: bool, checked: Node)
      requires staged.connections == map[]
      requires checked ==
        if e.sequence > Floor(staged, LaneOf(e)) then
          Advance(staged, 0, Admitted(e)).(floors := staged.floors[LaneOf(e) := e.sequence])
        else if isNew then DiscardStaged(staged, e.id)
        else Advance(staged, 0, Matched(e))
      ensures Act(Act(checked, Activate(0)), Acknowledge(0)) == Concluded(staged, e, isNew)
    {
      if e.sequence > Floor(staged, LaneOf(e)) {
        Acknowledged(staged.(floors := staged.floors[LaneOf(e) := e.sequence]), e, Admitted(e), checked);
      } else if !isNew {
        Acknowledged(staged, e, Matched(e), checked);
      }
    }

    static lemma Acknowledged(before: Node, e: Envelope, c: Connection, checked: Node)
      requires before.connections == map[] && (c == Admitted(e) || c == Matched(e)) && checked == Advance(before, 0, c)
      ensures Act(Act(checked, Activate(0)), Acknowledge(0)) == ActivateRow(before.(acks := before.acks + {e.id}), e.id)
    {
    }
  }
}
