/** The durable outbound queue: admission of a batch, the two capacity limits, and
    what a retry schedule looks like. */
module Outbox {
  import opened Ump

  datatype Stream = Operational | Safety

  datatype Envelope = Envelope(id: Text, source: Text, session: Text, stream: Stream, sequence: nat, body: Text)

  /** A row of `outbound_messages`; its position in the table is its queue order. */
  datatype Row = Row(peer: Text, envelope: Envelope, pending: bool, attempts: nat, nextAttempt: int, created: int)

  datatype Item = Item(peer: Text, envelope: Envelope)

  datatype OutboxError = BoundToDifferentContent | Full | PreservingSafetyCapacity | IntegrityError

  datatype Limits = Limits(maximum: nat, reserve: nat)

  /** What the constructor insists on. */
  predicate ValidLimits(l: Limits) {
    l.maximum >= 1 && l.reserve < l.maximum
  }

  // ---------------------------------------------------------------- counting

  function PendingCount(rows: seq<Row>): nat {
    if rows == [] then 0
    else PendingCount(rows[..|rows| - 1]) + if rows[|rows| - 1].pending then 1 else 0
  }

  function StreamCount(rows: seq<Row>, s: Stream): nat {
    if rows == [] then 0
    else
      var last := rows[|rows| - 1];
      StreamCount(rows[..|rows| - 1], s) + if last.pending && last.envelope.stream == s then 1 else 0
  }

  function ItemCount(items: seq<Item>, s: Stream): nat {
    if items == [] then 0
    else ItemCount(items[..|items| - 1], s) + if items[|items| - 1].envelope.stream == s then 1 else 0
  }

  // ---------------------------------------------------------------- admission

  predicate SameKey(row: Row, item: Item) {
    row.peer == item.peer && row.envelope.id == item.envelope.id
  }

  predicate SameItemKey(a: Item, b: Item) {
    a.peer == b.peer && a.envelope.id == b.envelope.id
  }

  predicate Stored(rows: seq<Row>, item: Item) {
    exists i :: 0 <= i < |rows| && SameKey(rows[i], item)
  }

  predicate Listed(items: seq<Item>, item: Item) {
    exists i :: 0 <= i < |items| && SameItemKey(items[i], item)
  }

  /** The message identifier is already bound to other content, in the table or in the batch. */
  predicate Clashes(rows: seq<Row>, earlier: seq<Item>, item: Item) {
    || (exists i :: 0 <= i < |rows| && SameKey(rows[i], item) && rows[i].envelope != item.envelope)
    || (exists i :: 0 <= i < |earlier| && SameItemKey(earlier[i], item) && earlier[i].envelope != item.envelope)
  }

  predicate Consistent(rows: seq<Row>, items: seq<Item>) {
    forall i :: 0 <= i < |items| ==> !Clashes(rows, items[..i], items[i])
  }

  /** The items neither stored already nor repeated within the batch, in order. */
  function NewItems(rows: seq<Row>, items: seq<Item>): seq<Item> {
    if items == [] then []
    else
      var init, last := items[..|items| - 1], items[|items| - 1];
      NewItems(rows, init) + if Stored(rows, last) || Listed(init, last) then [] else [last]
  }

  /** UNIQUE(peer_id, session_id, stream, sequence). */
  predicate SameSlot(row: Row, item: Item) {
    row.peer == item.peer && row.envelope.session == item.envelope.session &&
      row.envelope.stream == item.envelope.stream && row.envelope.sequence == item.envelope.sequence
  }

  predicate SlotTaken(rows: seq<Row>, item: Item) {
    exists i :: 0 <= i < |rows| && SameSlot(rows[i], item)
  }

  function NewRow(item: Item, now: int): Row {
    Row(item.peer, item.envelope, true, 0, now, now)
  }

  function Insert(rows: seq<Row>, items: seq<Item>, now: int): Option<seq<Row>> {
    if items == [] then Some(rows)
    else
      match Insert(rows, items[..|items| - 1], now)
      case None => None
      case Some(r) => if SlotTaken(r, items[|items| - 1]) then None else Some(r + [NewRow(items[|items| - 1], now)])
  }

  function EnqueueMany(rows: seq<Row>, l: Limits, items: seq<Item>, now: int): Result<seq<Row>, OutboxError> {
    if items == [] then Ok(rows)
    else if !Consistent(rows, items) then Err(BoundToDifferentContent)
    else
      var added := NewItems(rows, items);
      if PendingCount(rows) + |added| > l.maximum then Err(Full)
      else if StreamCount(rows, Operational) + ItemCount(added, Operational) > l.maximum - l.reserve then
        Err(PreservingSafetyCapacity)
      else
        match Insert(rows, added, now)
        case None => Err(IntegrityError)
        case Some(r) => Ok(r)
  }

  // ---------------------------------------------------------------- retry

  const BASE_DELAY_MS := 250
  const MAXIMUM_DELAY_MS := 30_000

  function Power2(n: nat): nat {
    if n == 0 then 1 else 2 * Power2(n - 1)
  }

  function Min(a: int, b: int): int {
    if a <= b then a else b
  }

  /** The delay after the given number of failed attempts. */
  function Backoff(attempts: nat): int
    requires attempts >= 1
  {
    Min(BASE_DELAY_MS * Power2(Min(attempts - 1, 16)), MAXIMUM_DELAY_MS)
  }

  lemma {:induction false} Power2Grows(m: nat, n: nat)
    requires m <= n
    ensures 1 <= Power2(m) <= Power2(n)
    decreases n
  {
    if m < n {
      Power2Grows(m, n - 1);
    } else if m > 0 {
      Power2Grows(m - 1, m - 1);
    }
  }

  /** Delays never shrink, stay within [250, 30000] ms and are constant from the eighth failure on. */
  lemma BackoffSchedule(m: nat, n: nat)
    requires 1 <= m <= n
    ensures 250 <= Backoff(m) <= Backoff(n) <= 30_000
    ensures Backoff(1) == 250
    ensures m >= 8 ==> Backoff(m) == 30_000
    ensures m < 8 && n == m + 1 ==> Backoff(n) == Min(2 * Backoff(m), 30_000)
    ensures n < 8 ==> Backoff(n) == BASE_DELAY_MS * Power2(n - 1)
  {
    Power2Grows(Min(m - 1, 16), Min(n - 1, 16));
    assert Power2(7) == 128 by { assert Power2(3) == 8; assert Power2(5) == 4 * Power2(3); }
    assert Power2(6) == 64;
    if m >= 8 {
      Power2Grows(7, Min(m - 1, 16));
    }
    if n < 8 {
      Power2Grows(n - 1, 6);
    }
  }

  function Delivered(rows: seq<Row>, i: nat): seq<Row>
    requires i < |rows|
  {
    rows[i := rows[i].(pending := false)]
  }

  function FailedAttempt(rows: seq<Row>, i: nat, now: int): seq<Row>
    requires i < |rows|
  {
    if rows[i].pending then
      rows[i := rows[i].(attempts := rows[i].attempts + 1, nextAttempt := now + Backoff(rows[i].attempts + 1))]
    else rows
  }

  // ---------------------------------------------------------------- capacity

  /** UNIQUE(peer_id, message_id). */
  predicate UniqueKeys(rows: seq<Row>) {
    forall i, j :: 0 <= i < j < |rows| ==> rows[i].peer != rows[j].peer || rows[i].envelope.id != rows[j].envelope.id
  }

  predicate Within(rows: seq<Row>, l: Limits) {
    PendingCount(rows) <= l.maximum && StreamCount(rows, Operational) <= l.maximum - l.reserve
  }

  lemma {:induction false} PendingSplits(rows: seq<Row>)
    ensures PendingCount(rows) == StreamCount(rows, Operational) + StreamCount(rows, Safety)
  {
    if rows != [] {
      PendingSplits(rows[..|rows| - 1]);
    }
  }

  lemma {:induction false} InsertCounts(rows: seq<Row>, items: seq<Item>, now: int, r: seq<Row>, s: Stream)
    requires Insert(rows, items, now) == Some(r)
    ensures |r| == |rows| + |items| && r[..|rows|] == rows
    ensures forall i :: 0 <= i < |items| ==> r[|rows| + i] == NewRow(items[i], now)
    ensures PendingCount(r) == PendingCount(rows) + |items|
    ensures StreamCount(r, s) == StreamCount(rows, s) + ItemCount(items, s)
  {
    if items != [] {
      var init := items[..|items| - 1];
      var before := Insert(rows, init, now).value;
      InsertCounts(rows, init, now, before, s);
      assert r[..|r| - 1] == before;
    }
  }

  /** Rewriting one row without making it pending again never raises a count. */
  lemma {:induction false} UpdateCounts(rows: seq<Row>, i: nat, row: Row, s: Stream)
    requires i < |rows| && (row.pending ==> rows[i].pending) && row.envelope == rows[i].envelope
    ensures PendingCount(rows[i := row]) <= PendingCount(rows)
    ensures StreamCount(rows[i := row], s) <= StreamCount(rows, s)
  {
    var updated, n := rows[i := row], |rows| - 1;
    if i < n {
      assert updated[..n] == rows[..n][i := row];
      UpdateCounts(rows[..n], i, row, s);
    } else {
      assert updated[..n] == rows[..n];
    }
  }

  datatype Op = Enqueue(items: seq<Item>, now: int) | MarkDelivered(index: nat) | MarkFailed(index: nat, now: int)

  /** The table after one operation; a refused batch leaves it as it was. */
  function Apply(rows: seq<Row>, l: Limits, op: Op): seq<Row> {
    match op
    case Enqueue(items, now) => (match EnqueueMany(rows, l, items, now) case Ok(r) => r case Err(_) => rows)
    case MarkDelivered(i) => if i < |rows| then Delivered(rows, i) else rows
    case MarkFailed(i, now) => if i < |rows| then FailedAttempt(rows, i, now) else rows
  }

  function After(l: Limits, ops: seq<Op>): seq<Row> {
    if ops == [] then [] else Apply(After(l, ops[..|ops| - 1]), l, ops[|ops| - 1])
  }

  lemma ApplyKeepsWithin(rows: seq<Row>, l: Limits, op: Op)
    requires Within(rows, l)
    ensures Within(Apply(rows, l, op), l)
  {
    match op {
      case Enqueue(items, now) =>
        if items != [] && EnqueueMany(rows, l, items, now).Ok? {
          InsertCounts(rows, NewItems(rows, items), now, Apply(rows, l, op), Operational);
        }
      case MarkDelivered(i) =>
        if i < |rows| { UpdateCounts(rows, i, rows[i].(pending := false), Operational); }
      case MarkFailed(i, now) =>
        if i < |rows| && rows[i].pending { UpdateCounts(rows, i, FailedAttempt(rows, i, now)[i], Operational); }
    }
  }

  lemma {:induction false} NewItemsHaveNewKeys(rows: seq<Row>, items: seq<Item>)
    ensures forall a :: a in NewItems(rows, items) ==> a in items && !Stored(rows, a)
    ensures forall i, j :: 0 <= i < j < |NewItems(rows, items)| ==>
      !SameItemKey(NewItems(rows, items)[i], NewItems(rows, items)[j])
  {
    if items != [] {
      var init, last := items[..|items| - 1], items[|items| - 1];
      NewItemsHaveNewKeys(rows, init);
      var added := NewItems(rows, init);
      if !Stored(rows, last) && !Listed(init, last) {
        forall i | 0 <= i < |added| ensures !SameItemKey(added[i], last) {
          assert added[i] in init;
        }
      }
    }
  }

  lemma ApplyKeepsUniqueKeys(rows: seq<Row>, l: Limits, op: Op)
    requires UniqueKeys(rows)
    ensures UniqueKeys(Apply(rows, l, op))
  {
    if op.Enqueue? && op.items != [] && EnqueueMany(rows, l, op.items, op.now).Ok? {
      var added, r := NewItems(rows, op.items), Apply(rows, l, op);
      InsertCounts(rows, added, op.now, r, Safety);
      NewItemsHaveNewKeys(rows, op.items);
      forall i, j | 0 <= i < j < |r| ensures r[i].peer != r[j].peer || r[i].envelope.id != r[j].envelope.id {
        if j >= |rows| {
          var y := added[j - |rows|];
          assert r[|rows| + (j - |rows|)] == NewRow(y, op.now) && y in added && !Stored(rows, y);
          if i >= |rows| {
            assert r[|rows| + (i - |rows|)] == NewRow(added[i - |rows|], op.now);
            assert !SameItemKey(added[i - |rows|], y);
          } else {
            assert r[i] == r[..|rows|][i] && !SameKey(rows[i], y);
          }
        } else {
          assert r[i] == r[..|rows|][i] && r[j] == r[..|rows|][j];
        }
      }
    }
  }

  /** In every state the queue is within its maximum and operational work leaves the safety reserve free. */
  lemma {:induction false} CapacityIsRespected(l: Limits, ops: seq<Op>)
    requires ValidLimits(l)
    ensures Within(After(l, ops), l) && UniqueKeys(After(l, ops))
  {
    if ops != [] {
      CapacityIsRespected(l, ops[..|ops| - 1]);
      ApplyKeepsWithin(After(l, ops[..|ops| - 1]), l, ops[|ops| - 1]);
      ApplyKeepsUniqueKeys(After(l, ops[..|ops| - 1]), l, ops[|ops| - 1]);
    }
  }

  // ---------------------------------------------------------------- the safety reserve

  predicate AllSafety(items: seq<Item>) {
    forall i :: 0 <= i < |items| ==> items[i].envelope.stream == Safety
  }

  /** The batch's slots are unused and pairwise different. */
  predicate FreeSlots(rows: seq<Row>, items: seq<Item>) {
    && (forall i :: 0 <= i < |items| ==> !SlotTaken(rows, items[i]))
    && (forall i, j :: 0 <= i < j < |items| ==> !SameSlot(NewRow(items[i], 0), items[j]))
  }

  lemma {:induction false} NewItemsFromBatch(rows: seq<Row>, items: seq<Item>)
    ensures |NewItems(rows, items)| <= |items|
    ensures forall a :: a in NewItems(rows, items) ==> a in items
  {
    if items != [] {
      NewItemsFromBatch(rows, items[..|items| - 1]);
    }
  }

  lemma {:induction false} NoOperationalItems(items: seq<Item>)
    requires forall a :: a in items ==> a.envelope.stream == Safety
    ensures ItemCount(items, Operational) == 0
  {
    if items != [] {
      NoOperationalItems(items[..|items| - 1]);
    }
  }

  /** After a successful insertion the occupied slots are the old ones and the batch's. */
  lemma SlotsAfterInsert(rows: seq<Row>, items: seq<Item>, now: int, r: seq<Row>, item: Item)
    requires Insert(rows, items, now) == Some(r)
    ensures SlotTaken(r, item) <==>
      SlotTaken(rows, item) || exists i :: 0 <= i < |items| && SameSlot(NewRow(items[i], 0), item)
  {
    InsertCounts(rows, items, now, r, Safety);
    if SlotTaken(rows, item) {
      var i :| 0 <= i < |rows| && SameSlot(rows[i], item);
      assert r[i] == r[..|rows|][i];
    } else if SlotTaken(r, item) {
      var i :| 0 <= i < |r| && SameSlot(r[i], item);
      assert r[|rows| + (i - |rows|)] == NewRow(items[i - |rows|], now);
    }
    forall i | 0 <= i < |items| && SameSlot(NewRow(items[i], 0), item) ensures SlotTaken(r, item) {
      assert r[|rows| + i] == NewRow(items[i], now);
    }
  }

  /** A batch of rows can be inserted exactly when its slots are free and pairwise different. */
  lemma {:induction false} InsertsExactlyFreeSlots(rows: seq<Row>, items: seq<Item>, now: int)
    ensures Insert(rows, items, now).Some? <==> FreeSlots(rows, items)
  {
    if items != [] {
      var init, last := items[..|items| - 1], items[|items| - 1];
      InsertsExactlyFreeSlots(rows, init, now);
      assert FreeSlots(rows, items) ==> FreeSlots(rows, init);
      if Insert(rows, init, now).Some? {
        SlotsAfterInsert(rows, init, now, Insert(rows, init, now).value, last);
      }
    }
  }

  /** However full the queue is with operational work, a safety batch that fits into the
      reserve is admitted, exactly if it is consistent and its new rows have unused slots. */
  lemma SafetyIsAlwaysAdmitted(rows: seq<Row>, l: Limits, items: seq<Item>, now: int)
    requires ValidLimits(l) && Within(rows, l) && AllSafety(items)
    requires StreamCount(rows, Safety) + |NewItems(rows, items)| <= l.reserve
    ensures EnqueueMany(rows, l, items, now).Ok? <==> Consistent(rows, items) && FreeSlots(rows, NewItems(rows, items))
  {
    var added := NewItems(rows, items);
    PendingSplits(rows);
    NewItemsFromBatch(rows, items);
    NoOperationalItems(added);
    InsertsExactlyFreeSlots(rows, added, now);
  }

  // ---------------------------------------------------------------- repeating a batch

  lemma {:induction false} NothingNew(rows: seq<Row>, items: seq<Item>)
    requires forall i :: 0 <= i < |items| ==> Stored(rows, items[i])
    ensures NewItems(rows, items) == []
  {
    if items != [] {
      NothingNew(rows, items[..|items| - 1]);
    }
  }

  /** Every item of the batch is stored already or is one of the new items, by key. */
  lemma {:induction false} NewOrStored(rows: seq<Row>, items: seq<Item>, i: nat)
    requires i < |items| && Consistent(rows, items)
    ensures Stored(rows, items[i]) || items[i] in NewItems(rows, items)
    decreases |items|
  {
    var init, last := items[..|items| - 1], items[|items| - 1];
    var added := NewItems(rows, init);
    assert forall k :: 0 <= k < |added| ==> NewItems(rows, items)[k] == added[k];
    assert Consistent(rows, init) by {
      forall k | 0 <= k < |init| ensures !Clashes(rows, init[..k], init[k]) { assert init[..k] == items[..k]; }
    }
    if i < |init| {
      NewOrStored(rows, init, i);
      if !Stored(rows, items[i]) {
        var k :| 0 <= k < |added| && added[k] == init[i];
        assert NewItems(rows, items)[k] == items[i];
      }
    } else if !Stored(rows, last) && Listed(init, last) {
      var j :| 0 <= j < |init| && SameItemKey(init[j], last);
      assert init == items[..i] && !Clashes(rows, items[..i], items[i]);
      assert init[j] == last;
      NewOrStored(rows, init, j);
      var k :| 0 <= k < |added| && added[k] == init[j];
      assert NewItems(rows, items)[k] == last;
    } else if !Stored(rows, last) {
      assert NewItems(rows, items)[|added|] == last;
    }
  }

  lemma StoredAfterEnqueue(rows: seq<Row>, l: Limits, items: seq<Item>, now: int, r: seq<Row>, i: nat)
    requires items != [] && EnqueueMany(rows, l, items, now) == Ok(r) && i < |items|
    ensures exists k :: 0 <= k < |r| && SameKey(r[k], items[i]) && r[k].envelope == items[i].envelope
  {
    var added := NewItems(rows, items);
    InsertCounts(rows, added, now, r, Safety);
    NewOrStored(rows, items, i);
    if Stored(rows, items[i]) {
      var k :| 0 <= k < |rows| && SameKey(rows[k], items[i]);
      assert r[k] == r[..|rows|][k] && !Clashes(rows, items[..i], items[i]);
    } else {
      var k :| 0 <= k < |added| && added[k] == items[i];
      assert r[|rows| + k] == NewRow(added[k], now);
    }
  }

  /** Enqueueing an admitted batch again is accepted and changes nothing. */
  lemma RepeatedBatchIsIgnored(rows: seq<Row>, l: Limits, items: seq<Item>, now: int, later: int)
    requires Within(rows, l) && UniqueKeys(rows) && EnqueueMany(rows, l, items, now).Ok?
    ensures var r := EnqueueMany(rows, l, items, now).value; EnqueueMany(r, l, items, later) == Ok(r)
  {
    if items != [] {
      var r := EnqueueMany(rows, l, items, now).value;
      ApplyKeepsWithin(rows, l, Enqueue(items, now));
      ApplyKeepsUniqueKeys(rows, l, Enqueue(items, now));
      forall i | 0 <= i < |items| ensures Stored(r, items[i]) && !Clashes(r, items[..i], items[i]) {
        StoredAfterEnqueue(rows, l, items, now, r, i);
        assert !Clashes(rows, items[..i], items[i]);
      }
      NothingNew(r, items);
    }
  }
}
