/** When a batch is admitted to the outbound queue and what is then stored, in terms of keys and
    of cardinalities, without the counting and the deduplication that the program performs. */
module Admission {
  import opened Ump
  import opened Outbox

  /** Some row has this recipient and message identifier. */
  predicate KeyStored(rows: seq<Row>, peer: Text, id: Text) {
    exists r :: 0 <= r < |rows| && rows[r].peer == peer && rows[r].envelope.id == id
  }

  predicate IsNew(rows: seq<Row>, item: Item) {
    !KeyStored(rows, item.peer, item.envelope.id)
  }

  /** The recipients and message identifiers that the batch would add. */
  function NewKeys(rows: seq<Row>, items: seq<Item>): set<(Text, Text)> {
    set i | 0 <= i < |items| && IsNew(rows, items[i]) :: (items[i].peer, items[i].envelope.id)
  }

  function NewOperationalKeys(rows: seq<Row>, items: seq<Item>): set<(Text, Text)> {
    set i | 0 <= i < |items| && IsNew(rows, items[i]) && items[i].envelope.stream == Operational
      :: (items[i].peer, items[i].envelope.id)
  }

  function PendingRows(rows: seq<Row>): set<nat> {
    set i: nat | i < |rows| && rows[i].pending
  }

  function PendingOperational(rows: seq<Row>): set<nat> {
    set i: nat | i < |rows| && rows[i].pending && rows[i].envelope.stream == Operational
  }

  /** Two different messages to one recipient with the same identifier. */
  predicate Conflicts(peer: Text, e: Envelope, peer': Text, e': Envelope) {
    peer == peer' && e.id == e'.id && e != e'
  }

  /** No identifier stands for two contents, in the batch or against the table. */
  predicate SameContents(rows: seq<Row>, items: seq<Item>) {
    && (forall i, r :: 0 <= i < |items| && 0 <= r < |rows| ==>
      !Conflicts(items[i].peer, items[i].envelope, rows[r].peer, rows[r].envelope))
    && (forall i, j :: 0 <= i < j < |items| ==>
      !Conflicts(items[i].peer, items[i].envelope, items[j].peer, items[j].envelope))
  }

  predicate SharesSlot(peer: Text, e: Envelope, peer': Text, e': Envelope) {
    peer == peer' && e.session == e'.session && e.stream == e'.stream && e.sequence == e'.sequence
  }

  /** No new message has a sequence number that its recipient's lane uses for another message. */
  predicate SlotsFree(rows: seq<Row>, items: seq<Item>) {
    && (forall i, r :: 0 <= i < |items| && IsNew(rows, items[i]) && 0 <= r < |rows| ==>
      !SharesSlot(items[i].peer, items[i].envelope, rows[r].peer, rows[r].envelope))
    && (forall i, j :: 0 <= i < j < |items| && IsNew(rows, items[i]) && IsNew(rows, items[j]) ==>
      items[i].envelope.id == items[j].envelope.id ||
        !SharesSlot(items[i].peer, items[i].envelope, items[j].peer, items[j].envelope))
  }

  // ---------------------------------------------------------------- the program's counts

  lemma {:induction false} PendingIsCardinality(rows: seq<Row>)
    ensures PendingCount(rows) == |PendingRows(rows)|
  {
    if rows != [] {
      var init, last := rows[..|rows| - 1], rows[|rows| - 1];
      PendingIsCardinality(init);
      assert PendingRows(rows) == PendingRows(init) + if last.pending then {|init|} else {};
    }
  }

  lemma {:induction false} OperationalIsCardinality(rows: seq<Row>)
    ensures StreamCount(rows, Operational) == |PendingOperational(rows)|
  {
    if rows != [] {
      var init, last := rows[..|rows| - 1], rows[|rows| - 1];
      OperationalIsCardinality(init);
      var counts := last.pending && last.envelope.stream == Operational;
      assert PendingOperational(rows) == PendingOperational(init) + if counts then {|init|} else {};
    }
  }

  lemma ConsistentMeans(rows: seq<Row>, items: seq<Item>)
    ensures Consistent(rows, items) <==> SameContents(rows, items)
  {
    if Consistent(rows, items) {
      forall i, j | 0 <= i < j < |items|
        ensures !Conflicts(items[i].peer, items[i].envelope, items[j].peer, items[j].envelope)
      {
        assert items[..j][i] == items[i] && !Clashes(rows, items[..j], items[j]);
      }
      forall i, r | 0 <= i < |items| && 0 <= r < |rows|
        ensures !Conflicts(items[i].peer, items[i].envelope, rows[r].peer, rows[r].envelope)
      {
        assert !Clashes(rows, items[..i], items[i]);
      }
    }
  }

  lemma SameContentsOfPrefix(rows: seq<Row>, items: seq<Item>)
    requires items != [] && SameContents(rows, items)
    ensures SameContents(rows, items[..|items| - 1])
  {
  }

  lemma {:induction false} NewItemsAreNewKeys(rows: seq<Row>, items: seq<Item>)
    requires SameContents(rows, items)
    ensures |NewItems(rows, items)| == |NewKeys(rows, items)|
    ensures ItemCount(NewItems(rows, items), Operational) == |NewOperationalKeys(rows, items)|
  {
    if items != [] {
      SameContentsOfPrefix(rows, items);
      NewItemsAreNewKeys(rows, items[..|items| - 1]);
      NewItemsOfLast(rows, items);
      KeysOfLast(rows, items);
    }
  }

  /** What the last item of a batch adds to the new items. */
  lemma NewItemsOfLast(rows: seq<Row>, items: seq<Item>)
    requires items != []
    ensures var init, last := items[..|items| - 1], items[|items| - 1];
      var added, before := NewItems(rows, items), NewItems(rows, init);
      if IsNew(rows, last) && !Listed(init, last) then
        && |added| == |before| + 1
        && ItemCount(added, Operational) ==
             ItemCount(before, Operational) + if last.envelope.stream == Operational then 1 else 0
      else added == before
  {
    var init, last := items[..|items| - 1], items[|items| - 1];
    var before := NewItems(rows, init);
    assert Stored(rows, last) <==> !IsNew(rows, last);
    assert (before + [last])[..|before|] == before;
  }

  /** What the last item of a batch adds to its keys. */
  lemma KeysOfLast(rows: seq<Row>, items: seq<Item>)
    requires items != [] && SameContents(rows, items)
    ensures var init, last := items[..|items| - 1], items[|items| - 1];
      var key, isNew := (last.peer, last.envelope.id), IsNew(rows, last);
      && NewKeys(rows, items) == NewKeys(rows, init) + (if isNew then {key} else {})
      && NewOperationalKeys(rows, items) ==
           NewOperationalKeys(rows, init) + (if isNew && last.envelope.stream == Operational then {key} else {})
      && (isNew ==> (Listed(init, last) <==> key in NewKeys(rows, init)))
      && (isNew && Listed(init, last) && last.envelope.stream == Operational ==>
           key in NewOperationalKeys(rows, init))
      && (key in NewOperationalKeys(rows, init) ==> key in NewKeys(rows, init))
  {
    var init, last := items[..|items| - 1], items[|items| - 1];
    assert forall i :: 0 <= i < |init| ==> items[i] == init[i];
    if IsNew(rows, last) && Listed(init, last) {
      var i :| 0 <= i < |init| && SameItemKey(init[i], last);
      assert init[i].envelope == last.envelope && IsNew(rows, init[i]);
    }
  }

  // ---------------------------------------------------------------- the slots

  lemma NewItemIsListed(rows: seq<Row>, items: seq<Item>, i: nat)
    requires i < |items| && Consistent(rows, items)
    ensures IsNew(rows, items[i]) <==> items[i] in NewItems(rows, items)
  {
    assert Stored(rows, items[i]) <==> !IsNew(rows, items[i]);
    NewOrStored(rows, items, i);
    NewItemsHaveNewKeys(rows, items);
  }

  lemma NewItemInBatch(rows: seq<Row>, items: seq<Item>, a: nat) returns (i: nat)
    requires a < |NewItems(rows, items)|
    ensures i < |items| && items[i] == NewItems(rows, items)[a] && IsNew(rows, items[i])
  {
    NewItemsHaveNewKeys(rows, items);
    assert NewItems(rows, items)[a] in items;
    i :| 0 <= i < |items| && items[i] == NewItems(rows, items)[a];
    assert Stored(rows, items[i]) <==> !IsNew(rows, items[i]);
  }

  lemma TakenMeans(rows: seq<Row>, item: Item)
    ensures SlotTaken(rows, item) <==>
      exists r :: 0 <= r < |rows| && SharesSlot(item.peer, item.envelope, rows[r].peer, rows[r].envelope)
  {
    if SlotTaken(rows, item) {
      var r :| 0 <= r < |rows| && SameSlot(rows[r], item);
      assert SharesSlot(item.peer, item.envelope, rows[r].peer, rows[r].envelope);
    }
  }

  lemma FreeSlotsAreFree(rows: seq<Row>, items: seq<Item>)
    requires Consistent(rows, items) && FreeSlots(rows, NewItems(rows, items))
    ensures SlotsFree(rows, items)
  {
    var added := NewItems(rows, items);
    forall i, r | 0 <= i < |items| && IsNew(rows, items[i]) && 0 <= r < |rows|
      ensures !SharesSlot(items[i].peer, items[i].envelope, rows[r].peer, rows[r].envelope)
    {
      NewItemIsListed(rows, items, i);
      TakenMeans(rows, items[i]);
    }
    forall i, j | 0 <= i < j < |items| && IsNew(rows, items[i]) && IsNew(rows, items[j])
      ensures items[i].envelope.id == items[j].envelope.id ||
        !SharesSlot(items[i].peer, items[i].envelope, items[j].peer, items[j].envelope)
    {
      NewItemIsListed(rows, items, i);
      NewItemIsListed(rows, items, j);
      var a, b :| 0 <= a < |added| && added[a] == items[i] && 0 <= b < |added| && added[b] == items[j];
      assert a < b ==> !SameSlot(NewRow(added[a], 0), added[b]);
      assert b < a ==> !SameSlot(NewRow(added[b], 0), added[a]);
    }
  }

  lemma SlotsFreeAreFree(rows: seq<Row>, items: seq<Item>)
    requires Consistent(rows, items) && SlotsFree(rows, items)
    ensures FreeSlots(rows, NewItems(rows, items))
  {
    var added := NewItems(rows, items);
    NewItemsHaveNewKeys(rows, items);
    forall a | 0 <= a < |added| ensures !SlotTaken(rows, added[a]) {
      var i := NewItemInBatch(rows, items, a);
      TakenMeans(rows, added[a]);
    }
    forall a, b | 0 <= a < b < |added| ensures !SameSlot(NewRow(added[a], 0), added[b]) {
      var i := NewItemInBatch(rows, items, a);
      var j := NewItemInBatch(rows, items, b);
      assert !SameItemKey(added[a], added[b]);
    }
  }

  // ---------------------------------------------------------------- the theorem

  /** A batch is refused for the first of these reasons, and admitted without any: one identifier
      for two contents, more pending messages than the maximum, more operational ones than the
      reserve leaves room for, or a sequence number in use. */
  lemma AdmissionIsExact(rows: seq<Row>, l: Limits, items: seq<Item>, now: int)
    ensures var r := EnqueueMany(rows, l, items, now);
      var pending := |PendingRows(rows)| + |NewKeys(rows, items)|;
      var operational := |PendingOperational(rows)| + |NewOperationalKeys(rows, items)|;
      if items == [] then r == Ok(rows)
      else if !SameContents(rows, items) then r == Err(BoundToDifferentContent)
      else if pending > l.maximum then r == Err(Full)
      else if operational > l.maximum - l.reserve then r == Err(PreservingSafetyCapacity)
      else if !SlotsFree(rows, items) then r == Err(IntegrityError)
      else r.Ok?
  {
    ConsistentMeans(rows, items);
    if SameContents(rows, items) {
      PendingIsCardinality(rows);
      OperationalIsCardinality(rows);
      NewItemsAreNewKeys(rows, items);
      InsertsExactlyFreeSlots(rows, NewItems(rows, items), now);
      if SlotsFree(rows, items) {
        SlotsFreeAreFree(rows, items);
      } else if FreeSlots(rows, NewItems(rows, items)) {
        FreeSlotsAreFree(rows, items);
      }
    }
  }

  /** The row of a message that was not stored before: pending, due at once and never attempted. */
  predicate IsQueuedAnew(rows: seq<Row>, item: Item, row: Row, now: int) {
    IsNew(rows, item) && row == Row(item.peer, item.envelope, true, 0, now, now)
  }

  predicate Carries(row: Row, item: Item) {
    row.peer == item.peer && row.envelope == item.envelope
  }

  /** What an admitted batch stores: the old rows as they were, then one pending row, due at once and
      never attempted, for each new key; so every message of the batch is in the table. */
  lemma AdmittedRows(rows: seq<Row>, l: Limits, items: seq<Item>, now: int, r: seq<Row>)
    requires items != [] && EnqueueMany(rows, l, items, now) == Ok(r)
    ensures |r| == |rows| + |NewKeys(rows, items)| && r[..|rows|] == rows
    ensures forall k :: |rows| <= k < |r| ==> exists i :: 0 <= i < |items| && IsQueuedAnew(rows, items[i], r[k], now)
    ensures forall i :: 0 <= i < |items| ==> exists k :: 0 <= k < |r| && Carries(r[k], items[i])
  {
    var added := NewItems(rows, items);
    ConsistentMeans(rows, items);
    NewItemsAreNewKeys(rows, items);
    InsertCounts(rows, added, now, r, Safety);
    NewItemsHaveNewKeys(rows, items);
    forall k | |rows| <= k < |r|
      ensures exists i :: 0 <= i < |items| && IsQueuedAnew(rows, items[i], r[k], now)
    {
      var a := k - |rows|;
      assert r[|rows| + a] == NewRow(added[a], now);
      var i := NewItemInBatch(rows, items, a);
      assert IsQueuedAnew(rows, items[i], r[k], now);
    }
    forall i | 0 <= i < |items| ensures exists k :: 0 <= k < |r| && Carries(r[k], items[i]) {
      StoredAfterEnqueue(rows, l, items, now, r, i);
      var k :| 0 <= k < |r| && SameKey(r[k], items[i]) && r[k].envelope == items[i].envelope;
      assert Carries(r[k], items[i]);
    }
  }

  predicate ComesBefore(list: seq<Item>, x: Item, y: Item) {
    exists a, b :: 0 <= a < b < |list| && list[a] == x && list[b] == y
  }

  /** The order of first mention: of two messages of the batch, each new and mentioned for the first
      time, the earlier one is stored before the later one. */
  lemma {:induction false} NewItemsKeepOrder(rows: seq<Row>, items: seq<Item>, i: nat, j: nat)
    requires i < j < |items| && IsNew(rows, items[i]) && IsNew(rows, items[j])
    requires forall k :: 0 <= k < i ==> !SameItemKey(items[k], items[i])
    requires forall k :: 0 <= k < j ==> !SameItemKey(items[k], items[j])
    ensures ComesBefore(NewItems(rows, items), items[i], items[j])
    decreases |items|
  {
    var init, last := items[..|items| - 1], items[|items| - 1];
    var before, added := NewItems(rows, init), NewItems(rows, items);
    assert forall k :: 0 <= k < |before| ==> added[k] == before[k];
    if j < |init| {
      NewItemsKeepOrder(rows, init, i, j);
      var a, b :| 0 <= a < b < |before| && before[a] == init[i] && before[b] == init[j];
      assert added[a] == items[i] && added[b] == items[j];
    } else {
      assert Stored(rows, last) <==> !IsNew(rows, last);
      assert !Listed(init, last);
      FirstMentionIsNew(rows, init, i);
      var a :| 0 <= a < |before| && before[a] == init[i];
      assert added[a] == items[i] && added[|before|] == items[j];
    }
  }

  lemma {:induction false} FirstMentionIsNew(rows: seq<Row>, items: seq<Item>, i: nat)
    requires i < |items| && IsNew(rows, items[i])
    requires forall k :: 0 <= k < i ==> !SameItemKey(items[k], items[i])
    ensures items[i] in NewItems(rows, items)
    decreases |items|
  {
    var init, last := items[..|items| - 1], items[|items| - 1];
    var before, added := NewItems(rows, init), NewItems(rows, items);
    assert forall k :: 0 <= k < |before| ==> added[k] == before[k];
    assert Stored(rows, last) <==> !IsNew(rows, last);
    if i < |init| {
      FirstMentionIsNew(rows, init, i);
      var a :| 0 <= a < |before| && before[a] == init[i];
      assert added[a] == items[i];
    } else {
      assert !Listed(init, last);
      assert added[|before|] == last;
    }
  }

  /** In every state of the queue the pending rows are within the maximum and the operational ones
      leave the reserve free. */
  lemma PendingStaysWithin(l: Limits, ops: seq<Op>)
    requires ValidLimits(l)
    ensures |PendingRows(After(l, ops))| <= l.maximum
    ensures |PendingOperational(After(l, ops))| <= l.maximum - l.reserve
  {
    CapacityIsRespected(l, ops);
    PendingIsCardinality(After(l, ops));
    OperationalIsCardinality(After(l, ops));
  }
}
