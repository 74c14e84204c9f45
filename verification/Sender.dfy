/** How the senders' outbound tables drive the channel: the rows of each sender for one
    receiver are that sender's part of the channel's queue, and what `flush` does to them are
    the channel's own moves. */
module Sender {
  import opened Ump
  import opened Outbox
  import OutboxStore
  import opened Channel

  /** The rows addressed to `peer`, in queue order. */
  function Project(rows: seq<Row>, peer: Text): seq<Entry> {
    if rows == [] then []
    else
      var last := rows[|rows| - 1];
      Project(rows[..|rows| - 1], peer) + if last.peer == peer then [Entry(last.envelope, !last.pending)] else []
  }

  /** Where row `i` appears in the projection. */
  function Rank(rows: seq<Row>, i: nat): nat
    requires i < |rows|
  {
    |Project(rows[..i], rows[i].peer)|
  }

  lemma {:induction false} ProjectAt(rows: seq<Row>, i: nat)
    requires i < |rows|
    ensures Rank(rows, i) < |Project(rows, rows[i].peer)|
    ensures Project(rows, rows[i].peer)[Rank(rows, i)] == Entry(rows[i].envelope, !rows[i].pending)
    ensures Project(rows, rows[i].peer)[..Rank(rows, i)] == Project(rows[..i], rows[i].peer)
  {
    var init := rows[..|rows| - 1];
    if i < |init| {
      ProjectAt(init, i);
      assert init[..i] == rows[..i];
    }
  }

  /** Every entry of the projection is some row. */
  lemma {:induction false} ProjectedFrom(rows: seq<Row>, peer: Text, x: nat) returns (i: nat)
    requires x < |Project(rows, peer)|
    ensures i < |rows| && rows[i].peer == peer && Project(rows, peer)[x] == Entry(rows[i].envelope, !rows[i].pending)
  {
    var init := rows[..|rows| - 1];
    if x < |Project(init, peer)| {
      i := ProjectedFrom(init, peer, x);
    } else {
      i := |rows| - 1;
    }
  }

  // ---------------------------------------------------------------- one sender's part of the queue

  /** The entries of one source, in queue order. */
  function FromSource(queue: seq<Entry>, source: Text): seq<Entry> {
    if queue == [] then []
    else
      var last := queue[|queue| - 1];
      FromSource(queue[..|queue| - 1], source) + if last.envelope.source == source then [last] else []
  }

  /** Every row of the table carries a message of its owner. */
  predicate OwnRows(rows: seq<Row>, source: Text) {
    forall i :: 0 <= i < |rows| ==> rows[i].envelope.source == source
  }

  /** Where the r-th entry of a source stands in the whole queue. */
  lemma {:induction false} PlaceOf(queue: seq<Entry>, source: Text, r: nat) returns (k: nat)
    requires r < |FromSource(queue, source)|
    ensures k < |queue| && queue[k] == FromSource(queue, source)[r] && queue[k].envelope.source == source
    ensures FromSource(queue[..k], source) == FromSource(queue, source)[..r]
  {
    var init := queue[..|queue| - 1];
    if r < |FromSource(init, source)| {
      k := PlaceOf(init, source, r);
      assert init[..k] == queue[..k];
    } else {
      k := |queue| - 1;
    }
  }

  lemma {:induction false} FromSourceHas(queue: seq<Entry>, source: Text, j: nat)
    requires j < |queue| && queue[j].envelope.source == source
    ensures queue[j] in FromSource(queue, source)
  {
    if j < |queue| - 1 {
      FromSourceHas(queue[..|queue| - 1], source, j);
    }
  }

  /** Marking an entry delivered changes its own source's part in that place and no other part. */
  lemma {:induction false} FromSourceUpdated(queue: seq<Entry>, k: nat, entry: Entry, source: Text)
    requires k < |queue| && entry.envelope == queue[k].envelope
    ensures entry.envelope.source != source ==> FromSource(queue[k := entry], source) == FromSource(queue, source)
    ensures entry.envelope.source == source ==>
      var r := |FromSource(queue[..k], source)|;
      r < |FromSource(queue, source)| && FromSource(queue[k := entry], source) == FromSource(queue, source)[r := entry]
  {
    var init, updated := queue[..|queue| - 1], queue[k := entry];
    if k < |init| {
      FromSourceUpdated(init, k, entry, source);
      assert updated[..|init|] == init[k := entry] && init[..k] == queue[..k];
    } else {
      assert updated[..|init|] == init;
    }
  }

  /** The sender's table and its part of the channel's queue agree. */
  predicate Feeds(rows: seq<Row>, source: Text, peer: Text, queue: seq<Entry>) {
    OwnRows(rows, source) && FromSource(queue, source) == Project(rows, peer)
  }

  // ---------------------------------------------------------------- flush as moves of the channel

  /** The row that `flush` picks is one the channel may send, whatever other sources have queued. */
  lemma HeadIsSendable(s: System, rows: seq<Row>, source: Text, i: nat) returns (k: nat)
    requires i < |rows| && OutboxStore.Head(rows, i) && Feeds(rows, source, rows[i].peer, s.queue)
    ensures IsHead(s, k) && s.queue[k] == Entry(rows[i].envelope, false)
    ensures FromSource(s.queue[..k], source) == Project(rows[..i], rows[i].peer)
  {
    ProjectAt(rows, i);
    k := PlaceOf(s.queue, source, Rank(rows, i));
    forall x | 0 <= x < k && SameFlow(s.queue[x].envelope, s.queue[k].envelope) ensures s.queue[x].delivered {
      FromSourceHas(s.queue[..k], source, x);
      var r :| 0 <= r < |Project(rows[..i], rows[i].peer)| && Project(rows[..i], rows[i].peer)[r] == s.queue[x];
      var j := ProjectedFrom(rows[..i], rows[i].peer, r);
      assert OutboxStore.SameLane(rows, i, j);
    }
  }

  lemma {:induction false} ProjectDelivered(rows: seq<Row>, i: nat)
    requires i < |rows|
    ensures Rank(rows, i) < |Project(rows, rows[i].peer)|
    ensures Project(Delivered(rows, i), rows[i].peer) ==
      Project(rows, rows[i].peer)[Rank(rows, i) := Entry(rows[i].envelope, true)]
  {
    ProjectAt(rows, i);
    var init, r := rows[..|rows| - 1], Delivered(rows, i);
    if i < |init| {
      ProjectDelivered(init, i);
      assert r[..|init|] == Delivered(init, i) && init[..i] == rows[..i];
      ProjectAt(init, i);
    } else {
      assert r[..|init|] == init;
    }
  }

  lemma {:induction false} ProjectIgnores(rows: seq<Row>, r: seq<Row>, peer: Text)
    requires |r| == |rows|
    requires forall i :: 0 <= i < |rows| && (rows[i].peer == peer || r[i].peer == peer) ==>
      r[i].peer == rows[i].peer && r[i].envelope == rows[i].envelope && r[i].pending == rows[i].pending
    ensures Project(r, peer) == Project(rows, peer)
  {
    if rows != [] {
      ProjectIgnores(rows[..|rows| - 1], r[..|rows| - 1], peer);
    }
  }

  /** Marking an acknowledged head delivered is a confirmation in the channel, after which this
      sender's table and every other sender's part of the queue still agree with it. */
  lemma DeliveryIsConfirmation(s: System, rows: seq<Row>, source: Text, i: nat) returns (k: nat)
    requires i < |rows| && OutboxStore.Head(rows, i) && Feeds(rows, source, rows[i].peer, s.queue)
    requires rows[i].envelope.id in s.node.acks
    ensures Feeds(Delivered(rows, i), source, rows[i].peer, Step(s, Confirm(k)).queue)
    ensures Step(s, Confirm(k)) == s.(queue := Step(s, Confirm(k)).queue)
    ensures forall other :: other != source ==>
      FromSource(Step(s, Confirm(k)).queue, other) == FromSource(s.queue, other)
  {
    k := HeadIsSendable(s, rows, source, i);
    var entry := Entry(rows[i].envelope, true);
    forall src ensures src != source ==> FromSource(s.queue[k := entry], src) == FromSource(s.queue, src) {
      FromSourceUpdated(s.queue, k, entry, src);
    }
    FromSourceUpdated(s.queue, k, entry, source);
    ProjectDelivered(rows, i);
    assert Step(s, Confirm(k)).queue == s.queue[k := entry];
  }

  /** A failed attempt, and anything done for another peer, is no move of the channel at all. */
  lemma OtherAttemptsAreSilent(rows: seq<Row>, source: Text, i: nat, now: int, peer: Text, queue: seq<Entry>)
    requires i < |rows| && Feeds(rows, source, peer, queue)
    ensures Feeds(FailedAttempt(rows, i, now), source, peer, queue)
    ensures rows[i].peer != peer ==> Feeds(Delivered(rows, i), source, peer, queue)
  {
    ProjectIgnores(rows, FailedAttempt(rows, i, now), peer);
    if rows[i].peer != peer {
      ProjectIgnores(rows, Delivered(rows, i), peer);
    }
  }

  /** Queueing a message extends its own source's part and no other. */
  lemma QueueingExtends(s: System, e: Envelope, source: Text)
    ensures FromSource(Step(s, Move.Enqueue(e)).queue, source)
      == FromSource(s.queue, source) + if e.source == source then [Entry(e, false)] else []
  {
    assert (s.queue + [Entry(e, false)])[..|s.queue|] == s.queue;
  }

  /** Admitting new rows appends the peer's messages in the batch's order. */
  lemma {:induction false} AdmissionAppends(rows: seq<Row>, items: seq<Item>, now: int, peer: Text, r: seq<Row>)
    requires Outbox.Insert(rows, items, now) == Some(r)
    ensures Project(r, peer) ==
      Project(rows, peer) + Project(seq(|items|, k requires 0 <= k < |items| => NewRow(items[k], now)), peer)
  {
    if items != [] {
      var init, last := items[..|items| - 1], items[|items| - 1];
      var before := Outbox.Insert(rows, init, now).value;
      AdmissionAppends(rows, init, now, peer, before);
      assert r[..|r| - 1] == before;
      var all := seq(|items|, k requires 0 <= k < |items| => NewRow(items[k], now));
      assert all[..|init|] == seq(|init|, k requires 0 <= k < |init| => NewRow(init[k], now));
    }
  }
}
