/** The outbound queue as it runs: batch admission with its scratch tables, the query
    for deliverable heads, and the nested loops of `flush`. */
module OutboxStore {
  import opened Ump
  import opened Outbox

  /** What one flush runs under: the instant, the configured peers, the order of their
      identifiers as an embedding, and for each row whether a send of it is acknowledged. */
  datatype Conditions = Conditions(now: int, peers: set<Text>, rank: Text -> real, reaches: nat -> bool)

  // ---------------------------------------------------------------- lanes

  predicate SameLane(rows: seq<Row>, i: nat, j: nat)
    requires i < |rows| && j < |rows|
  {
    rows[i].peer == rows[j].peer && rows[i].envelope.stream == rows[j].envelope.stream
  }

  /** The oldest pending row of its peer and stream. */
  predicate Head(rows: seq<Row>, i: nat)
    requires i < |rows|
  {
    rows[i].pending && forall j :: 0 <= j < i ==> !(rows[j].pending && SameLane(rows, i, j))
  }

  /** Without a stream both are wanted. */
  predicate Wanted(stream: Option<Stream>, s: Stream) {
    stream.Some? ==> s == stream.value
  }

  predicate Eligible(rows: seq<Row>, now: int, stream: Option<Stream>, i: nat)
    requires i < |rows|
  {
    Wanted(stream, rows[i].envelope.stream) && rows[i].nextAttempt <= now && Head(rows, i)
  }

  /** The order of the query: safety first, then age, then the peer identifier. */
  predicate NotAfter(rows: seq<Row>, rank: Text -> real, i: nat, j: nat)
    requires i < |rows| && j < |rows|
  {
    var a, b := rows[i], rows[j];
    if a.envelope.stream != b.envelope.stream then a.envelope.stream == Safety
    else a.created < b.created || (a.created == b.created && rank(a.peer) <= rank(b.peer))
  }

  /** The result of the query: eligible heads in order, at most `limit`, and none left out while there is room. */
  predicate IsReadyList(rows: seq<Row>, c: Conditions, stream: Option<Stream>, limit: nat, list: seq<nat>) {
    && |list| <= limit
    && (forall k :: 0 <= k < |list| ==> list[k] < |rows| && Eligible(rows, c.now, stream, list[k]))
    && (forall k, l :: 0 <= k < l < |list| ==> list[k] != list[l] && NotAfter(rows, c.rank, list[k], list[l]))
    && (forall i :: 0 <= i < |rows| && Eligible(rows, c.now, stream, i) && i !in list ==>
         |list| == limit && forall k :: 0 <= k < |list| ==> NotAfter(rows, c.rank, list[k], i))
  }

  /** The rows that may be attempted: pending, due, of a wanted stream, and first of their lane's pending rows. */
  lemma EligibleMeans(rows: seq<Row>, now: int, stream: Option<Stream>, i: nat)
    requires i < |rows|
    ensures Eligible(rows, now, stream, i) <==>
      && rows[i].pending && rows[i].nextAttempt <= now
      && (stream.Some? ==> rows[i].envelope.stream == stream.value)
      && (forall j :: 0 <= j < i && rows[j].pending ==>
           rows[j].peer != rows[i].peer || rows[j].envelope.stream != rows[i].envelope.stream)
  {
  }

  /** What a ready list is: as many of the rows that may be attempted as fit, once each, safety first,
      then by age, then by recipient; nothing is left out while there is room. */
  lemma ReadyListMeans(rows: seq<Row>, c: Conditions, stream: Option<Stream>, limit: nat, list: seq<nat>)
    requires IsReadyList(rows, c, stream, limit, list)
    ensures |list| <= limit && forall k :: 0 <= k < |list| ==>
      && list[k] < |rows| && rows[list[k]].pending && rows[list[k]].nextAttempt <= c.now
      && (stream.Some? ==> rows[list[k]].envelope.stream == stream.value)
    ensures forall k, l :: 0 <= k < l < |list| ==>
      var a, b := rows[list[k]], rows[list[l]];
      && (a.peer != b.peer || a.envelope.stream != b.envelope.stream)
      && (b.envelope.stream == Safety ==> a.envelope.stream == Safety)
      && (a.envelope.stream == b.envelope.stream ==> a.created <= b.created)
      && (a.envelope.stream == b.envelope.stream && a.created == b.created ==> c.rank(a.peer) <= c.rank(b.peer))
    ensures |list| < limit ==> forall i: nat :: i < |rows| && Eligible(rows, c.now, stream, i) ==> i in list
  {
  }

  /** Delivered rows of a lane form a prefix of it. */
  predicate DeliveredPrefix(rows: seq<Row>) {
    forall i, j :: 0 <= i < j < |rows| && SameLane(rows, i, j) && !rows[j].pending ==> !rows[i].pending
  }

  /** The rows agree on everything but the delivery of the attempted ones. */
  predicate OnlyAttempted(before: seq<Row>, after: seq<Row>, attempted: seq<nat>) {
    && |after| == |before|
    && (forall i :: 0 <= i < |before| ==>
      after[i].peer == before[i].peer && after[i].envelope == before[i].envelope &&
        after[i].created == before[i].created)
    && (forall i :: 0 <= i < |before| && i !in attempted ==> after[i] == before[i])
  }

  /** New rows are pending and go to the end, so admission keeps the delivered prefixes. */
  lemma EnqueueKeepsPrefix(rows: seq<Row>, l: Limits, items: seq<Item>, now: int)
    requires DeliveredPrefix(rows) && EnqueueMany(rows, l, items, now).Ok?
    ensures DeliveredPrefix(EnqueueMany(rows, l, items, now).value)
  {
    var r := EnqueueMany(rows, l, items, now).value;
    if items != [] {
      InsertCounts(rows, NewItems(rows, items), now, r, Safety);
      forall j | |rows| <= j < |r| ensures r[j].pending {
        assert r[|rows| + (j - |rows|)] == NewRow(NewItems(rows, items)[j - |rows|], now);
      }
      forall i, j | 0 <= i < j < |r| && SameLane(r, i, j) && !r[j].pending ensures !r[i].pending {
        assert r[i] == r[..|rows|][i] && r[j] == r[..|rows|][j] && SameLane(rows, i, j);
      }
    }
  }

  /** How many of the listed rows are delivered. */
  function DeliveredAmong(rows: seq<Row>, list: seq<nat>): nat
    requires forall k :: 0 <= k < |list| ==> list[k] < |rows|
  {
    if list == [] then 0
    else DeliveredAmong(rows, list[..|list| - 1]) + if rows[list[|list| - 1]].pending then 0 else 1
  }

  /** Rewriting rows outside the list does not change the count. */
  lemma {:induction false} DeliveredAmongUnchanged(rows: seq<Row>, list: seq<nat>, after: seq<Row>)
    requires |after| == |rows| && forall k :: 0 <= k < |list| ==> list[k] < |rows| && after[list[k]] == rows[list[k]]
    ensures DeliveredAmong(after, list) == DeliveredAmong(rows, list)
  {
    if list != [] {
      DeliveredAmongUnchanged(rows, list[..|list| - 1], after);
    }
  }

  /** The attempted row is settled: delivered, or waiting beyond `now`. */
  predicate Settled(before: seq<Row>, after: seq<Row>, c: Conditions, i: nat) {
    && i < |before| == |after| && before[i].pending
    && if before[i].peer in c.peers && c.reaches(i) then after[i] == before[i].(pending := false)
       else
         var attempts := before[i].attempts + 1;
         after[i] == before[i].(attempts := attempts, nextAttempt := c.now + Backoff(attempts))
  }

  /** The first `n` rows of the list have been attempted, once each, and nothing else changed. */
  ghost predicate RoundDone(before: seq<Row>, rows: seq<Row>, c: Conditions, list: seq<nat>, n: nat) {
    && n <= |list| && DeliveredPrefix(rows) && OnlyAttempted(before, rows, list[..n])
    && (forall k :: 0 <= k < |list| ==> list[k] < |before| && Head(before, list[k]))
    && (forall k, l :: 0 <= k < l < |list| ==> list[k] != list[l])
    && (forall k :: 0 <= k < n ==> Settled(before, rows, c, list[k]))
  }

  lemma AttemptCounts(rows: seq<Row>, after: seq<Row>, list: seq<nat>, n: nat)
    requires n < |list| && |after| == |rows| && forall k :: 0 <= k < |list| ==> list[k] < |rows|
    requires forall k :: 0 <= k < n ==> after[list[k]] == rows[list[k]]
    ensures DeliveredAmong(after, list[..n + 1])
      == DeliveredAmong(rows, list[..n]) + if after[list[n]].pending then 0 else 1
  {
    assert list[..n + 1][..n] == list[..n];
    DeliveredAmongUnchanged(rows, list[..n], after);
  }

  lemma RoundStep(before: seq<Row>, rows: seq<Row>, after: seq<Row>, c: Conditions, list: seq<nat>, n: nat)
    requires RoundDone(before, rows, c, list, n) && n < |list| && Head(rows, list[n])
    requires after == if rows[list[n]].peer in c.peers && c.reaches(list[n]) then Delivered(rows, list[n])
      else FailedAttempt(rows, list[n], c.now)
    ensures RoundDone(before, after, c, list, n + 1)
  {
  }

  /** Rows were attempted at most once each, each after every earlier row of its lane was delivered. */
  ghost predicate FlushDone(before: seq<Row>, rows: seq<Row>, c: Conditions, stream: Option<Stream>,
      attempted: seq<nat>) {
    && DeliveredPrefix(rows) && OnlyAttempted(before, rows, attempted) && Distinct(attempted)
    && (forall k :: 0 <= k < |attempted| ==>
      Settled(before, rows, c, attempted[k]) && Wanted(stream, rows[attempted[k]].envelope.stream))
    && (forall k, a :: 0 <= k < |attempted| && 0 <= a < attempted[k] && SameLane(rows, attempted[k], a) ==>
      !rows[a].pending)
  }

  lemma SettledIsNotEligible(before: seq<Row>, rows: seq<Row>, c: Conditions, stream: Option<Stream>, i: nat)
    requires Settled(before, rows, c, i)
    ensures !Eligible(rows, c.now, stream, i)
  {
    BackoffSchedule(before[i].attempts + 1, before[i].attempts + 1);
  }

  lemma FlushStep(before: seq<Row>, rows: seq<Row>, after: seq<Row>, c: Conditions, stream: Option<Stream>,
      attempted: seq<nat>, list: seq<nat>)
    requires FlushDone(before, rows, c, stream, attempted)
    requires forall k :: 0 <= k < |list| ==> list[k] < |rows| && Eligible(rows, c.now, stream, list[k])
    requires RoundDone(rows, after, c, list, |list|)
    ensures FlushDone(before, after, c, stream, attempted + list)
    ensures forall x :: x in list ==> x !in attempted
  {
    assert list[..|list|] == list;
    forall k | 0 <= k < |attempted| ensures attempted[k] !in list {
      SettledIsNotEligible(before, rows, c, stream, attempted[k]);
    }
    var all := attempted + list;
    forall k | 0 <= k < |all|
      ensures Settled(before, after, c, all[k]) && Wanted(stream, after[all[k]].envelope.stream)
    {
      if k < |attempted| {
        assert Settled(before, rows, c, attempted[k]) && attempted[k] !in list;
      } else {
        var i := list[k - |attempted|];
        assert Settled(rows, after, c, i) && i !in attempted && rows[i] == before[i];
      }
    }
    forall k, a | 0 <= k < |all| && 0 <= a < all[k] && SameLane(after, all[k], a) ensures !after[a].pending {
      assert SameLane(rows, all[k], a);
      if k >= |attempted| {
        assert Head(rows, list[k - |attempted|]);
      }
      assert !rows[a].pending;
      if a in list {
        assert false;
      }
    }
  }

  lemma {:induction false} AmongConcat(rows: seq<Row>, a: seq<nat>, b: seq<nat>)
    requires forall k :: 0 <= k < |a| ==> a[k] < |rows|
    requires forall k :: 0 <= k < |b| ==> b[k] < |rows|
    ensures DeliveredAmong(rows, a + b) == DeliveredAmong(rows, a) + DeliveredAmong(rows, b)
  {
    if b == [] {
      assert a + b == a;
    } else {
      assert (a + b)[..|a + b| - 1] == a + b[..|b| - 1];
      AmongConcat(rows, a, b[..|b| - 1]);
    }
  }

  lemma {:induction false} AmongBound(rows: seq<Row>, list: seq<nat>)
    requires forall k :: 0 <= k < |list| ==> list[k] < |rows|
    ensures DeliveredAmong(rows, list) <= |list|
    ensures DeliveredAmong(rows, list) == 0 ==> forall k :: 0 <= k < |list| ==> rows[list[k]].pending
  {
    if list != [] {
      AmongBound(rows, list[..|list| - 1]);
      assert forall k :: 0 <= k < |list| - 1 ==> list[..|list| - 1][k] == list[k];
    }
  }

  predicate NoneEligible(rows: seq<Row>, now: int, stream: Option<Stream>) {
    forall i :: 0 <= i < |rows| ==> !Eligible(rows, now, stream, i)
  }

  /** A round without any delivery that had room to spare leaves nothing eligible. */
  lemma NothingLeft(rows: seq<Row>, after: seq<Row>, c: Conditions, stream: Option<Stream>, list: seq<nat>, room: nat)
    requires IsReadyList(rows, c, stream, room, list) && RoundDone(rows, after, c, list, |list|)
    requires DeliveredAmong(after, list) == 0
    ensures |list| < room ==> NoneEligible(after, c.now, stream)
  {
    AmongBound(after, list);
    assert list[..|list|] == list;
    forall i | 0 <= i < |after| && |list| < room ensures !Eligible(after, c.now, stream, i) {
      if i in list {
        SettledIsNotEligible(rows, after, c, stream, i);
      } else {
        assert !Eligible(rows, c.now, stream, i);
        assert forall j :: 0 <= j < i ==>
          SameLane(after, i, j) == SameLane(rows, i, j) && after[j].pending == rows[j].pending;
      }
    }
  }

  lemma PassDone(before: seq<Row>, rows: seq<Row>, after: seq<Row>, c: Conditions, stream: Option<Stream>,
      attempted: seq<nat>, list: seq<nat>, room: nat)
    requires FlushDone(before, rows, c, stream, attempted)
    requires IsReadyList(rows, c, stream, room, list) && RoundDone(rows, after, c, list, |list|)
    ensures FlushDone(before, after, c, stream, attempted + list)
    ensures DeliveredAmong(after, attempted + list) == DeliveredAmong(rows, attempted) + DeliveredAmong(after, list)
    ensures DeliveredAmong(after, list) == 0 && |attempted + list| < DeliveredAmong(rows, attempted) + room ==>
      NoneEligible(after, c.now, stream)
  {
    FlushStep(before, rows, after, c, stream, attempted, list);
    assert list[..|list|] == list;
    DeliveredAmongUnchanged(rows, attempted, after);
    AmongConcat(after, attempted, list);
    AmongBound(rows, attempted);
    if DeliveredAmong(after, list) == 0 {
      NothingLeft(rows, after, c, stream, list, room);
    }
  }

  /** Two flushes in a row, of different streams, are one flush of both. */
  lemma FlushesJoin(before: seq<Row>, mid: seq<Row>, rows: seq<Row>, c: Conditions, urgent: seq<nat>,
      ordinary: seq<nat>)
    requires FlushDone(before, mid, c, Some(Safety), urgent) && FlushDone(mid, rows, c, Some(Operational), ordinary)
    ensures FlushDone(before, rows, c, None, urgent + ordinary)
    ensures NoneEligible(mid, c.now, Some(Safety)) && NoneEligible(rows, c.now, Some(Operational)) ==>
      NoneEligible(rows, c.now, None)
  {
    var all := urgent + ordinary;
    forall k | 0 <= k < |urgent| ensures urgent[k] !in ordinary {
      assert mid[urgent[k]].envelope.stream == Safety;
    }
    forall k | 0 <= k < |all| ensures Settled(before, rows, c, all[k]) {
      if k < |urgent| {
        assert Settled(before, mid, c, urgent[k]) && urgent[k] !in ordinary;
      } else {
        assert Settled(mid, rows, c, ordinary[k - |urgent|]) && ordinary[k - |urgent|] !in urgent;
      }
    }
    forall k, a | 0 <= k < |all| && 0 <= a < all[k] && SameLane(rows, all[k], a) ensures !rows[a].pending {
      if k < |urgent| {
        assert SameLane(mid, urgent[k], a) && a !in ordinary;
      } else {
        assert all[k] == ordinary[k - |urgent|];
      }
    }
    if NoneEligible(mid, c.now, Some(Safety)) && NoneEligible(rows, c.now, Some(Operational)) {
      forall i | 0 <= i < |rows| ensures !Eligible(rows, c.now, None, i) {
        assert !Eligible(rows, c.now, Some(Operational), i) && !Eligible(mid, c.now, Some(Safety), i);
        if rows[i].envelope.stream == Safety {
          assert i !in ordinary;
          assert forall j :: 0 <= j < i && SameLane(rows, i, j) ==> j !in ordinary && SameLane(mid, i, j);
        }
      }
    }
  }

  class Queue {
    var rows: seq<Row>
    const limits: Limits

    constructor (l: Limits)
      requires ValidLimits(l)
      ensures rows == [] && limits == l
    {
      rows, limits := [], l;
    }

    /** Collect the new items of a batch, or stop at the first clash. */
    method Screen(items: seq<Item>) returns (clash: bool, added: seq<Item>)
      ensures clash <==> !Consistent(rows, items)
      ensures !clash ==> added == NewItems(rows, items)
    {
      added := [];
      for i := 0 to |items|
        invariant forall k :: 0 <= k < i ==> !Clashes(rows, items[..k], items[k])
        invariant added == NewItems(rows, items[..i])
      {
        assert items[..i + 1][..i] == items[..i];
        if Clashes(rows, items[..i], items[i]) {
          return true, added;
        }
        if !Stored(rows, items[i]) && !Listed(items[..i], items[i]) {
          added := added + [items[i]];
        }
      }
      assert items[..|items|] == items;
      clash := false;
    }

    method InsertRows(items: seq<Item>, now: int) returns (ok: bool)
      modifies this
      ensures ok <==> Insert(old(rows), items, now).Some?
      ensures ok ==> Insert(old(rows), items, now) == Some(rows)
    {
      for i := 0 to |items|
        invariant Insert(old(rows), items[..i], now) == Some(rows)
      {
        assert items[..i + 1][..i] == items[..i];
        if SlotTaken(rows, items[i]) {
          RefusedInsert(old(rows), items, i + 1, now);
          return false;
        }
        rows := rows + [NewRow(items[i], now)];
      }
      assert items[..|items|] == items;
      ok := true;
    }

    static lemma {:induction false} RefusedInsert(rows: seq<Row>, items: seq<Item>, i: nat, now: int)
      requires i <= |items| && Insert(rows, items[..i], now).None?
      ensures Insert(rows, items, now).None?
      decreases |items| - i
    {
      if i == |items| {
        assert items[..i] == items;
      } else {
        assert items[..i + 1][..i] == items[..i];
        RefusedInsert(rows, items, i + 1, now);
      }
    }

    method EnqueueMany(items: seq<Item>, now: int) returns (r: Result<(), OutboxError>)
      modifies this
      ensures match Outbox.EnqueueMany(old(rows), limits, items, now)
        case Ok(after) => r == Ok(()) && rows == after
        case Err(e) => r == Err(e) && rows == old(rows)
    {
      if items == [] {
        return Ok(());
      }
      var clash, added := Screen(items);
      if clash {
        return Err(BoundToDifferentContent);
      }
      if PendingCount(rows) + |added| > limits.maximum {
        return Err(Full);
      }
      if StreamCount(rows, Operational) + ItemCount(added, Operational) > limits.maximum - limits.reserve {
        return Err(PreservingSafetyCapacity);
      }
      var before := rows;
      var inserted := InsertRows(added, now);
      if !inserted {
        rows := before;
        return Err(IntegrityError);
      }
      return Ok(());
    }

    // -------------------------------------------------------------- the query for heads

    method Earliest(c: Conditions, stream: Option<Stream>, taken: seq<nat>) returns (best: Option<nat>)
      ensures best.Some? ==> best.value < |rows| && Eligible(rows, c.now, stream, best.value) && best.value !in taken
      ensures forall i :: 0 <= i < |rows| && Eligible(rows, c.now, stream, i) && i !in taken ==>
        best.Some? && NotAfter(rows, c.rank, best.value, i)
    {
      best := None;
      for n := 0 to |rows|
        invariant best.Some? ==> best.value < n && Eligible(rows, c.now, stream, best.value) && best.value !in taken
        invariant forall i :: 0 <= i < n && Eligible(rows, c.now, stream, i) && i !in taken ==>
          best.Some? && NotAfter(rows, c.rank, best.value, i)
      {
        if Eligible(rows, c.now, stream, n) && n !in taken && (best.None? || !NotAfter(rows, c.rank, best.value, n)) {
          best := Some(n);
        }
      }
    }

    /** The source refuses a limit below one. */
    method Ready(c: Conditions, stream: Option<Stream>, limit: nat) returns (r: Option<seq<nat>>)
      ensures r.None? <==> limit == 0
      ensures r.Some? ==> IsReadyList(rows, c, stream, limit, r.value)
    {
      if limit == 0 {
        return None;
      }
      var list: seq<nat> := [];
      while |list| < limit
        invariant |list| <= limit
        invariant forall k :: 0 <= k < |list| ==> list[k] < |rows| && Eligible(rows, c.now, stream, list[k])
        invariant forall k, l :: 0 <= k < l < |list| ==> list[k] != list[l] && NotAfter(rows, c.rank, list[k], list[l])
        invariant forall i :: 0 <= i < |rows| && Eligible(rows, c.now, stream, i) && i !in list ==>
          forall k :: 0 <= k < |list| ==> NotAfter(rows, c.rank, list[k], i)
      {
        var next := Earliest(c, stream, list);
        if next.None? {
          break;
        }
        list := list + [next.value];
      }
      return Some(list);
    }

    // -------------------------------------------------------------- flush

    /** One attempt: an unconfigured peer or a failed send reschedules the row. */
    method Attempt(i: nat, c: Conditions) returns (ok: bool)
      requires i < |rows| && rows[i].pending
      modifies this
      ensures ok <==> old(rows)[i].peer in c.peers && c.reaches(i)
      ensures rows == if ok then Delivered(old(rows), i) else FailedAttempt(old(rows), i, c.now)
    {
      ok := rows[i].peer in c.peers && c.reaches(i);
      if ok {
        rows := rows[i := rows[i].(pending := false)];
      } else {
        var attempts := rows[i].attempts + 1;
        rows := rows[i := rows[i].(attempts := attempts, nextAttempt := c.now + Backoff(attempts))];
      }
    }

    /** Attempt every row of one ready list; the rows belong to different lanes. */
    method Round(c: Conditions, stream: Option<Stream>, list: seq<nat>) returns (delivered: nat)
      requires DeliveredPrefix(rows)
      requires forall k :: 0 <= k < |list| ==> list[k] < |rows| && Eligible(rows, c.now, stream, list[k])
      requires forall k, l :: 0 <= k < l < |list| ==> list[k] != list[l]
      modifies this
      ensures RoundDone(old(rows), rows, c, list, |list|)
      ensures delivered == DeliveredAmong(rows, list) <= |list|
    {
      delivered := 0;
      for n := 0 to |list|
        invariant RoundDone(old(rows), rows, c, list, n)
        invariant delivered == DeliveredAmong(rows, list[..n]) <= n
      {
        ghost var before := rows;
        var ok := Attempt(list[n], c);
        RoundStep(old(rows), before, rows, c, list, n);
        AttemptCounts(before, rows, list, n);
        if ok {
          delivered := delivered + 1;
        }
      }
      assert list[..|list|] == list;
    }

    /** Deliver one stream's backlog at one instant. */
    method Flush(c: Conditions, limit: nat, stream: Stream) returns (delivered: nat, ghost attempted: seq<nat>)
      requires DeliveredPrefix(rows)
      modifies this
      ensures FlushDone(old(rows), rows, c, Some(stream), attempted)
      ensures delivered == DeliveredAmong(rows, attempted) <= limit
      ensures |attempted| < limit ==> NoneEligible(rows, c.now, Some(stream))
    {
      delivered, attempted := 0, [];
      var progressed := true;
      while delivered < limit && progressed
        invariant FlushDone(old(rows), rows, c, Some(stream), attempted)
        invariant delivered == DeliveredAmong(rows, attempted) <= limit
        invariant !progressed && |attempted| < limit ==> NoneEligible(rows, c.now, Some(stream))
        decreases limit - delivered, progressed
      {
        ghost var before := rows;
        ghost var list;
        var sent;
        sent, list := Pass(c, Some(stream), limit - delivered);
        PassDone(old(rows), before, rows, c, Some(stream), attempted, list, limit - delivered);
        delivered, attempted, progressed := delivered + sent, attempted + list, sent > 0;
      }
      AmongBound(rows, attempted);
    }

    /** Fetch the deliverable heads and attempt them. */
    method Pass(c: Conditions, stream: Option<Stream>, room: nat) returns (sent: nat, ghost list: seq<nat>)
      requires DeliveredPrefix(rows) && room > 0
      modifies this
      ensures IsReadyList(old(rows), c, stream, room, list) && RoundDone(old(rows), rows, c, list, |list|)
      ensures sent == DeliveredAmong(rows, list) <= room
    {
      var ready := Ready(c, stream, room);
      list := ready.value;
      sent := Round(c, stream, ready.value);
    }

    /** Both streams: safety first, operational messages with what is left of the limit. */
    method FlushAll(c: Conditions, limit: nat)
      returns (delivered: nat, ghost urgent: seq<nat>, ghost ordinary: seq<nat>)
      requires DeliveredPrefix(rows)
      modifies this
      ensures FlushDone(old(rows), rows, c, None, urgent + ordinary)
      ensures forall k :: 0 <= k < |urgent| ==> urgent[k] < |rows| && rows[urgent[k]].envelope.stream == Safety
      ensures forall k :: 0 <= k < |ordinary| ==>
        ordinary[k] < |rows| && rows[ordinary[k]].envelope.stream == Operational
      ensures delivered == DeliveredAmong(rows, urgent + ordinary) <= limit
      ensures ordinary != [] ==> DeliveredAmong(rows, urgent) < limit
      ensures |urgent| + |ordinary| < limit ==> NoneEligible(rows, c.now, None)
    {
      delivered, urgent := Flush(c, limit, Safety);
      ordinary := [];
      ghost var between := rows;
      AmongBound(rows, urgent);
      if delivered >= limit {
        FlushesJoin(old(rows), rows, rows, c, urgent, []);
        assert urgent + ordinary == urgent;
        return;
      }
      var more, rest := Flush(c, limit - delivered, Operational);
      FlushesJoin(old(rows), between, rows, c, urgent, rest);
      DeliveredAmongUnchanged(between, urgent, rows);
      AmongConcat(rows, urgent, rest);
      delivered, ordinary := delivered + more, rest;
    }
  }
}
