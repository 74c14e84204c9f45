/** The two journals as they run, each proved against its specification, and the proof
    that the dictionary journal cannot be told apart from the durable one. */
module JournalStores {
  import opened Ump
  import J = Journal

  lemma OwnedPrefix(list: seq<Text>, i: nat, id: Text)
    requires i < |list|
    ensures J.Owned(list[..i + 1], id) == J.Owned(list[..i], id)[list[i] := id]
    ensures list[i] in J.Owned(list[..i], id) <==> exists k :: 0 <= k < i && list[k] == list[i]
  {
  }

  /** The k-th resource is neither reserved already nor repeated within the list. */
  predicate Free(reservations: map<Text, Text>, list: seq<Text>, k: nat)
  {
    k < |list| && list[k] !in reservations && forall j :: 0 <= j < k ==> list[j] != list[k]
  }

  lemma FreeExactly(reservations: map<Text, Text>, list: seq<Text>)
    ensures (forall k :: 0 <= k < |list| ==> Free(reservations, list, k)) <==>
      (Distinct(list) && forall x :: x in list ==> x !in reservations)
  {
    if forall k :: 0 <= k < |list| ==> Free(reservations, list, k) {
      forall i, j | 0 <= i < j < |list| ensures list[i] != list[j] {
        assert Free(reservations, list, j);
      }
      forall x | x in list ensures x !in reservations {
        var k :| 0 <= k < |list| && list[k] == x;
        assert Free(reservations, list, k);
      }
    }
  }

  // ---------------------------------------------------------------- durable journal

  class SqliteJournal {
    var rows: map<Text, J.Row>
    var reservations: map<Text, Text>
    var resolutions: map<Text, Outcome>

    function Contents(): J.Ledger
      reads this
    {
      J.Ledger(rows, reservations, resolutions)
    }

    constructor ()
      ensures Contents() == J.EMPTY
    {
      rows, reservations, resolutions := map[], map[], map[];
    }

    /** What opening an existing database file does first. */
    method Reopen()
      modifies this
      ensures Contents() == J.Restart(old(Contents()))
      ensures rows.Keys == old(rows).Keys && reservations == old(reservations) && resolutions == old(resolutions)
      ensures forall id :: id in rows && rows[id].status == Accepted ==> rows[id].outcome.Some?
      ensures forall id :: id in rows && rows[id] != old(rows)[id] ==>
        old(rows)[id].status == Accepted && rows[id] == old(rows)[id].(status := Unknown)
    {
      rows := map id | id in rows ::
        if rows[id].status == Accepted && rows[id].outcome.None? then rows[id].(status := Unknown) else rows[id];
    }

    method Claim(a: Assignment, issuer: Text) returns (r: Result<J.Claimed, J.JournalError>)
      modifies this
      ensures match J.Claim(old(Contents()), a, issuer)
        case Ok(result) => r == Ok(result.1) && Contents() == result.0
        case Err(e) => r == Err(e) && Contents() == old(Contents())
      ensures r == Ok(J.ResourceConflict) <==>
        && a.id !in old(rows)
        && exists x :: x in a.step.resources && x in old(reservations) && old(reservations)[x] != a.id
      ensures r == Ok(J.Conflict) <==>
        a.id in old(rows) && (old(rows)[a.id].assignment != a || old(rows)[a.id].issuer != issuer)
      ensures r == Ok(J.Uncertain) <==>
        a.id in old(rows) && old(rows)[a.id] == J.Row(a, issuer, old(rows)[a.id].status, None)
      ensures forall o :: r == Ok(J.Replay(o)) <==>
        a.id in old(rows) && old(rows)[a.id] == J.Row(a, issuer, old(rows)[a.id].status, Some(o))
      ensures r != Ok(J.New) ==> Contents() == old(Contents())
      ensures r == Ok(J.New) ==>
        && rows == old(rows)[a.id := J.Row(a, issuer, Accepted, None)]
        && (forall x :: x in reservations <==> x in old(reservations) || x in a.step.resources)
        && (forall x :: x in reservations ==>
             reservations[x] == if x in a.step.resources then a.id else old(reservations)[x])
    {
      if a.id !in rows {
        if exists x :: x in a.step.resources && x in reservations && reservations[x] != a.id {
          return Ok(J.ResourceConflict);
        }
        var before := Contents();
        rows := rows[a.id := J.Row(a, issuer, Accepted, None)];
        var reserved := Reserve(a);
        if !reserved {
          rows, reservations := before.rows, before.reservations;
          return Err(J.IntegrityError);
        }
        return Ok(J.New);
      }
      var row := rows[a.id];
      if row.assignment != a || row.issuer != issuer {
        return Ok(J.Conflict);
      }
      if row.outcome.Some? {
        return Ok(J.Replay(row.outcome.value));
      }
      return Ok(J.Uncertain);
    }

    /** One reservation row per resource; the primary key refuses a resource that is taken. */
    method Reserve(a: Assignment) returns (ok: bool)
      modifies `reservations
      ensures ok <==> Distinct(a.step.resources) && forall x :: x in a.step.resources ==> x !in old(reservations)
      ensures ok ==> reservations == old(reservations) + J.Owned(a.step.resources, a.id)
    {
      var list := a.step.resources;
      for i := 0 to |list|
        invariant forall k :: 0 <= k < i ==> Free(old(reservations), list, k)
        invariant reservations == old(reservations) + J.Owned(list[..i], a.id)
      {
        OwnedPrefix(list, i, a.id);
        if list[i] in reservations {
          FreeExactly(old(reservations), list);
          return false;
        }
        reservations := reservations[list[i] := a.id];
      }
      FreeExactly(old(reservations), list);
      assert list[..|list|] == list;
      return true;
    }

    method Complete(a: Assignment, o: Outcome) returns (r: Result<(), J.JournalError>)
      modifies this
      ensures match J.Complete(old(Contents()), a, o)
        case Ok(l) => r == Ok(()) && Contents() == l
        case Err(e) => r == Err(e) && Contents() == old(Contents())
      ensures r == Err(J.Unclaimed) <==> a.id !in old(rows) || old(rows)[a.id].assignment != a
      ensures r == Err(J.OutcomeImmutable) <==>
        a.id in old(rows) && old(rows)[a.id].assignment == a && old(rows)[a.id].outcome !in {None, Some(o)}
      ensures r.Ok? ==> rows == old(rows)[a.id := J.Row(a, old(rows)[a.id].issuer, o.status, Some(o))]
      ensures r.Ok? ==> forall x :: x in reservations <==>
        x in old(reservations) && (o.status == Unknown || old(reservations)[x] != a.id)
      ensures forall x :: x in reservations ==> x in old(reservations) && reservations[x] == old(reservations)[x]
    {
      if a.id !in rows || rows[a.id].assignment != a {
        return Err(J.Unclaimed);
      }
      if rows[a.id].outcome.Some? && rows[a.id].outcome.value != o {
        return Err(J.OutcomeImmutable);
      }
      rows := rows[a.id := rows[a.id].(status := o.status, outcome := Some(o))];
      if o.status != Unknown {
        reservations := J.Release(reservations, a.id);
      }
      return Ok(());
    }

    method ResolveUnknown(id: Text, status: AssignmentStatus, description: Text, documented: bool)
      returns (r: Result<Outcome, J.JournalError>)
      modifies this
      ensures match J.ResolveUnknown(old(Contents()), id, status, description, documented)
        case Ok(result) => r == Ok(result.1) && Contents() == result.0
        case Err(e) => r == Err(e) && Contents() == old(Contents())
      ensures r.Ok? <==>
        && status !in {Accepted, Unknown} && documented
        && id in old(rows) && old(rows)[id].status == Unknown && old(rows)[id].outcome.None?
        && id !in old(resolutions)
      ensures r.Ok? ==>
        && r.value == Outcome(id, old(rows)[id].assignment.step.robot, description, status)
        && rows == old(rows)[id := old(rows)[id].(status := status, outcome := Some(r.value))]
        && resolutions == old(resolutions)[id := r.value]
      ensures r.Ok? ==> forall x :: x in reservations <==> x in old(reservations) && old(reservations)[x] != id
    {
      if status == Accepted || status == Unknown || !documented {
        return Err(J.BadResolution);
      }
      if id !in rows {
        return Err(J.Missing);
      }
      if rows[id].status != Unknown || rows[id].outcome.Some? {
        return Err(J.NotUnknown);
      }
      if id in resolutions {
        return Err(J.IntegrityError);
      }
      var o := Outcome(id, rows[id].assignment.step.robot, description, status);
      resolutions := resolutions[id := o];
      rows := rows[id := rows[id].(status := status, outcome := Some(o))];
      reservations := J.Release(reservations, id);
      return Ok(o);
    }
  }

  // ---------------------------------------------------------------- dictionary journal

  /** Equality as the dictionary journal sees it: outputs are compared by value, and `meaning`
      gives the value of an encoding. 1 and 1.0 are different encodings of equal values. */
  predicate Alike(meaning: Outputs -> Text, a: Outcome, b: Outcome) {
    a.(outputs := None) == b.(outputs := None) && meaning(a.outputs) == meaning(b.outputs)
  }

  datatype Memory = Memory(records: map<Text, J.Row>, resources: map<Text, Text>)

  function MemoryClaim(m: Memory, a: Assignment, issuer: Text): (Memory, J.Claimed) {
    if a.id !in m.records then
      if exists x :: x in a.step.resources && x in m.resources && m.resources[x] != a.id then (m, J.ResourceConflict)
      else (Memory(m.records[a.id := J.Row(a, issuer, Accepted, None)], m.resources + J.Owned(a.step.resources, a.id)),
        J.New)
    else
      var row := m.records[a.id];
      if row.assignment != a || row.issuer != issuer then (m, J.Conflict)
      else if row.outcome.Some? then (m, J.Replay(row.outcome.value))
      else (m, J.Uncertain)
  }

  /** Drop the listed resources that the assignment holds. */
  function ReleaseListed(resources: map<Text, Text>, list: seq<Text>, id: Text): map<Text, Text> {
    map x | x in resources && (x !in list || resources[x] != id) :: resources[x]
  }

  function MemoryComplete(meaning: Outputs -> Text, m: Memory, a: Assignment, o: Outcome)
    : Result<Memory, J.JournalError>
  {
    if a.id !in m.records || m.records[a.id].assignment != a then Err(J.Unclaimed)
    else if m.records[a.id].outcome.Some? && !Alike(meaning, m.records[a.id].outcome.value, o) then
      Err(J.OutcomeImmutable)
    else
      var records := m.records[a.id := J.Row(a, m.records[a.id].issuer, o.status, Some(o))];
      if o.status == Unknown then Ok(m.(records := records))
      else Ok(Memory(records, ReleaseListed(m.resources, a.step.resources, a.id)))
  }

  function MemoryResolve(meaning: Outputs -> Text, m: Memory, id: Text, status: AssignmentStatus, description: Text,
      documented: bool)
    : Result<(Memory, Outcome), J.JournalError> {
    if status == Accepted || status == Unknown || !documented then Err(J.BadResolution)
    else if id !in m.records then Err(J.Missing)
    else if m.records[id].status != Unknown || m.records[id].outcome.Some? then Err(J.NotUnknown)
    else
      var o := Outcome(id, m.records[id].assignment.step.robot, description, status);
      match MemoryComplete(meaning, m, m.records[id].assignment, o)
      case Ok(m') => Ok((m', o))
      case Err(e) => Err(e)
  }

  function MemoryRespond(meaning: Outputs -> Text, m: Memory, c: J.Call): (Memory, J.Reply)
    requires !c.Reopen?
  {
    match c
    case ClaimCall(a, issuer) => var r := MemoryClaim(m, a, issuer); (r.0, J.Claims(r.1))
    case CompleteCall(a, o) =>
      (match MemoryComplete(meaning, m, a, o) case Ok(m') => (m', J.Done) case Err(e) => (m, J.Refused(e)))
    case LookupCall(id) => (m, J.Found(if id in m.records then Some(m.records[id]) else None))
    case ResolveCall(id, status, description, documented) =>
      (match MemoryResolve(meaning, m, id, status, description, documented)
       case Ok(r) => (r.0, J.Resolved(r.1))
       case Err(e) => (m, J.Refused(e)))
  }

  class MemoryJournal {
    const meaning: Outputs -> Text
    var records: map<Text, J.Row>
    var resources: map<Text, Text>

    function Contents(): Memory
      reads this
    {
      Memory(records, resources)
    }

    constructor (valueOf: Outputs -> Text)
      ensures meaning == valueOf && Contents() == Memory(map[], map[])
    {
      meaning := valueOf;
      records, resources := map[], map[];
    }

    method Claim(a: Assignment, issuer: Text) returns (r: J.Claimed)
      modifies this
      ensures (Contents(), r) == MemoryClaim(old(Contents()), a, issuer)
    {
      if a.id in records {
        var row := records[a.id];
        if row.assignment != a || row.issuer != issuer {
          return J.Conflict;
        }
        return if row.outcome.Some? then J.Replay(row.outcome.value) else J.Uncertain;
      }
      if exists x :: x in a.step.resources && x in resources && resources[x] != a.id {
        return J.ResourceConflict;
      }
      var list := a.step.resources;
      records := records[a.id := J.Row(a, issuer, Accepted, None)];
      for i := 0 to |list|
        invariant records == old(records)[a.id := J.Row(a, issuer, Accepted, None)]
        invariant resources == old(resources) + J.Owned(list[..i], a.id)
      {
        OwnedPrefix(list, i, a.id);
        resources := resources[list[i] := a.id];
      }
      assert list[..|list|] == list;
      return J.New;
    }

    method Complete(a: Assignment, o: Outcome) returns (r: Result<(), J.JournalError>)
      modifies this
      ensures match MemoryComplete(meaning, old(Contents()), a, o)
        case Ok(m) => r == Ok(()) && Contents() == m
        case Err(e) => r == Err(e) && Contents() == old(Contents())
    {
      if a.id !in records || records[a.id].assignment != a {
        return Err(J.Unclaimed);
      }
      if records[a.id].outcome.Some? && !Alike(meaning, records[a.id].outcome.value, o) {
        return Err(J.OutcomeImmutable);
      }
      records := records[a.id := J.Row(a, records[a.id].issuer, o.status, Some(o))];
      if o.status != Unknown {
        var list := a.step.resources;
        for i := 0 to |list|
          invariant records == old(records)[a.id := J.Row(a, old(records)[a.id].issuer, o.status, Some(o))]
          invariant resources == ReleaseListed(old(resources), list[..i], a.id)
        {
          assert list[..i + 1] == list[..i] + [list[i]];
          if list[i] in resources && resources[list[i]] == a.id {
            resources := resources - {list[i]};
          }
        }
        assert list[..|list|] == list;
      }
      return Ok(());
    }

    method ResolveUnknown(id: Text, status: AssignmentStatus, description: Text, documented: bool)
      returns (r: Result<Outcome, J.JournalError>)
      modifies this
      ensures match MemoryResolve(meaning, old(Contents()), id, status, description, documented)
        case Ok(result) => r == Ok(result.1) && Contents() == result.0
        case Err(e) => r == Err(e) && Contents() == old(Contents())
    {
      if status == Accepted || status == Unknown || !documented {
        return Err(J.BadResolution);
      }
      if id !in records {
        return Err(J.Missing);
      }
      if records[id].status != Unknown || records[id].outcome.Some? {
        return Err(J.NotUnknown);
      }
      var o := Outcome(id, records[id].assignment.step.robot, description, status);
      var completed := Complete(records[id].assignment, o);
      return if completed.Err? then Err(completed.error) else Ok(o);
    }
  }

  // ---------------------------------------------------------------- refinement

  /** The dictionaries hold the same records and reservations as the tables. */
  ghost predicate Represents(m: Memory, l: J.Ledger) {
    m.records == l.rows && m.resources == l.reservations && J.Inv(l)
  }

  /** Steps are constructed with distinct resources; nothing else is asked of a caller. */
  predicate Constructible(c: J.Call) {
    !c.Reopen? && (c.ClaimCall? ==> Distinct(c.assignment.step.resources))
  }

  /** Releasing only the listed resources releases everything the assignment holds. */
  lemma SameRelease(l: J.Ledger, a: Assignment)
    requires J.Inv(l) && a.id in l.rows && l.rows[a.id].assignment == a
    ensures ReleaseListed(l.reservations, a.step.resources, a.id) == J.Release(l.reservations, a.id)
  {
    forall x | x in l.reservations && l.reservations[x] == a.id ensures x in a.step.resources {
      assert J.Holds(l, a.id, x);
      assert J.Entitled(l, a.id, x);
    }
  }

  /** The call repeats a recorded outcome with outputs of the same value in another encoding. */
  predicate Respelled(meaning: Outputs -> Text, l: J.Ledger, c: J.Call) {
    && c.CompleteCall? && c.assignment.id in l.rows && l.rows[c.assignment.id].assignment == c.assignment
    && var recorded := l.rows[c.assignment.id].outcome;
       recorded.Some? && recorded.value != c.outcome && Alike(meaning, recorded.value, c.outcome)
  }

  /** From corresponding states both journals answer alike exactly when the call is no respelling. */
  lemma SameReply(meaning: Outputs -> Text, m: Memory, l: J.Ledger, c: J.Call)
    requires Represents(m, l) && Constructible(c)
    ensures MemoryRespond(meaning, m, c).1 == J.Respond(l, c).1 <==> !Respelled(meaning, l, c)
    ensures !Respelled(meaning, l, c) ==> Represents(MemoryRespond(meaning, m, c).0, J.Respond(l, c).0)
  {
    J.CallKeepsInv(l, c);
    if c.ClaimCall? {
      J.ClaimNeverFails(l, c.assignment, c.issuer);
    } else if c.CompleteCall? && J.Complete(l, c.assignment, c.outcome).Ok? {
      SameRelease(l, c.assignment);
    } else if c.ResolveCall? && c.id in l.rows {
      SameRelease(l, l.rows[c.id].assignment);
    }
  }

  function Replies(calls: seq<J.Call>): seq<J.Reply> {
    if calls == [] then []
    else var init := calls[..|calls| - 1]; Replies(init) + [J.Respond(J.After(J.EMPTY, init), calls[|calls| - 1]).1]
  }

  predicate AllConstructible(calls: seq<J.Call>) {
    forall i :: 0 <= i < |calls| ==> Constructible(calls[i])
  }

  function MemoryAfter(meaning: Outputs -> Text, calls: seq<J.Call>): Memory
    requires AllConstructible(calls)
  {
    if calls == [] then Memory(map[], map[])
    else
      assert Constructible(calls[|calls| - 1]);
      MemoryRespond(meaning, MemoryAfter(meaning, calls[..|calls| - 1]), calls[|calls| - 1]).0
  }

  function MemoryReplies(meaning: Outputs -> Text, calls: seq<J.Call>): seq<J.Reply>
    requires AllConstructible(calls)
  {
    if calls == [] then []
    else
      assert Constructible(calls[|calls| - 1]);
      var init := calls[..|calls| - 1];
      MemoryReplies(meaning, init) + [MemoryRespond(meaning, MemoryAfter(meaning, init), calls[|calls| - 1]).1]
  }

  /** No call of the history is a respelling at its point of the history. */
  predicate NeverRespelled(meaning: Outputs -> Text, calls: seq<J.Call>) {
    calls == [] || (
      var init := calls[..|calls| - 1];
      NeverRespelled(meaning, init) && !Respelled(meaning, J.After(J.EMPTY, init), calls[|calls| - 1]))
  }

  lemma {:induction false} RepliesPerCall(meaning: Outputs -> Text, calls: seq<J.Call>)
    requires AllConstructible(calls)
    ensures |MemoryReplies(meaning, calls)| == |Replies(calls)| == |calls|
  {
    if calls != [] {
      RepliesPerCall(meaning, calls[..|calls| - 1]);
    }
  }

  /** On a restart-free history both journals give the same replies and refuse the same calls,
      exactly when no completion in it respells a recorded outcome. */
  lemma {:induction false} MemoryRefinesSqlite(meaning: Outputs -> Text, calls: seq<J.Call>)
    requires AllConstructible(calls)
    ensures MemoryReplies(meaning, calls) == Replies(calls) <==> NeverRespelled(meaning, calls)
    ensures NeverRespelled(meaning, calls) ==> Represents(MemoryAfter(meaning, calls), J.After(J.EMPTY, calls))
  {
    if calls == [] {
      J.ReservationsAreExact([]);
    } else {
      var init, last := calls[..|calls| - 1], calls[|calls| - 1];
      MemoryRefinesSqlite(meaning, init);
      RepliesPerCall(meaning, init);
      assert MemoryReplies(meaning, calls)[..|init|] == MemoryReplies(meaning, init);
      assert Replies(calls)[..|init|] == Replies(init);
      assert Constructible(last);
      if NeverRespelled(meaning, init) {
        SameReply(meaning, MemoryAfter(meaning, init), J.After(J.EMPTY, init), last);
        assert MemoryReplies(meaning, calls)[|init|] == MemoryRespond(meaning, MemoryAfter(meaning, init), last).1;
        assert Replies(calls)[|init|] == J.Respond(J.After(J.EMPTY, init), last).1;
      }
    }
  }

  /** The history that tells them apart: the durable journal refuses the second completion. */
  lemma RespellingTellsJournalsApart(meaning: Outputs -> Text, a: Assignment, issuer: Text, o: Outcome,
      respelled: Outcome)
    requires Distinct(a.step.resources) && o != respelled && Alike(meaning, o, respelled)
    ensures var calls := [J.ClaimCall(a, issuer), J.CompleteCall(a, o), J.CompleteCall(a, respelled)];
      AllConstructible(calls) && MemoryReplies(meaning, calls) != Replies(calls)
  {
    var calls := [J.ClaimCall(a, issuer), J.CompleteCall(a, o), J.CompleteCall(a, respelled)];
    assert calls[..2][..1] == [calls[0]] && calls[..2][1] == calls[1] && [calls[0]][..0] == [];
    assert J.After(J.EMPTY, [calls[0]]) == J.Respond(J.EMPTY, calls[0]).0;
    assert J.After(J.EMPTY, calls[..2]) == J.Respond(J.After(J.EMPTY, [calls[0]]), calls[1]).0;
    assert Respelled(meaning, J.After(J.EMPTY, calls[..2]), calls[2]);
    MemoryRefinesSqlite(meaning, calls);
  }
}
