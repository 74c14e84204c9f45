/** A robot's durable assignment journal: claims, outcomes and resource reservations
    as functions of the stored tables, and what every history of calls keeps. */
module Journal {
  import opened Ump

  datatype Row = Row(assignment: Assignment, issuer: Text, status: AssignmentStatus, outcome: Option<Outcome>)

  /** The tables `assignments`, `resource_reservations` and `assignment_resolutions`. */
  datatype Ledger = Ledger(rows: map<Text, Row>, reservations: map<Text, Text>, resolutions: map<Text, Outcome>)

  const EMPTY := Ledger(map[], map[], map[])

  datatype Claimed = New | Replay(outcome: Outcome) | Conflict | ResourceConflict | Uncertain

  datatype JournalError = IntegrityError | Unclaimed | OutcomeImmutable | BadResolution | Missing | NotUnknown

  /** Work that may still be physically under way holds its resources. */
  predicate Unresolved(row: Row) {
    row.status == Accepted || row.status == Unknown
  }

  // ---------------------------------------------------------------- transactions

  function Owned(resources: seq<Text>, id: Text): map<Text, Text> {
    map r | r in resources :: id
  }

  function Claim(l: Ledger, a: Assignment, issuer: Text): Result<(Ledger, Claimed), JournalError> {
    if a.id !in l.rows then
      if exists r :: r in a.step.resources && r in l.reservations && l.reservations[r] != a.id then
        Ok((l, ResourceConflict))
      else if !Distinct(a.step.resources) || exists r :: r in a.step.resources && r in l.reservations then
        Err(IntegrityError)
      else
        var row := Row(a, issuer, Accepted, None);
        Ok((l.(rows := l.rows[a.id := row], reservations := l.reservations + Owned(a.step.resources, a.id)), New))
    else
      var row := l.rows[a.id];
      if row.assignment != a || row.issuer != issuer then Ok((l, Conflict))
      else if row.outcome.Some? then Ok((l, Replay(row.outcome.value)))
      else Ok((l, Uncertain))
  }

  function Release(reservations: map<Text, Text>, id: Text): map<Text, Text> {
    map r | r in reservations && reservations[r] != id :: reservations[r]
  }

  function Settle(l: Ledger, id: Text, o: Outcome): Ledger
    requires id in l.rows
  {
    l.(rows := l.rows[id := l.rows[id].(status := o.status, outcome := Some(o))],
       reservations := if o.status == Unknown then l.reservations else Release(l.reservations, id))
  }

  function Complete(l: Ledger, a: Assignment, o: Outcome): Result<Ledger, JournalError> {
    if a.id !in l.rows || l.rows[a.id].assignment != a then Err(Unclaimed)
    else if l.rows[a.id].outcome.Some? && l.rows[a.id].outcome.value != o then Err(OutcomeImmutable)
    else Ok(Settle(l, a.id, o))
  }

  function Lookup(l: Ledger, id: Text): Option<Row> {
    if id in l.rows then Some(l.rows[id]) else None
  }

  /** `documented` says whether the resolver identity and the evidence are present and bounded. */
  function ResolveUnknown(l: Ledger, id: Text, status: AssignmentStatus, description: Text, documented: bool)
    : Result<(Ledger, Outcome), JournalError>
  {
    if status == Accepted || status == Unknown || !documented then Err(BadResolution)
    else if id !in l.rows then Err(Missing)
    else if l.rows[id].status != Unknown || l.rows[id].outcome.Some? then Err(NotUnknown)
    else if id in l.resolutions then Err(IntegrityError)
    else
      var o := Outcome(id, l.rows[id].assignment.step.robot, description, status);
      Ok((Settle(l, id, o).(resolutions := l.resolutions[id := o]), o))
  }

  /** Opening the journal: accepted work without an outcome becomes unknown. */
  function Restart(l: Ledger): Ledger {
    l.(rows := map id | id in l.rows ::
      if l.rows[id].status == Accepted && l.rows[id].outcome.None? then l.rows[id].(status := Unknown) else l.rows[id])
  }

  // ---------------------------------------------------------------- histories

  datatype Call =
    | ClaimCall(assignment: Assignment, issuer: Text)
    | CompleteCall(assignment: Assignment, outcome: Outcome)
    | LookupCall(id: Text)
    | ResolveCall(id: Text, status: AssignmentStatus, description: Text, documented: bool)
    | Reopen

  datatype Reply =
    | Claims(claimed: Claimed)
    | Done
    | Found(row: Option<Row>)
    | Resolved(outcome: Outcome)
    | Refused(error: JournalError)

  function Respond(l: Ledger, c: Call): (Ledger, Reply) {
    match c
    case ClaimCall(a, issuer) =>
      (match Claim(l, a, issuer) case Ok(r) => (r.0, Claims(r.1)) case Err(e) => (l, Refused(e)))
    case CompleteCall(a, o) => (match Complete(l, a, o) case Ok(l') => (l', Done) case Err(e) => (l, Refused(e)))
    case LookupCall(id) => (l, Found(Lookup(l, id)))
    case ResolveCall(id, status, description, documented) =>
      (match ResolveUnknown(l, id, status, description, documented)
       case Ok(r) => (r.0, Resolved(r.1))
       case Err(e) => (l, Refused(e)))
    case Reopen => (Restart(l), Done)
  }

  function After(l: Ledger, calls: seq<Call>): Ledger {
    if calls == [] then l else Respond(After(l, calls[..|calls| - 1]), calls[|calls| - 1]).0
  }

  // ---------------------------------------------------------------- invariant

  predicate Holds(l: Ledger, id: Text, r: Text) {
    r in l.reservations && l.reservations[r] == id
  }

  predicate Entitled(l: Ledger, id: Text, r: Text) {
    id in l.rows && r in l.rows[id].assignment.step.resources && Unresolved(l.rows[id])
  }

  /** A resource is reserved by an assignment exactly when that assignment lists it and is unresolved. */
  ghost predicate Reserved(l: Ledger) {
    forall id, r :: Holds(l, id, r) <==> Entitled(l, id, r)
  }

  predicate RowsOk(l: Ledger) {
    && (forall id :: id in l.rows ==> l.rows[id].assignment.id == id)
    && (forall id :: id in l.rows ==>
      if l.rows[id].outcome.Some? then l.rows[id].status == l.rows[id].outcome.value.status else Unresolved(l.rows[id]))
    && (forall id :: id in l.resolutions ==> id in l.rows && l.rows[id].outcome == Some(l.resolutions[id]))
  }

  ghost predicate Inv(l: Ledger) {
    RowsOk(l) && Reserved(l)
  }

  lemma ClaimKeepsInv(l: Ledger, a: Assignment, issuer: Text)
    requires Inv(l) && Claim(l, a, issuer).Ok?
    ensures Inv(Claim(l, a, issuer).value.0)
  {
    var r := Claim(l, a, issuer).value.0;
    if r != l {
      forall id, x ensures Holds(r, id, x) <==> Entitled(r, id, x) {
        assert Holds(l, id, x) <==> Entitled(l, id, x);
        assert x in l.reservations ==> Entitled(l, l.reservations[x], x) by {
          if x in l.reservations { assert Holds(l, l.reservations[x], x); }
        }
      }
    }
  }

  lemma SettleKeepsReserved(l: Ledger, id: Text, o: Outcome)
    requires Inv(l) && id in l.rows && (l.rows[id].outcome.Some? ==> l.rows[id].outcome.value == o)
    ensures Reserved(Settle(l, id, o))
  {
    var r := Settle(l, id, o);
    forall x, s ensures Holds(r, x, s) <==> Entitled(r, x, s) {
      assert Holds(l, x, s) <==> Entitled(l, x, s);
    }
  }

  lemma RestartKeepsReserved(l: Ledger)
    requires Reserved(l)
    ensures Reserved(Restart(l))
  {
    var r := Restart(l);
    forall x, s ensures Holds(r, x, s) <==> Entitled(r, x, s) {
      assert Holds(l, x, s) <==> Entitled(l, x, s);
    }
  }

  lemma CallKeepsInv(l: Ledger, c: Call)
    requires Inv(l)
    ensures Inv(Respond(l, c).0)
  {
    match c {
      case ClaimCall(a, issuer) =>
        if Claim(l, a, issuer).Ok? { ClaimKeepsInv(l, a, issuer); }
      case CompleteCall(a, o) =>
        if Complete(l, a, o).Ok? { SettleKeepsReserved(l, a.id, o); }
      case ResolveCall(id, status, description, documented) =>
        if ResolveUnknown(l, id, status, description, documented).Ok? {
          var o := ResolveUnknown(l, id, status, description, documented).value.1;
          SettleKeepsReserved(l, id, o);
          assert forall x, s :: Holds(Settle(l, id, o), x, s) <==> Holds(Respond(l, c).0, x, s);
          assert forall x, s :: Entitled(Settle(l, id, o), x, s) <==> Entitled(Respond(l, c).0, x, s);
        }
      case LookupCall(_) =>
      case Reopen => RestartKeepsReserved(l);
    }
  }

  // ---------------------------------------------------------------- every history

  /** In every journal state, reservations and unresolved work agree in both directions. */
  lemma {:induction false} ReservationsAreExact(calls: seq<Call>)
    ensures Inv(After(EMPTY, calls))
  {
    if calls == [] {
      assert forall id, r :: !Holds(EMPTY, id, r) && !Entitled(EMPTY, id, r);
    } else {
      ReservationsAreExact(calls[..|calls| - 1]);
      CallKeepsInv(After(EMPTY, calls[..|calls| - 1]), calls[|calls| - 1]);
    }
  }

  /** No two unresolved assignments share a resource. */
  lemma ResourcesAreExclusive(l: Ledger, i: Text, j: Text, r: Text)
    requires Inv(l) && i in l.rows && j in l.rows && Unresolved(l.rows[i]) && Unresolved(l.rows[j])
    requires r in l.rows[i].assignment.step.resources && r in l.rows[j].assignment.step.resources
    ensures i == j
  {
    assert Entitled(l, i, r) && Entitled(l, j, r);
    assert Holds(l, i, r) && Holds(l, j, r);
  }

  /** With the resource lists a plan step can have, no reservation insert ever collides. */
  lemma ClaimNeverFails(l: Ledger, a: Assignment, issuer: Text)
    requires Inv(l) && Distinct(a.step.resources)
    ensures Claim(l, a, issuer).Ok?
  {
    if a.id !in l.rows && exists r :: r in a.step.resources && r in l.reservations {
      var r :| r in a.step.resources && r in l.reservations;
      assert Holds(l, l.reservations[r], r);
      assert Entitled(l, l.reservations[r], r);
    }
  }

  /** A recorded outcome is immutable, across restarts and operator resolutions. */
  lemma {:induction false} OutcomesAreImmutable(l: Ledger, calls: seq<Call>, id: Text)
    requires Inv(l) && id in l.rows && l.rows[id].outcome.Some?
    ensures id in After(l, calls).rows && After(l, calls).rows[id] == l.rows[id]
  {
    if calls != [] {
      OutcomesAreImmutable(l, calls[..|calls| - 1], id);
    }
  }

  lemma {:induction false} HistoryKeepsInv(l: Ledger, calls: seq<Call>)
    requires Inv(l)
    ensures Inv(After(l, calls))
  {
    if calls != [] {
      HistoryKeepsInv(l, calls[..|calls| - 1]);
      CallKeepsInv(After(l, calls[..|calls| - 1]), calls[|calls| - 1]);
    }
  }

  /** Work whose recorded outcome is unknown keeps its resources in every continuation. */
  lemma UnknownOutcomeKeepsResources(l: Ledger, calls: seq<Call>, id: Text, r: Text)
    requires Inv(l) && id in l.rows && l.rows[id].outcome.Some? && l.rows[id].outcome.value.status == Unknown
    requires r in l.rows[id].assignment.step.resources
    ensures Holds(After(l, calls), id, r)
  {
    OutcomesAreImmutable(l, calls, id);
    HistoryKeepsInv(l, calls);
    assert Entitled(After(l, calls), id, r);
  }

  /** An assignment identifier is claimed as new at most once in a journal's life. */
  lemma {:induction false} ClaimedOnce(l: Ledger, calls: seq<Call>, a: Assignment, issuer: Text)
    requires a.id in l.rows
    ensures a.id in After(l, calls).rows && Respond(After(l, calls), ClaimCall(a, issuer)).1 != Claims(New)
  {
    if calls != [] {
      ClaimedOnce(l, calls[..|calls| - 1], a, issuer);
    }
  }

  /** What is in the journal is found in every continuation, under the same assignment and issuer;
      what is not is not found. */
  lemma {:induction false} ClaimedIsFound(l: Ledger, calls: seq<Call>, id: Text)
    ensures Respond(l, LookupCall(id)) == (l, Found(None)) <==> id !in l.rows
    ensures id in l.rows ==> exists row ::
      && Respond(After(l, calls), LookupCall(id)).1 == Found(Some(row)) && After(l, calls).rows[id] == row
      && row.assignment == l.rows[id].assignment && row.issuer == l.rows[id].issuer
  {
    if calls != [] {
      ClaimedIsFound(l, calls[..|calls| - 1], id);
    }
    if id in l.rows {
      var row := After(l, calls).rows[id];
      assert Respond(After(l, calls), LookupCall(id)).1 == Found(Some(row));
    }
  }
}
