/** Authority leases: grant, renewal and revocation with an audit log, and the decision
    whether a lease authorizes an assignment at a given clock reading. */
module Authority {
  import opened Ump

  datatype LeaseStatus = LeaseActive | LeaseRevoked | LeaseExpired

  datatype Lease = Lease(
    id: Text,
    grantor: Text,
    issuer: Text,
    capabilities: set<Text>,
    issued: int,
    expires: int,
    uncertainty: int,
    revision: int,
    status: LeaseStatus)

  /** What constructing a lease insists on. */
  predicate WellFormed(l: Lease) {
    l.capabilities != {} && 0 <= l.issued < l.expires && 0 <= l.uncertainty <= 60_000 && l.revision >= 1
  }

  datatype EventKind = GrantEvent | RevokeEvent

  datatype AuditEvent = AuditEvent(lease: Text, kind: EventKind, revision: int)

  datatype AuthorityError =
    | WrongGrantor | NotActive | IdentityChanged | AlreadyRevoked
    | WrongRevision | BadReason | NoSuchLease | OnlyActiveRevocable

  datatype Book = Book(leases: map<Text, Lease>, events: seq<AuditEvent>)

  const EMPTY := Book(map[], [])

  function Granted(b: Book, robot: Text, l: Lease): Result<Book, AuthorityError> {
    if l.grantor != robot then Err(WrongGrantor)
    else if l.status != LeaseActive then Err(NotActive)
    else if l.id in b.leases && (b.leases[l.id].grantor != l.grantor || b.leases[l.id].issuer != l.issuer) then
      Err(IdentityChanged)
    else if l.id in b.leases && b.leases[l.id].status == LeaseRevoked then Err(AlreadyRevoked)
    else if l.id in b.leases && l.revision != b.leases[l.id].revision + 1 then Err(WrongRevision)
    else Ok(Book(b.leases[l.id := l], b.events + [AuditEvent(l.id, GrantEvent, l.revision)]))
  }

  /** `reasonOk` says that the reason is present and within its bound. */
  function Revoked(b: Book, id: Text, expected: int, reasonOk: bool): Result<Book, AuthorityError> {
    if !reasonOk then Err(BadReason)
    else if id !in b.leases then Err(NoSuchLease)
    else if b.leases[id].revision != expected then Err(WrongRevision)
    else if b.leases[id].status != LeaseActive then Err(OnlyActiveRevocable)
    else
      var revoked := b.leases[id].(status := LeaseRevoked, revision := expected + 1);
      Ok(Book(b.leases[id := revoked], b.events + [AuditEvent(id, RevokeEvent, expected + 1)]))
  }

  class Store {
    const robot: Text
    var leases: map<Text, Lease>
    var events: seq<AuditEvent>

    function Contents(): Book
      reads this
    {
      Book(leases, events)
    }

    constructor (owner: Text)
      ensures robot == owner && Contents() == EMPTY
    {
      robot, leases, events := owner, map[], [];
    }

    method AppendEvent(id: Text, kind: EventKind, revision: int)
      modifies this`events
      ensures events == old(events) + [AuditEvent(id, kind, revision)]
    {
      events := events + [AuditEvent(id, kind, revision)];
    }

    method Grant(l: Lease) returns (r: Result<(), AuthorityError>)
      modifies this
      ensures match Granted(old(Contents()), robot, l)
        case Ok(after) => r == Ok(()) && Contents() == after
        case Err(e) => r == Err(e) && Contents() == old(Contents())
      ensures r == Err(WrongGrantor) <==> l.grantor != robot
      ensures r == Err(NotActive) <==> l.grantor == robot && l.status != LeaseActive
      ensures r == Err(IdentityChanged) <==>
        && l.grantor == robot && l.status == LeaseActive && l.id in old(leases)
        && (old(leases)[l.id].grantor != l.grantor || old(leases)[l.id].issuer != l.issuer)
      ensures r == Err(AlreadyRevoked) ==> l.id in old(leases) && old(leases)[l.id].status == LeaseRevoked
      ensures r == Err(WrongRevision) ==> l.id in old(leases) && l.revision != old(leases)[l.id].revision + 1
      ensures l.grantor == robot && l.status == LeaseActive && l.id !in old(leases) ==> r.Ok?
      ensures r.Err? ==> r.error in {WrongGrantor, NotActive, IdentityChanged, AlreadyRevoked, WrongRevision}
      ensures r.Ok? ==> events == old(events) + [AuditEvent(l.id, GrantEvent, l.revision)]
      ensures r.Ok? ==> l.id in leases && leases[l.id] == l && |events| == |old(events)| + 1
      ensures r.Ok? && l.id in old(leases) ==> old(leases)[l.id].status != LeaseRevoked
      ensures r.Ok? && l.id in old(leases) ==> l.revision == old(leases)[l.id].revision + 1
      ensures forall id :: id != l.id ==> (id in leases <==> id in old(leases))
      ensures forall id :: id in leases && id != l.id ==> leases[id] == old(leases)[id]
    {
      if l.grantor != robot {
        return Err(WrongGrantor);
      }
      if l.status != LeaseActive {
        return Err(NotActive);
      }
      if l.id in leases {
        var existing := leases[l.id];
        if existing.grantor != l.grantor || existing.issuer != l.issuer {
          return Err(IdentityChanged);
        }
        if existing.status == LeaseRevoked {
          return Err(AlreadyRevoked);
        }
        if l.revision != existing.revision + 1 {
          return Err(WrongRevision);
        }
      }
      leases := leases[l.id := l];
      AppendEvent(l.id, GrantEvent, l.revision);
      r := Ok(());
    }

    method Revoke(id: Text, expected: int, reasonOk: bool) returns (r: Result<(), AuthorityError>)
      modifies this
      ensures match Revoked(old(Contents()), id, expected, reasonOk)
        case Ok(after) => r == Ok(()) && Contents() == after
        case Err(e) => r == Err(e) && Contents() == old(Contents())
      ensures r == Err(BadReason) <==> !reasonOk
      ensures r == Err(NoSuchLease) <==> reasonOk && id !in old(leases)
      ensures r == Err(WrongRevision) <==> reasonOk && id in old(leases) && old(leases)[id].revision != expected
      ensures r == Err(OnlyActiveRevocable) <==>
        reasonOk && id in old(leases) && old(leases)[id].revision == expected && old(leases)[id].status != LeaseActive
      ensures r.Ok? ==> events == old(events) + [AuditEvent(id, RevokeEvent, expected + 1)]
      ensures leases.Keys == old(leases).Keys
      ensures r.Ok? ==> id in leases && leases[id].status == LeaseRevoked && leases[id].revision == expected + 1
      ensures r.Ok? ==> old(leases)[id].revision == expected && old(leases)[id].status == LeaseActive
      ensures r.Ok? ==> |events| == |old(events)| + 1
      ensures forall x :: x in leases && x != id ==> leases[x] == old(leases)[x]
    {
      if !reasonOk {
        return Err(BadReason);
      }
      if id !in leases {
        return Err(NoSuchLease);
      }
      if leases[id].revision != expected {
        return Err(WrongRevision);
      }
      if leases[id].status != LeaseActive {
        return Err(OnlyActiveRevocable);
      }
      leases := leases[id := leases[id].(status := LeaseRevoked, revision := expected + 1)];
      AppendEvent(id, RevokeEvent, expected + 1);
      r := Ok(());
    }
  }

  // ---------------------------------------------------------------- histories

  datatype Op = GrantOp(lease: Lease) | RevokeOp(id: Text, expected: int, reasonOk: bool)

  function Try(b: Book, robot: Text, op: Op): Result<Book, AuthorityError> {
    match op
    case GrantOp(l) => Granted(b, robot, l)
    case RevokeOp(id, expected, reasonOk) => Revoked(b, id, expected, reasonOk)
  }

  /** A refused call rolls back. */
  function Apply(b: Book, robot: Text, op: Op): Book {
    match Try(b, robot, op) case Ok(after) => after case Err(_) => b
  }

  function RunOps(b: Book, robot: Text, ops: seq<Op>): Book {
    if ops == [] then b else Apply(RunOps(b, robot, ops[..|ops| - 1]), robot, ops[|ops| - 1])
  }

  predicate AllWellFormed(ops: seq<Op>) {
    forall i :: 0 <= i < |ops| && ops[i].GrantOp? ==> WellFormed(ops[i].lease)
  }

  /** The audit trail of one lease. */
  function Trail(events: seq<AuditEvent>, id: Text): seq<AuditEvent> {
    if events == [] then []
    else Trail(events[..|events| - 1], id) + if events[|events| - 1].lease == id then [events[|events| - 1]] else []
  }

  predicate Consecutive(trail: seq<AuditEvent>) {
    forall i :: 0 < i < |trail| ==> trail[i].revision == trail[i - 1].revision + 1
  }

  /** What the log alone says about a lease: its last revision and whether that revoked it. */
  predicate LogTells(trail: seq<AuditEvent>, l: Lease) {
    && trail != []
    && trail[|trail| - 1].revision == l.revision
    && l.status == (if trail[|trail| - 1].kind == RevokeEvent then LeaseRevoked else LeaseActive)
  }

  /** It starts with a grant, revisions are consecutive, and a revocation can only come last. */
  predicate ProperTrail(trail: seq<AuditEvent>) {
    && (trail != [] ==> trail[0].kind == GrantEvent)
    && Consecutive(trail)
    && forall i :: 0 <= i < |trail| - 1 ==> trail[i].kind == GrantEvent
  }

  /** One lease's row against its part of the log. */
  predicate RowMatchesTrail(b: Book, robot: Text, id: Text) {
    var trail := Trail(b.events, id);
    && ProperTrail(trail)
    && (id in b.leases ==> b.leases[id].id == id && b.leases[id].grantor == robot)
    && (id in b.leases ==> WellFormed(b.leases[id]) && LogTells(trail, b.leases[id]))
    && (id !in b.leases ==> trail == [])
  }

  ghost predicate Inv(b: Book, robot: Text) {
    forall id :: RowMatchesTrail(b, robot, id)
  }

  /** A successful call appends one event for one lease, which is the next in its trail. */
  lemma AppendKeepsInv(b: Book, b': Book, robot: Text, l: Lease, e: AuditEvent)
    requires Inv(b, robot) && b' == Book(b.leases[l.id := l], b.events + [e])
    requires e.lease == l.id && e.revision == l.revision && l.grantor == robot && WellFormed(l)
    requires l.status == if e.kind == RevokeEvent then LeaseRevoked else LeaseActive
    requires l.id in b.leases ==> b.leases[l.id].status == LeaseActive && l.revision == b.leases[l.id].revision + 1
    requires l.id !in b.leases ==> e.kind == GrantEvent
    ensures Inv(b', robot)
  {
    forall id ensures RowMatchesTrail(b', robot, id) {
      assert RowMatchesTrail(b, robot, id);
      if id == l.id {
      } else {
        assert Trail(b'.events, id) == Trail(b.events, id);
      }
    }
  }

  lemma ApplyKeepsInv(b: Book, robot: Text, op: Op)
    requires Inv(b, robot) && (op.GrantOp? ==> WellFormed(op.lease))
    ensures Inv(Apply(b, robot, op), robot)
  {
    if Try(b, robot, op).Ok? {
      var after := Apply(b, robot, op);
      match op {
        case GrantOp(l) =>
          assert RowMatchesTrail(b, robot, l.id);
          AppendKeepsInv(b, after, robot, l, AuditEvent(l.id, GrantEvent, l.revision));
        case RevokeOp(id, expected, _) =>
          assert RowMatchesTrail(b, robot, id);
          AppendKeepsInv(b, after, robot, b.leases[id].(status := LeaseRevoked, revision := expected + 1),
            AuditEvent(id, RevokeEvent, expected + 1));
      }
    }
  }

  /** Over every history the audit revisions of each lease are consecutive, the log alone
      gives its revision and status, and a revocation is the last word. */
  lemma {:induction false} AuditTrailIsFaithful(robot: Text, ops: seq<Op>)
    requires AllWellFormed(ops)
    ensures Inv(RunOps(EMPTY, robot, ops), robot)
  {
    if ops != [] {
      AuditTrailIsFaithful(robot, ops[..|ops| - 1]);
      ApplyKeepsInv(RunOps(EMPTY, robot, ops[..|ops| - 1]), robot, ops[|ops| - 1]);
    }
  }

  /** Whatever happens later: identity never changes, revisions never fall, and a revoked
      lease keeps its whole row. */
  predicate Continues(before: Lease, after: Lease) {
    && after.id == before.id && after.grantor == before.grantor && after.issuer == before.issuer
    && after.revision >= before.revision
    && (before.status == LeaseRevoked ==> after == before)
    && (after.revision == before.revision ==> after == before)
  }

  lemma {:induction false} LeasesContinue(b: Book, robot: Text, ops: seq<Op>, id: Text)
    requires id in b.leases && b.leases[id].id == id
    ensures id in RunOps(b, robot, ops).leases && Continues(b.leases[id], RunOps(b, robot, ops).leases[id])
  {
    if ops != [] {
      LeasesContinue(b, robot, ops[..|ops| - 1], id);
    }
  }

  /** Compare-and-set: after a successful call that relied on a revision, no later call relying on it succeeds. */
  lemma RevisionIsSpentOnce(b: Book, robot: Text, first: Op, between: seq<Op>, second: Op)
    requires TargetOf(first) in b.leases && b.leases[TargetOf(first)].id == TargetOf(first)
    requires Try(b, robot, first).Ok? && TargetOf(second) == TargetOf(first) && ReliesOn(second) == ReliesOn(first)
    ensures Try(RunOps(Apply(b, robot, first), robot, between), robot, second).Err?
  {
    LeasesContinue(Apply(b, robot, first), robot, between, TargetOf(first));
  }

  function TargetOf(op: Op): Text {
    match op case GrantOp(l) => l.id case RevokeOp(id, _, _) => id
  }

  /** The stored revision the caller must have seen. */
  function ReliesOn(op: Op): int {
    match op case GrantOp(l) => l.revision - 1 case RevokeOp(_, expected, _) => expected
  }

  // ---------------------------------------------------------------- deciding at a clock reading

  datatype Effective = EffActive | EffNotYetValid | EffExpired | EffRevoked

  function EffectiveStatus(l: Lease, now: int): Effective {
    if l.status == LeaseRevoked then EffRevoked
    else if l.status == LeaseExpired then EffExpired
    else if now - l.uncertainty < l.issued then EffNotYetValid
    else if now + l.uncertainty >= l.expires then EffExpired
    else EffActive
  }

  datatype Denial =
    | WrongRobot | NoLeasePresented | UnknownLease | LeaseNotActive
    | IssuerMismatch | OutOfScope | NotYetValid | ExpiredOrUncertain

  function Authorize(b: Book, owner: Text, issuer: Text, robot: Text, a: Assignment, now: int): Result<Lease, Denial> {
    if robot != owner then Err(WrongRobot)
    else if a.lease.None? then Err(NoLeasePresented)
    else if a.lease.value !in b.leases then Err(UnknownLease)
    else
      var l := b.leases[a.lease.value];
      if l.status != LeaseActive then Err(LeaseNotActive)
      else if l.issuer != issuer then Err(IssuerMismatch)
      else if a.step.capability !in l.capabilities then Err(OutOfScope)
      else if now - l.uncertainty < l.issued then Err(NotYetValid)
      else if now + l.uncertainty >= l.expires then Err(ExpiredOrUncertain)
      else Ok(l)
  }

  /** Every time the true clock may show lies in the lease's window. */
  ghost predicate CertainlyInWindow(l: Lease, now: int) {
    forall t: int :: now - l.uncertainty <= t <= now + l.uncertainty ==> InWindow(l, t)
  }

  predicate InWindow(l: Lease, t: int) {
    l.issued <= t < l.expires
  }

  /** A lease is effective exactly when it is active and valid at every time within the clock's uncertainty. */
  lemma ActiveExactlyWhenCertain(l: Lease, now: int)
    requires WellFormed(l)
    ensures EffectiveStatus(l, now) == EffActive <==> l.status == LeaseActive && CertainlyInWindow(l, now)
  {
    if CertainlyInWindow(l, now) {
      assert InWindow(l, now - l.uncertainty) && InWindow(l, now + l.uncertainty);
    }
  }

  /** Authorization is granted exactly to the lease's holder, for a capability in its scope,
      at the owner, while the lease is certainly in force. */
  lemma AuthorizedExactlyWhen(b: Book, owner: Text, issuer: Text, robot: Text, a: Assignment, now: int)
    requires Inv(b, owner)
    ensures Authorize(b, owner, issuer, robot, a, now).Ok? <==>
      robot == owner && a.lease.Some? && a.lease.value in b.leases && (
        var l := b.leases[a.lease.value];
        l.issuer == issuer && a.step.capability in l.capabilities && l.status == LeaseActive &&
          CertainlyInWindow(l, now))
    ensures Authorize(b, owner, issuer, robot, a, now).Ok? ==>
      EffectiveStatus(Authorize(b, owner, issuer, robot, a, now).value, now) == EffActive
  {
    if a.lease.Some? && a.lease.value in b.leases {
      assert RowMatchesTrail(b, owner, a.lease.value);
      ActiveExactlyWhenCertain(b.leases[a.lease.value], now);
    }
  }

  /** At some true time the clock's uncertainty allows, the lease is not yet in force. */
  ghost predicate PossiblyEarly(l: Lease, now: int) {
    exists t: int :: now - l.uncertainty <= t <= now + l.uncertainty && BeforeStart(l, t)
  }

  ghost predicate PossiblyLate(l: Lease, now: int) {
    exists t: int :: now - l.uncertainty <= t <= now + l.uncertainty && AfterEnd(l, t)
  }

  predicate BeforeStart(l: Lease, t: int) {
    t < l.issued
  }

  predicate AfterEnd(l: Lease, t: int) {
    t >= l.expires
  }

  lemma PossibleTimes(l: Lease, now: int)
    requires l.uncertainty >= 0
    ensures PossiblyEarly(l, now) <==> now - l.uncertainty < l.issued
    ensures PossiblyLate(l, now) <==> now + l.uncertainty >= l.expires
  {
    assert now - l.uncertainty < l.issued ==> BeforeStart(l, now - l.uncertainty);
    assert now + l.uncertainty >= l.expires ==> AfterEnd(l, now + l.uncertainty);
  }

  /** What is wrong with a lease, by what may be true: revoked or expired by record, possibly not yet
      in force, or else possibly no longer. */
  lemma StatusByPossibleTimes(l: Lease, now: int)
    requires l.uncertainty >= 0
    ensures EffectiveStatus(l, now) == EffRevoked <==> l.status == LeaseRevoked
    ensures EffectiveStatus(l, now) == EffNotYetValid <==> l.status == LeaseActive && PossiblyEarly(l, now)
    ensures EffectiveStatus(l, now) == EffExpired <==>
      l.status == LeaseExpired || (l.status == LeaseActive && !PossiblyEarly(l, now) && PossiblyLate(l, now))
  {
    PossibleTimes(l, now);
  }

  /** A denial names the first obstacle. */
  lemma DenialNamesFirstObstacle(b: Book, owner: Text, issuer: Text, robot: Text, a: Assignment, now: int)
    requires Inv(b, owner)
    ensures var r := Authorize(b, owner, issuer, robot, a, now);
      && (r == Err(WrongRobot) <==> robot != owner)
      && (r == Err(NoLeasePresented) <==> robot == owner && a.lease.None?)
      && (r == Err(UnknownLease) <==> robot == owner && a.lease.Some? && a.lease.value !in b.leases)
    ensures robot == owner && a.lease.Some? && a.lease.value in b.leases ==>
      var r, l := Authorize(b, owner, issuer, robot, a, now), b.leases[a.lease.value];
      var held := l.status == LeaseActive && l.issuer == issuer;
      var scoped := held && a.step.capability in l.capabilities;
      && (r == Err(LeaseNotActive) <==> l.status != LeaseActive)
      && (r == Err(IssuerMismatch) <==> l.status == LeaseActive && l.issuer != issuer)
      && (r == Err(OutOfScope) <==> held && a.step.capability !in l.capabilities)
      && (r == Err(NotYetValid) <==> scoped && PossiblyEarly(l, now))
      && (r == Err(ExpiredOrUncertain) <==> scoped && !PossiblyEarly(l, now) && PossiblyLate(l, now))
  {
    if a.lease.Some? && a.lease.value in b.leases {
      assert RowMatchesTrail(b, owner, a.lease.value);
      PossibleTimes(b.leases[a.lease.value], now);
    }
  }

  /** Once a lease is revoked, no later history and no clock reading authorizes it again. */
  lemma RevokedNeverAuthorizes(b: Book, owner: Text, ops: seq<Op>, issuer: Text, robot: Text, a: Assignment, now: int)
    requires Inv(b, owner) && a.lease.Some? && a.lease.value in b.leases
    requires b.leases[a.lease.value].status == LeaseRevoked
    ensures Authorize(RunOps(b, owner, ops), owner, issuer, robot, a, now).Err?
  {
    assert RowMatchesTrail(b, owner, a.lease.value);
    LeasesContinue(b, owner, ops, a.lease.value);
  }

  // ---------------------------------------------------------------- the inventory filters

  /** The WHERE clause for one effective status. */
  predicate Selected(l: Lease, filter: Effective, now: int) {
    match filter
    case EffActive => l.status == LeaseActive && now - l.uncertainty >= l.issued && now + l.uncertainty < l.expires
    case EffNotYetValid => l.status == LeaseActive && now - l.uncertainty < l.issued
    case EffExpired => l.status == LeaseExpired || (l.status == LeaseActive && now + l.uncertainty >= l.expires)
    case EffRevoked => l.status == LeaseRevoked
  }

  /** The two uncertainty margins overlap at this reading. */
  predicate MarginsOverlap(l: Lease, now: int) {
    l.status == LeaseActive && l.expires - l.uncertainty <= now < l.issued + l.uncertainty
  }

  /** Three filters match the computed status exactly; the expired filter additionally
      returns the active rows whose margins overlap, and nothing else. */
  lemma FiltersAgainstStatus(l: Lease, filter: Effective, now: int)
    ensures filter != EffExpired ==> (Selected(l, filter, now) <==> EffectiveStatus(l, now) == filter)
    ensures Selected(l, EffExpired, now) <==> EffectiveStatus(l, now) == EffExpired || MarginsOverlap(l, now)
    ensures MarginsOverlap(l, now) ==> EffectiveStatus(l, now) == EffNotYetValid
  {
  }

  /** The expired filter is exact at every clock reading precisely for leases at least twice as
      long as their uncertainty; any shorter one is misreported at some reading. */
  lemma ExpiredFilterExactForLongLeases(l: Lease)
    requires WellFormed(l) && l.status == LeaseActive
    ensures l.expires - l.issued >= 2 * l.uncertainty <==>
      forall now: int :: now >= 0 ==> (Selected(l, EffExpired, now) <==> EffectiveStatus(l, now) == EffExpired)
  {
    if l.expires - l.issued < 2 * l.uncertainty {
      var now := if l.expires >= l.uncertainty then l.expires - l.uncertainty else 0;
      assert MarginsOverlap(l, now);
      assert now >= 0 && Selected(l, EffExpired, now) && EffectiveStatus(l, now) == EffNotYetValid;
    }
  }

  /** A lease can be effective at some reading exactly when it is longer than twice its uncertainty. */
  lemma UsableExactlyWhenLong(l: Lease)
    requires WellFormed(l) && l.status == LeaseActive
    ensures l.expires - l.issued > 2 * l.uncertainty <==> exists now: int :: EffectiveStatus(l, now) == EffActive
  {
    if l.expires - l.issued > 2 * l.uncertainty {
      assert EffectiveStatus(l, l.issued + l.uncertainty) == EffActive;
    }
  }
}
