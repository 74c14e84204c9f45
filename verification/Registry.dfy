/** The registry of peers: what a stream of manifest and state messages leaves stored. */
module Registry {
  import opened Ump
  import opened Outbox

  type Positive = n: nat | n >= 1 witness 1

  /** A decoded message: sequences are positive and timestamps not negative. `robot` is the
      identity named in the payload; `content` is the manifest or state itself. */
  datatype Message =
    | Manifest(source: Text, session: Text, stream: Stream, sequence: Positive, timestamp: nat, robot: Text,
      content: Text)
    | State(source: Text, session: Text, stream: Stream, sequence: Positive, timestamp: nat, robot: Text, content: Text,
      freshFor: int)

  /** The empty view has no session; `floors` holds the last sequence of each stream. */
  datatype PeerView = PeerView(
    manifest: Option<Text>,
    state: Option<Snapshot>,
    timestamp: nat,
    floors: map<Stream, nat>,
    session: Option<Text>)

  datatype Snapshot = Snapshot(content: Text, freshFor: int)

  const EMPTY := PeerView(None, None, 0, map[], None)

  datatype Reaction = Stored | Outdated | Refused

  function FloorOf(floors: map<Stream, nat>, s: Stream): nat {
    if s in floors then floors[s] else 0
  }

  // ---------------------------------------------------------------- what was accepted

  /** Where the current session's run of accepted messages begins. */
  function TenureStart(trace: seq<Message>): (b: nat)
    requires trace != []
    ensures b < |trace|
  {
    var init := trace[..|trace| - 1];
    if init != [] && init[|init| - 1].session == trace[|trace| - 1].session then TenureStart(init) else |init|
  }

  /** The messages of one peer accepted since its session last changed. */
  function Tenure(trace: seq<Message>): seq<Message> {
    if trace == [] then [] else trace[TenureStart(trace)..]
  }

  /** Above every sequence of its stream in the tenure. */
  predicate Beyond(tenure: seq<Message>, m: Message) {
    forall i :: 0 <= i < |tenure| && tenure[i].stream == m.stream ==> tenure[i].sequence < m.sequence
  }

  predicate SameSession(trace: seq<Message>, m: Message) {
    trace != [] && trace[|trace| - 1].session == m.session
  }

  /** The protocol's rule, stated over what was accepted before. */
  function Expected(trace: seq<Message>, m: Message): Reaction {
    if m.Manifest? then
      if m.robot != m.source then Refused
      else if SameSession(trace, m) && !Beyond(Tenure(trace), m) then Outdated
      else Stored
    else
      if !SameSession(trace, m) then Refused
      else if !Beyond(Tenure(trace), m) then Outdated
      else if m.robot != m.source then Refused
      else Stored
  }

  // ---------------------------------------------------------------- what is stored

  predicate IsLatestManifest(tenure: seq<Message>, i: nat) {
    i < |tenure| && tenure[i].Manifest? && forall j :: i < j < |tenure| ==> tenure[j].State?
  }

  /** The largest timestamp among the states, ties going to the latest. */
  predicate IsNewestState(tenure: seq<Message>, i: nat) {
    && i < |tenure| && tenure[i].State?
    && (forall j :: 0 <= j < |tenure| && tenure[j].State? ==> tenure[j].timestamp <= tenure[i].timestamp)
    && (forall j :: i < j < |tenure| && tenure[j].State? ==> tenure[j].timestamp < tenure[i].timestamp)
  }

  predicate IsFloor(tenure: seq<Message>, s: Stream, floor: nat) {
    && (forall i :: 0 <= i < |tenure| && tenure[i].stream == s ==> tenure[i].sequence <= floor)
    && (floor == 0 || exists i :: 0 <= i < |tenure| && tenure[i].stream == s && tenure[i].sequence == floor)
  }

  predicate NoState(tenure: seq<Message>) {
    forall i :: 0 <= i < |tenure| ==> tenure[i].Manifest?
  }

  predicate ShowsState(view: PeerView, tenure: seq<Message>, i: nat) {
    IsNewestState(tenure, i) && view.timestamp == tenure[i].timestamp &&
      view.state == Some(Snapshot(tenure[i].content, tenure[i].freshFor))
  }

  ghost predicate StateMatches(view: PeerView, tenure: seq<Message>) {
    if view.state.None? then NoState(tenure) && view.timestamp == 0 else exists i: nat :: ShowsState(view, tenure, i)
  }

  predicate ShowsManifest(view: PeerView, tenure: seq<Message>, i: nat) {
    IsLatestManifest(tenure, i) && view.manifest == Some(tenure[i].content)
  }

  ghost predicate ManifestMatches(view: PeerView, tenure: seq<Message>) {
    exists i: nat :: ShowsManifest(view, tenure, i)
  }

  predicate OneSession(tenure: seq<Message>) {
    forall i :: 0 <= i < |tenure| ==> tenure[i].session == tenure[0].session
  }

  predicate StrictlyIncreasing(tenure: seq<Message>) {
    forall i, j :: 0 <= i < j < |tenure| && tenure[i].stream == tenure[j].stream ==>
      tenure[i].sequence < tenure[j].sequence
  }

  /** The view is determined by the tenure: current session, latest manifest, newest state, floors. */
  ghost predicate Fits(view: PeerView, tenure: seq<Message>) {
    && tenure != [] && tenure[0].Manifest? && OneSession(tenure) && StrictlyIncreasing(tenure)
    && view.session == Some(tenure[0].session) && ManifestMatches(view, tenure) && StateMatches(view, tenure)
    && IsFloor(tenure, Operational, FloorOf(view.floors, Operational))
    && IsFloor(tenure, Safety, FloorOf(view.floors, Safety))
  }

  ghost predicate Matches(view: PeerView, trace: seq<Message>) {
    if trace == [] then view == EMPTY else Fits(view, Tenure(trace))
  }

  // ---------------------------------------------------------------- the handlers on one view

  function OnManifest(view: PeerView, m: Message): PeerView
    requires m.Manifest?
  {
    var v := if view.session != Some(m.session) then view.(state := None, timestamp := 0, floors := map[]) else view;
    if m.sequence <= FloorOf(v.floors, m.stream) then v
    else v.(manifest := Some(m.content), session := Some(m.session), floors := v.floors[m.stream := m.sequence])
  }

  function OnState(view: PeerView, m: Message): PeerView
    requires m.State?
  {
    var v := view.(floors := view.floors[m.stream := m.sequence]);
    if m.timestamp < v.timestamp then v
    else v.(state := Some(Snapshot(m.content, m.freshFor)), timestamp := m.timestamp)
  }

  lemma FloorRises(tenure: seq<Message>, m: Message, s: Stream, floor: nat)
    requires IsFloor(tenure, s, floor) && (m.stream == s ==> m.sequence > floor)
    ensures IsFloor(tenure + [m], s, if m.stream == s then m.sequence else floor)
  {
    var longer := tenure + [m];
    if m.stream == s {
      assert longer[|tenure|] == m;
    } else if floor != 0 {
      var i :| 0 <= i < |tenure| && tenure[i].stream == s && tenure[i].sequence == floor;
      assert longer[i] == tenure[i];
    }
  }

  lemma NewestWithState(tenure: seq<Message>, m: Message, view: PeerView)
    requires m.State? && StateMatches(view, tenure)
    ensures StateMatches(OnState(view, m), tenure + [m])
  {
    var longer := tenure + [m];
    if m.timestamp < view.timestamp {
      var i: nat :| ShowsState(view, tenure, i);
      assert longer[i] == tenure[i] && IsNewestState(longer, i);
      assert ShowsState(OnState(view, m), longer, i);
    } else {
      assert longer[|tenure|] == m;
      if view.state.Some? {
        var i: nat :| ShowsState(view, tenure, i);
        assert forall j :: 0 <= j < |tenure| && tenure[j].State? ==> tenure[j].timestamp <= tenure[i].timestamp;
      }
      assert IsNewestState(longer, |tenure|);
      assert ShowsState(OnState(view, m), longer, |tenure|);
    }
  }

  lemma NewestWithManifest(tenure: seq<Message>, m: Message, view: PeerView, view': PeerView)
    requires m.Manifest? && StateMatches(view, tenure) && view'.state == view.state && view'.timestamp == view.timestamp
    ensures StateMatches(view', tenure + [m])
  {
    var longer := tenure + [m];
    if view.state.Some? {
      var i: nat :| ShowsState(view, tenure, i);
      assert longer[i] == tenure[i] && IsNewestState(longer, i);
      assert ShowsState(view', longer, i);
    }
  }

  lemma LatestWithState(tenure: seq<Message>, m: Message, view: PeerView, view': PeerView)
    requires m.State? && ManifestMatches(view, tenure) && view'.manifest == view.manifest
    ensures ManifestMatches(view', tenure + [m])
  {
    var i: nat :| ShowsManifest(view, tenure, i);
    assert (tenure + [m])[i] == tenure[i] && IsLatestManifest(tenure + [m], i);
    assert ShowsManifest(view', tenure + [m], i);
  }

  lemma FloorsRise(view: PeerView, tenure: seq<Message>, m: Message, view': PeerView)
    requires Fits(view, tenure) && Beyond(tenure, m) && view'.floors == view.floors[m.stream := m.sequence]
    ensures IsFloor(tenure + [m], Operational, FloorOf(view'.floors, Operational))
    ensures IsFloor(tenure + [m], Safety, FloorOf(view'.floors, Safety))
  {
    FloorRises(tenure, m, Operational, FloorOf(view.floors, Operational));
    FloorRises(tenure, m, Safety, FloorOf(view.floors, Safety));
  }

  /** Accepting a message in the running session. */
  lemma ManifestInSession(view: PeerView, tenure: seq<Message>, m: Message)
    requires Fits(view, tenure) && tenure[0].session == m.session && Beyond(tenure, m) && m.Manifest?
    ensures Fits(OnManifest(view, m), tenure + [m])
  {
    var view', longer := OnManifest(view, m), tenure + [m];
    FloorsRise(view, tenure, m, view');
    NewestWithManifest(tenure, m, view, view');
    assert longer[|tenure|] == m && IsLatestManifest(longer, |tenure|);
    assert ShowsManifest(view', longer, |tenure|);
  }

  lemma StateInSession(view: PeerView, tenure: seq<Message>, m: Message)
    requires Fits(view, tenure) && tenure[0].session == m.session && Beyond(tenure, m) && m.State?
    ensures Fits(OnState(view, m), tenure + [m])
  {
    FloorsRise(view, tenure, m, OnState(view, m));
    NewestWithState(tenure, m, view);
    LatestWithState(tenure, m, view, OnState(view, m));
  }

  /** A manifest of another session starts a tenure of its own. */
  lemma ManifestOfNewSession(view: PeerView, m: Message)
    requires view.session != Some(m.session) && m.Manifest?
    ensures Fits(OnManifest(view, m), [m])
  {
    var tenure := [m];
    assert tenure[0] == m && IsLatestManifest(tenure, 0);
    assert ShowsManifest(OnManifest(view, m), tenure, 0);
  }

  lemma TenureGrows(trace: seq<Message>, m: Message)
    ensures Tenure(trace + [m]) == if SameSession(trace, m) then Tenure(trace) + [m] else [m]
  {
  }

  /** A manifest that names its source: the view reacts as the accepted messages demand. */
  lemma ManifestReaction(view: PeerView, trace: seq<Message>, m: Message)
    requires Matches(view, trace) && m.Manifest? && m.robot == m.source
    ensures Matches(OnManifest(view, m), trace + if Expected(trace, m) == Stored then [m] else [])
    ensures Expected(trace, m) == Outdated <==>
      view.session == Some(m.session) && m.sequence <= FloorOf(view.floors, m.stream)
    ensures Expected(trace, m) != Refused
  {
    TenureGrows(trace, m);
    if SameSession(trace, m) {
      if Beyond(Tenure(trace), m) {
        ManifestInSession(view, Tenure(trace), m);
      } else {
        assert trace + [] == trace;
      }
    } else {
      ManifestOfNewSession(view, m);
    }
  }

  /** A state is refused without a manifest in its session, ignored when outdated, and otherwise taken up. */
  lemma StateReaction(view: PeerView, trace: seq<Message>, m: Message)
    requires Matches(view, trace) && m.State?
    ensures view.session != Some(m.session) || view.manifest.None? ==> Expected(trace, m) == Refused
    ensures view.session == Some(m.session) && view.manifest.Some? ==>
      if m.sequence <= FloorOf(view.floors, m.stream) then Expected(trace, m) == Outdated
      else if m.robot != m.source then Expected(trace, m) == Refused
      else Expected(trace, m) == Stored && Matches(OnState(view, m), trace + [m])
  {
    TenureGrows(trace, m);
    if SameSession(trace, m) {
      if Beyond(Tenure(trace), m) {
        StateInSession(view, Tenure(trace), m);
      }
    }
  }

  /** What a message from the peer does to its view. */
  function React(view: PeerView, m: Message): (PeerView, Reaction) {
    if m.Manifest? then
      if m.robot != m.source then (view, Refused)
      else if view.session == Some(m.session) && m.sequence <= FloorOf(view.floors, m.stream) then (view, Outdated)
      else (OnManifest(view, m), Stored)
    else
      if view.session != Some(m.session) || view.manifest.None? then (view, Refused)
      else if m.sequence <= FloorOf(view.floors, m.stream) then (view, Outdated)
      else if m.robot != m.source then (view, Refused)
      else (OnState(view, m), Stored)
  }

  lemma ReactionIsExpected(view: PeerView, trace: seq<Message>, m: Message)
    requires Matches(view, trace)
    ensures React(view, m).1 == Expected(trace, m)
    ensures Matches(React(view, m).0, if Expected(trace, m) == Stored then trace + [m] else trace)
  {
    if m.State? {
      StateReaction(view, trace, m);
    } else if m.robot == m.source {
      ManifestReaction(view, trace, m);
    }
  }

  // ---------------------------------------------------------------- the registry

  predicate FreshView(view: PeerView, now: int) {
    view.state.Some? && now - view.timestamp <= view.state.value.freshFor
  }

  class Peers {
    var views: map<Text, PeerView>

    /** The peer's view, empty when there is none. */
    function View(p: Text): PeerView
      reads this
    {
      if p in views then views[p] else EMPTY
    }

    /** A stored state has a manifest beside it. */
    ghost predicate Valid()
      reads this
    {
      forall p :: p in views && views[p].state.Some? ==> views[p].manifest.Some?
    }

    constructor ()
      ensures Valid() && views == map[]
    {
      views := map[];
    }

    method OnManifestMessage(m: Message) returns (r: Reaction)
      requires Valid() && m.Manifest?
      modifies this
      ensures Valid() && (View(m.source), r) == React(old(View(m.source)), m)
      ensures forall p :: p != m.source ==> (p in views <==> p in old(views)) && View(p) == old(View(p))
    {
      if m.robot != m.source {
        return Refused;
      }
      var peer := View(m.source);
      if peer.session != Some(m.session) {
        peer := peer.(state := None, timestamp := 0, floors := map[]);
      }
      if m.sequence <= FloorOf(peer.floors, m.stream) {
        r := Outdated;
      } else {
        peer := peer.(
          manifest := Some(m.content),
          session := Some(m.session),
          floors := peer.floors[m.stream := m.sequence]);
        r := Stored;
      }
      views := views[m.source := peer];
    }

    /** Even a refused state leaves an empty view for a source not seen before. */
    method OnStateMessage(m: Message) returns (r: Reaction)
      requires Valid() && m.State?
      modifies this
      ensures Valid() && (View(m.source), r) == React(old(View(m.source)), m) && m.source in views
      ensures forall p :: p != m.source ==> (p in views <==> p in old(views)) && View(p) == old(View(p))
    {
      var peer := View(m.source);
      views := views[m.source := peer];
      if peer.session != Some(m.session) || peer.manifest.None? {
        return Refused;
      }
      if m.sequence <= FloorOf(peer.floors, m.stream) {
        return Outdated;
      }
      if m.robot != m.source {
        return Refused;
      }
      peer := peer.(floors := peer.floors[m.stream := m.sequence]);
      if m.timestamp >= peer.timestamp {
        peer := peer.(state := Some(Snapshot(m.content, m.freshFor)), timestamp := m.timestamp);
      }
      views := views[m.source := peer];
      r := Stored;
    }

    predicate IsFresh(robot: Text, now: int)
      reads this
    {
      robot in views && FreshView(views[robot], now)
    }

    /** The participants that lack a manifest or a fresh state: exactly those that are not
        fresh. */
    method MissingContext(participants: seq<Text>, now: int) returns (missing: seq<Text>)
      requires Valid()
      ensures missing == NotFresh(participants, now)
      ensures forall p :: p in missing <==> p in participants && !IsFresh(p, now)
    {
      missing := [];
      for i := 0 to |participants|
        invariant missing == NotFresh(participants[..i], now)
        invariant forall p :: p in missing <==> p in participants[..i] && !IsFresh(p, now)
      {
        var p := participants[i];
        assert participants[..i + 1][..i] == participants[..i];
        if p !in views || views[p].manifest.None? || views[p].state.None? ||
          now - views[p].timestamp > views[p].state.value.freshFor {
          missing := missing + [p];
        }
      }
      assert participants[..|participants|] == participants;
    }

    /** The participants that are not fresh, in order. */
    ghost function NotFresh(participants: seq<Text>, now: int): seq<Text>
      reads this
    {
      if participants == [] then []
      else
        var last := participants[|participants| - 1];
        NotFresh(participants[..|participants| - 1], now) + if IsFresh(last, now) then [] else [last]
    }
  }

  // ---------------------------------------------------------------- whole histories

  /** The view of peer `p` after a stream of messages from any peers. */
  function ViewAfter(history: seq<Message>, p: Text): PeerView {
    if history == [] then EMPTY
    else
      var before, m := ViewAfter(history[..|history| - 1], p), history[|history| - 1];
      if m.source == p then React(before, m).0 else before
  }

  /** The messages of peer `p` that the protocol's rule accepts. */
  function AcceptedFrom(history: seq<Message>, p: Text): seq<Message> {
    if history == [] then []
    else
      var before, m := AcceptedFrom(history[..|history| - 1], p), history[|history| - 1];
      if m.source == p && Expected(before, m) == Stored then before + [m] else before
  }

  lemma {:induction false} ViewMatches(history: seq<Message>, p: Text)
    ensures Matches(ViewAfter(history, p), AcceptedFrom(history, p))
  {
    if history != [] {
      var init, m := history[..|history| - 1], history[|history| - 1];
      ViewMatches(init, p);
      ReactionIsExpected(ViewAfter(init, p), AcceptedFrom(init, p), m);
    }
  }

  /** After any stream of messages each view shows the current session, its latest manifest
      and the newest state of its tenure, and each message was treated as the rule demands. */
  lemma ViewShowsTenure(history: seq<Message>, p: Text)
    ensures Matches(ViewAfter(history, p), AcceptedFrom(history, p))
    ensures forall i :: 0 <= i < |history| && history[i].source == p ==>
      React(ViewAfter(history[..i], p), history[i]).1 == Expected(AcceptedFrom(history[..i], p), history[i])
  {
    ViewMatches(history, p);
    forall i | 0 <= i < |history| && history[i].source == p
      ensures React(ViewAfter(history[..i], p), history[i]).1 == Expected(AcceptedFrom(history[..i], p), history[i])
    {
      ViewMatches(history[..i], p);
      ReactionIsExpected(ViewAfter(history[..i], p), AcceptedFrom(history[..i], p), history[i]);
    }
  }

  /** Fresh means: the newest state accepted in the current session's tenure is recent enough. */
  lemma FreshExactlyWhenNewestIsRecent(history: seq<Message>, p: Text, now: int)
    ensures FreshView(ViewAfter(history, p), now) <==> NewestIsRecent(Tenure(AcceptedFrom(history, p)), now)
  {
    ViewMatches(history, p);
    FreshShown(ViewAfter(history, p), Tenure(AcceptedFrom(history, p)), now);
  }

  lemma FreshShown(view: PeerView, tenure: seq<Message>, now: int)
    requires StateMatches(view, tenure)
    ensures FreshView(view, now) <==> NewestIsRecent(tenure, now)
  {
    if view.state.Some? {
      var i: nat :| ShowsState(view, tenure, i);
      assert FreshView(view, now) <==> RecentAt(tenure, i, now);
      assert forall j: nat :: RecentAt(tenure, j, now) ==> j == i;
    }
  }

  ghost predicate NewestIsRecent(tenure: seq<Message>, now: int) {
    exists i: nat :: RecentAt(tenure, i, now)
  }

  predicate RecentAt(tenure: seq<Message>, i: nat, now: int) {
    IsNewestState(tenure, i) && now - tenure[i].timestamp <= tenure[i].freshFor
  }

  /** The tenure is the longest run of the current session at the end of what was accepted. */
  lemma {:induction false} TenureIsLongestRun(trace: seq<Message>)
    requires trace != []
    ensures forall i :: TenureStart(trace) <= i < |trace| ==> trace[i].session == trace[|trace| - 1].session
    ensures TenureStart(trace) > 0 ==> trace[TenureStart(trace) - 1].session != trace[|trace| - 1].session
  {
    var init := trace[..|trace| - 1];
    if init != [] && init[|init| - 1].session == trace[|trace| - 1].session {
      TenureIsLongestRun(init);
    }
  }

  /** A stored state is of the current session and was preceded by a manifest of that session. */
  lemma StateFollowsManifest(history: seq<Message>, p: Text) returns (i: nat, j: nat)
    requires ViewAfter(history, p).state.Some?
    ensures var view, trace := ViewAfter(history, p), AcceptedFrom(history, p);
      && i < j < |trace| && trace[i].Manifest? && trace[j].State? && view.manifest.Some?
      && view.session == Some(trace[i].session) && view.session == Some(trace[j].session)
      && view.state == Some(Snapshot(trace[j].content, trace[j].freshFor)) && view.timestamp == trace[j].timestamp
  {
    ViewMatches(history, p);
    var view, trace := ViewAfter(history, p), AcceptedFrom(history, p);
    var tenure := Tenure(trace);
    TenureIsLongestRun(trace);
    var shown: nat :| ShowsState(view, tenure, shown);
    i, j := TenureStart(trace), TenureStart(trace) + shown;
    assert tenure[0] == trace[i] && tenure[shown] == trace[j];
  }
}
