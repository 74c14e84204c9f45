/** The two replay protectors: a durable table of sequence floors, and a bounded
    least-recently-used cache of them. */
module Replay {
  import opened Ump
  import opened Receiver

  /** A presented sequence number, or a restart of the process. */
  datatype Call = Present(lane: Lane, sequence: int) | Reopen

  // ---------------------------------------------------------------- the durable table

  predicate Fresh(floors: map<Lane, nat>, call: Call) {
    call.Present? && call.sequence > FloorOf(floors, call.lane)
  }

  function Durable(floors: map<Lane, nat>, call: Call): map<Lane, nat> {
    if Fresh(floors, call) then floors[call.lane := call.sequence] else floors
  }

  function DurableRun(h: seq<Call>): map<Lane, nat> {
    if h == [] then map[] else Durable(DurableRun(h[..|h| - 1]), h[|h| - 1])
  }

  predicate DurableVerdict(h: seq<Call>, i: nat)
  {
    i < |h| && Fresh(DurableRun(h[..i]), h[i])
  }

  // ---------------------------------------------------------------- the cache

  /** `order` lists the cached lanes, least recently accepted first. */
  datatype Cache = Cache(floors: map<Lane, nat>, order: seq<Lane>)

  const EMPTY := Cache(map[], [])

  function Without(order: seq<Lane>, l: Lane): seq<Lane> {
    if order == [] then []
    else Without(order[..|order| - 1], l) + if order[|order| - 1] == l then [] else [order[|order| - 1]]
  }

  function Touch(c: Cache, l: Lane, sequence: nat): Cache {
    Cache(c.floors[l := sequence], Without(c.order, l) + [l])
  }

  function Evict(c: Cache, maximum: nat): Cache
    decreases |c.order|
  {
    if |c.order| > maximum then Evict(Cache(c.floors - {c.order[0]}, c.order[1..]), maximum) else c
  }

  function Bounded(c: Cache, maximum: nat, call: Call): Cache {
    if call.Reopen? then EMPTY
    else if Fresh(c.floors, call) then Evict(Touch(c, call.lane, call.sequence), maximum)
    else c
  }

  function BoundedRun(maximum: nat, h: seq<Call>): Cache {
    if h == [] then EMPTY else Bounded(BoundedRun(maximum, h[..|h| - 1]), maximum, h[|h| - 1])
  }

  predicate BoundedVerdict(maximum: nat, h: seq<Call>, i: nat)
  {
    i < |h| && Fresh(BoundedRun(maximum, h[..i]).floors, h[i])
  }

  ghost predicate Valid(c: Cache) {
    Distinct(c.order) && forall l :: l in c.floors <==> l in c.order
  }

  // ---------------------------------------------------------------- the programs

  class ReplayProtector {
    const maximum: nat
    var cache: Cache

    constructor (limit: nat)
      requires limit >= 1
      ensures maximum == limit && cache == EMPTY
    {
      maximum, cache := limit, EMPTY;
    }

    method Accept(l: Lane, sequence: int) returns (ok: bool)
      modifies this
      ensures ok <==> Fresh(old(cache).floors, Present(l, sequence))
      ensures cache == Bounded(old(cache), maximum, Present(l, sequence))
    {
      var previous := if l in cache.floors then cache.floors[l] else 0;
      if sequence <= previous {
        return false;
      }
      cache := Touch(cache, l, sequence);
      while |cache.order| > maximum
        invariant Evict(cache, maximum) == Evict(Touch(old(cache), l, sequence), maximum)
        decreases |cache.order|
      {
        cache := Cache(cache.floors - {cache.order[0]}, cache.order[1..]);
      }
      ok := true;
    }
  }

  class SqliteReplayProtector {
    var floors: map<Lane, nat>

    constructor ()
      ensures floors == map[]
    {
      floors := map[];
    }

    method Accept(l: Lane, sequence: int) returns (ok: bool)
      modifies this
      ensures ok <==> Fresh(old(floors), Present(l, sequence))
      ensures floors == Durable(old(floors), Present(l, sequence))
    {
      var previous := if l in floors then floors[l] else 0;
      if sequence <= previous {
        return false;
      }
      floors := floors[l := sequence];
      ok := true;
    }
  }

  /** The receive path judges a message by the durable table. */
  lemma JudgingIsDurable(n: Node, k: nat)
    requires k in n.connections && n.connections[k].Enqueued?
    ensures var e := n.connections[k].envelope;
      && Act(n, Judge(k)).floors == Durable(n.floors, Present(LaneOf(e), e.sequence))
      && (Act(n, Judge(k)).connections[k].Admitted? <==> Fresh(n.floors, Present(LaneOf(e), e.sequence)))
  {
  }

  // ---------------------------------------------------------------- what the durable table accepts

  predicate SameLaneCall(h: seq<Call>, j: nat, l: Lane)
  {
    j < |h| && h[j].Present? && h[j].lane == l
  }

  /** The floor is the largest sequence ever presented, accepted or not. */
  lemma {:induction false} FloorIsMaximum(h: seq<Call>, l: Lane)
    ensures forall j :: 0 <= j < |h| && SameLaneCall(h, j, l) ==> h[j].sequence <= FloorOf(DurableRun(h), l)
    ensures FloorOf(DurableRun(h), l) > 0 ==>
      exists j :: 0 <= j < |h| && SameLaneCall(h, j, l) && h[j].sequence == FloorOf(DurableRun(h), l)
  {
    if h != [] {
      var init, last := h[..|h| - 1], h[|h| - 1];
      FloorIsMaximum(init, l);
      assert forall j :: 0 <= j < |init| ==> SameLaneCall(init, j, l) == SameLaneCall(h, j, l);
      if last.Present? && last.lane == l && Fresh(DurableRun(init), last) {
        assert SameLaneCall(h, |h| - 1, l);
      } else if FloorOf(DurableRun(init), l) > 0 {
        var j :| 0 <= j < |init| && SameLaneCall(init, j, l) && init[j].sequence == FloorOf(DurableRun(init), l);
        assert SameLaneCall(h, j, l);
      }
    }
  }

  /** A sequence is accepted exactly when it is positive and above everything presented on
      its lane before, restarts included; so accepted sequences strictly increase. */
  lemma AcceptsExactlyNewMaxima(h: seq<Call>, i: nat)
    requires i < |h| && h[i].Present?
    ensures DurableVerdict(h, i) <==>
      h[i].sequence >= 1 && forall j :: 0 <= j < i && SameLaneCall(h, j, h[i].lane) ==> h[j].sequence < h[i].sequence
  {
    var past, l := h[..i], h[i].lane;
    FloorIsMaximum(past, l);
    assert forall j :: 0 <= j < i ==> SameLaneCall(past, j, l) == SameLaneCall(h, j, l) && past[j] == h[j];
    if !DurableVerdict(h, i) && h[i].sequence >= 1 {
      var j :| 0 <= j < i && SameLaneCall(past, j, l) && past[j].sequence == FloorOf(DurableRun(past), l);
      assert SameLaneCall(h, j, l);
    }
  }

  // ---------------------------------------------------------------- the cache keeps its books

  lemma {:induction false} WithoutMembers(order: seq<Lane>, l: Lane)
    ensures forall x :: x in Without(order, l) <==> x in order && x != l
    ensures Distinct(order) ==> Distinct(Without(order, l))
    ensures l !in order ==> Without(order, l) == order
  {
    if order != [] {
      var init := order[..|order| - 1];
      WithoutMembers(init, l);
      assert order == init + [order[|order| - 1]];
      if Distinct(order) {
        assert forall i :: 0 <= i < |init| ==> order[i] != order[|order| - 1];
        assert order[|order| - 1] !in Without(init, l);
      }
    }
  }

  lemma TouchKeepsValid(c: Cache, l: Lane, sequence: nat)
    requires Valid(c)
    ensures Valid(Touch(c, l, sequence))
  {
    WithoutMembers(c.order, l);
  }

  lemma {:induction false} EvictKeepsValid(c: Cache, maximum: nat)
    requires Valid(c)
    ensures Valid(Evict(c, maximum)) && |Evict(c, maximum).order| <= maximum
    ensures forall l :: l in Evict(c, maximum).floors ==> l in c.floors && Evict(c, maximum).floors[l] == c.floors[l]
    decreases |c.order|
  {
    if |c.order| > maximum {
      var smaller := Cache(c.floors - {c.order[0]}, c.order[1..]);
      assert forall l :: l in c.order <==> l == c.order[0] || l in smaller.order;
      EvictKeepsValid(smaller, maximum);
    }
  }

  lemma {:induction false} BoundedRunValid(maximum: nat, h: seq<Call>)
    ensures Valid(BoundedRun(maximum, h)) && |BoundedRun(maximum, h).order| <= maximum
  {
    if h != [] {
      var before, call := BoundedRun(maximum, h[..|h| - 1]), h[|h| - 1];
      BoundedRunValid(maximum, h[..|h| - 1]);
      if Fresh(before.floors, call) {
        TouchKeepsValid(before, call.lane, call.sequence);
        EvictKeepsValid(Touch(before, call.lane, call.sequence), maximum);
      }
    }
  }

  // ---------------------------------------------------------------- comparing the two

  /** The cache's floors never exceed the durable ones, so it never refuses what the table accepts. */
  lemma {:induction false} CacheIsNeverStricter(maximum: nat, h: seq<Call>)
    ensures forall l :: FloorOf(BoundedRun(maximum, h).floors, l) <= FloorOf(DurableRun(h), l)
    ensures forall i :: 0 <= i < |h| && DurableVerdict(h, i) ==> BoundedVerdict(maximum, h, i)
  {
    if h != [] {
      var init, call := h[..|h| - 1], h[|h| - 1];
      var before := BoundedRun(maximum, init);
      CacheIsNeverStricter(maximum, init);
      BoundedRunValid(maximum, init);
      if Fresh(before.floors, call) {
        TouchKeepsValid(before, call.lane, call.sequence);
        EvictKeepsValid(Touch(before, call.lane, call.sequence), maximum);
      }
      forall l ensures FloorOf(BoundedRun(maximum, h).floors, l) <= FloorOf(DurableRun(h), l) {
        assert FloorOf(before.floors, l) <= FloorOf(DurableRun(init), l);
        assert call.Present? ==> FloorOf(before.floors, call.lane) <= FloorOf(DurableRun(init), call.lane);
      }
      forall i | 0 <= i < |h| && DurableVerdict(h, i) ensures BoundedVerdict(maximum, h, i) {
        if i < |init| {
          assert init[..i] == h[..i] && init[i] == h[i];
          assert DurableVerdict(init, i);
        }
      }
    }
  }

  ghost predicate Over(h: seq<Call>, lanes: set<Lane>) {
    forall i :: 0 <= i < |h| ==> h[i].Present? && h[i].lane in lanes
  }

  ghost predicate Agree(maximum: nat, h: seq<Call>) {
    forall i :: 0 <= i < |h| ==> BoundedVerdict(maximum, h, i) == DurableVerdict(h, i)
  }

  lemma {:induction false} DistinctFits(order: seq<Lane>, lanes: set<Lane>)
    requires Distinct(order) && forall l :: l in order ==> l in lanes
    ensures |order| <= |lanes|
  {
    if order != [] {
      var init, last := order[..|order| - 1], order[|order| - 1];
      DistinctFits(init, lanes - {last});
    }
  }

  lemma {:induction false} FewLanesAgree(maximum: nat, lanes: set<Lane>, h: seq<Call>)
    requires |lanes| <= maximum && Over(h, lanes)
    ensures BoundedRun(maximum, h).floors == DurableRun(h) && (forall l :: l in DurableRun(h) ==> l in lanes)
    ensures Agree(maximum, h)
  {
    if h != [] {
      var init, call := h[..|h| - 1], h[|h| - 1];
      var before := BoundedRun(maximum, init);
      FewLanesAgree(maximum, lanes, init);
      BoundedRunValid(maximum, init);
      if Fresh(before.floors, call) {
        var touched := Touch(before, call.lane, call.sequence);
        TouchKeepsValid(before, call.lane, call.sequence);
        DistinctFits(touched.order, lanes);
      }
      forall i | 0 <= i < |h| ensures BoundedVerdict(maximum, h, i) == DurableVerdict(h, i) {
        if i < |init| {
          assert init[..i] == h[..i] && BoundedVerdict(maximum, init, i) == DurableVerdict(init, i);
        }
      }
    }
  }

  /** Present sequence 1 once on each of the listed lanes. */
  function Sweep(lanes: seq<Lane>): seq<Call> {
    if lanes == [] then [] else Sweep(lanes[..|lanes| - 1]) + [Present(lanes[|lanes| - 1], 1)]
  }

  lemma NewLaneEnters(maximum: nat, c: Cache, l: Lane)
    requires maximum >= 1 && Valid(c) && |c.order| <= maximum && l !in c.order
    ensures Bounded(c, maximum, Present(l, 1)).order == if |c.order| < maximum then c.order + [l]
      else (c.order + [l])[1..]
  {
    WithoutMembers(c.order, l);
    var touched := Touch(c, l, 1);
    if |c.order| == maximum {
      var smaller := Cache(touched.floors - {touched.order[0]}, touched.order[1..]);
      assert Evict(touched, maximum) == Evict(smaller, maximum) == smaller;
    }
  }

  lemma {:induction false} SweepFloors(lanes: seq<Lane>)
    ensures |Sweep(lanes)| == |lanes|
    ensures forall l :: l in lanes ==> FloorOf(DurableRun(Sweep(lanes)), l) == 1
    ensures forall l :: FloorOf(DurableRun(Sweep(lanes)), l) <= 1
  {
    if lanes != [] {
      var init, last := lanes[..|lanes| - 1], lanes[|lanes| - 1];
      SweepFloors(init);
      assert Sweep(lanes)[..|init|] == Sweep(init);
      var before, after := DurableRun(Sweep(init)), DurableRun(Sweep(lanes));
      assert after == Durable(before, Present(last, 1));
      assert forall l :: FloorOf(after, l) == if l == last then 1 else FloorOf(before, l);
    }
  }

  /** After a sweep the cache holds just the last lanes. */
  lemma {:induction false} SweepFillsCache(maximum: nat, lanes: seq<Lane>)
    requires maximum >= 1 && Distinct(lanes) && |lanes| <= maximum + 1
    ensures BoundedRun(maximum, Sweep(lanes)).order == if |lanes| <= maximum then lanes else lanes[1..]
  {
    if lanes != [] {
      var init, last := lanes[..|lanes| - 1], lanes[|lanes| - 1];
      SweepFillsCache(maximum, init);
      SweepFloors(init);
      assert Sweep(lanes)[..|init|] == Sweep(init);
      BoundedRunValid(maximum, Sweep(init));
      NewLaneEnters(maximum, BoundedRun(maximum, Sweep(init)), last);
      assert init + [last] == lanes;
    }
  }

  lemma {:induction false} Enumerate(lanes: set<Lane>, n: nat) returns (list: seq<Lane>)
    requires n <= |lanes|
    ensures |list| == n && Distinct(list) && forall l :: l in list ==> l in lanes
  {
    list := [];
    if n > 0 {
      var l :| l in lanes;
      list := Enumerate(lanes - {l}, n - 1);
      list := list + [l];
    }
  }

  lemma {:induction false} SweepOver(list: seq<Lane>, lanes: set<Lane>)
    requires forall l :: l in list ==> l in lanes
    ensures Over(Sweep(list), lanes)
  {
    if list != [] {
      SweepOver(list[..|list| - 1], lanes);
    }
  }

  /** With one lane too many, a sweep evicts the first lane and its replay is let in. */
  lemma TooManyLanesDisagree(maximum: nat, lanes: set<Lane>) returns (h: seq<Call>)
    requires maximum >= 1 && |lanes| > maximum
    ensures Over(h, lanes) && !Agree(maximum, h)
  {
    var list := Enumerate(lanes, maximum + 1);
    SweepFillsCache(maximum, list);
    SweepFloors(list);
    BoundedRunValid(maximum, Sweep(list));
    SweepOver(list, lanes);
    h := Sweep(list) + [Present(list[0], 1)];
    assert h[..|list|] == Sweep(list);
    assert list[0] !in list[1..];
    assert BoundedVerdict(maximum, h, |list|) != DurableVerdict(h, |list|);
  }

  /** The cache decides like the durable table on every history over a set of lanes exactly
      when the set fits into the cache. */
  lemma AgreementExactlyWithinCapacity(maximum: nat, lanes: set<Lane>)
    requires maximum >= 1
    ensures |lanes| <= maximum <==> forall h :: Over(h, lanes) ==> Agree(maximum, h)
  {
    if |lanes| <= maximum {
      forall h | Over(h, lanes) ensures Agree(maximum, h) { FewLanesAgree(maximum, lanes, h); }
    } else {
      var h := TooManyLanesDisagree(maximum, lanes);
    }
  }
}
