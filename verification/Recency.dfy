/** What the bounded replay cache remembers: the lanes accepted most recently, and so what it
    refuses, in terms of its own earlier decisions. */
module Recency {
  import opened Ump
  import opened Receiver
  import opened Replay

  /** Call `i` is the last on lane `l` that the cache accepted, and nothing was restarted since. */
  predicate LastAccepted(maximum: nat, h: seq<Call>, l: Lane, i: nat) {
    && BoundedVerdict(maximum, h, i) && h[i].lane == l
    && forall j :: i < j < |h| ==> h[j].Present? && !(BoundedVerdict(maximum, h, j) && h[j].lane == l)
  }

  /** Lane `l` was last accepted before lane `k` was. */
  ghost predicate Older(maximum: nat, h: seq<Call>, l: Lane, k: Lane) {
    exists i: nat, j: nat :: i < j && LastAccepted(maximum, h, l, i) && LastAccepted(maximum, h, k, j)
  }

  ghost predicate Ever(maximum: nat, h: seq<Call>, l: Lane) {
    exists i: nat :: LastAccepted(maximum, h, l, i)
  }

  /** The cached floor is the sequence last accepted. */
  ghost predicate HasItsFloor(maximum: nat, h: seq<Call>, c: Cache, l: Lane) {
    exists i: nat :: LastAccepted(maximum, h, l, i) && l in c.floors && c.floors[l] == h[i].sequence
  }

  /** Lanes accepted but no longer cached are older than every cached one, and the cache is full. */
  ghost predicate OthersAreOlder(maximum: nat, h: seq<Call>, c: Cache) {
    forall l :: l !in c.order && Ever(maximum, h, l) ==>
      |c.order| == maximum && forall k :: k in c.order ==> Older(maximum, h, l, k)
  }

  ghost predicate ListedByAge(maximum: nat, h: seq<Call>, order: seq<Lane>) {
    forall x, y :: 0 <= x < y < |order| ==> Older(maximum, h, order[x], order[y])
  }

  ghost predicate MostRecent(maximum: nat, h: seq<Call>, c: Cache) {
    && (forall l :: l in c.order ==> HasItsFloor(maximum, h, c, l))
    && ListedByAge(maximum, h, c.order) && OthersAreOlder(maximum, h, c)
  }

  lemma VerdictOfPrefix(maximum: nat, h: seq<Call>, call: Call, j: nat)
    requires j < |h|
    ensures BoundedVerdict(maximum, h + [call], j) == BoundedVerdict(maximum, h, j)
  {
    assert (h + [call])[..j] == h[..j] && (h + [call])[j] == h[j];
  }

  /** How one more call moves the last acceptances. */
  lemma LastAcceptedNext(maximum: nat, h: seq<Call>, call: Call, l: Lane, i: nat)
    ensures var accepted := Fresh(BoundedRun(maximum, h).floors, call);
      LastAccepted(maximum, h + [call], l, i) <==>
        if i == |h| then accepted && call.lane == l
        else call.Present? && LastAccepted(maximum, h, l, i) && !(accepted && call.lane == l)
  {
    var h' := h + [call];
    assert h'[..|h|] == h;
    forall j: nat | j < |h| ensures BoundedVerdict(maximum, h', j) == BoundedVerdict(maximum, h, j) && h'[j] == h[j] {
      VerdictOfPrefix(maximum, h, call, j);
    }
    assert BoundedVerdict(maximum, h', |h|) == Fresh(BoundedRun(maximum, h).floors, call);
  }

  /** An acceptance makes its lane the youngest and leaves the ages of the others. */
  lemma AcceptanceAges(maximum: nat, h: seq<Call>, call: Call, l: Lane)
    requires Fresh(BoundedRun(maximum, h).floors, call) && l != call.lane
    ensures LastAccepted(maximum, h + [call], call.lane, |h|)
    ensures Ever(maximum, h, l) <==> Ever(maximum, h + [call], l)
    ensures Ever(maximum, h, l) ==> Older(maximum, h + [call], l, call.lane)
    ensures forall k :: k != call.lane && Older(maximum, h, l, k) ==> Older(maximum, h + [call], l, k)
  {
    LastAcceptedNext(maximum, h, call, call.lane, |h|);
    forall k, i: nat ensures k != call.lane ==>
      (LastAccepted(maximum, h + [call], k, i) <==> LastAccepted(maximum, h, k, i))
    {
      LastAcceptedNext(maximum, h, call, k, i);
    }
    if Ever(maximum, h, l) {
      var i: nat :| LastAccepted(maximum, h, l, i);
      assert LastAccepted(maximum, h + [call], l, i) && i < |h|;
    }
  }

  /** A refused sequence changes no age. */
  lemma RefusalAgesNothing(maximum: nat, h: seq<Call>, call: Call)
    requires call.Present? && !Fresh(BoundedRun(maximum, h).floors, call)
    ensures forall l, i: nat :: LastAccepted(maximum, h + [call], l, i) <==> LastAccepted(maximum, h, l, i)
  {
    forall l, i: nat ensures LastAccepted(maximum, h + [call], l, i) <==> LastAccepted(maximum, h, l, i) {
      LastAcceptedNext(maximum, h, call, l, i);
    }
  }

  /** Removing a lane keeps the order of the others. */
  lemma {:induction false} WithoutKeepsAges(maximum: nat, h: seq<Call>, order: seq<Lane>, l: Lane)
    requires ListedByAge(maximum, h, order)
    ensures ListedByAge(maximum, h, Without(order, l))
  {
    if order != [] {
      var init, last := order[..|order| - 1], order[|order| - 1];
      WithoutKeepsAges(maximum, h, init, l);
      WithoutMembers(init, l);
      forall k | k in init ensures Older(maximum, h, k, last) {
        var x :| 0 <= x < |init| && init[x] == k;
        assert order[x] == k && order[|order| - 1] == last;
      }
    }
  }

  lemma TouchKeepsFloors(maximum: nat, h: seq<Call>, c: Cache, call: Call, k: Lane)
    requires c == BoundedRun(maximum, h) && Fresh(c.floors, call)
    requires k == call.lane || HasItsFloor(maximum, h, c, k)
    ensures HasItsFloor(maximum, h + [call], Touch(c, call.lane, call.sequence), k)
  {
    var t := Touch(c, call.lane, call.sequence);
    if k == call.lane {
      LastAcceptedNext(maximum, h, call, k, |h|);
      assert (h + [call])[|h|].sequence == t.floors[k];
    } else {
      var i: nat :| LastAccepted(maximum, h, k, i) && k in c.floors && c.floors[k] == h[i].sequence;
      LastAcceptedNext(maximum, h, call, k, i);
      assert (h + [call])[i] == h[i];
    }
  }

  lemma TouchKeepsAges(maximum: nat, h: seq<Call>, order: seq<Lane>, call: Call)
    requires Fresh(BoundedRun(maximum, h).floors, call) && ListedByAge(maximum, h, order) && call.lane !in order
    requires forall k :: k in order ==> Ever(maximum, h, k)
    ensures ListedByAge(maximum, h + [call], order + [call.lane])
  {
    var after := order + [call.lane];
    forall x, y | 0 <= x < y < |after| ensures Older(maximum, h + [call], after[x], after[y]) {
      assert after[x] == order[x] && order[x] in order;
      AcceptanceAges(maximum, h, call, order[x]);
      if y < |order| {
        assert after[y] == order[y] && order[y] in order;
      }
    }
  }

  /** What is not cached after an acceptance, before anything is evicted. */
  lemma TouchKeepsOthers(maximum: nat, h: seq<Call>, c: Cache, call: Call, l: Lane, k: Lane)
    requires c == BoundedRun(maximum, h) && OthersAreOlder(maximum, h, c) && Fresh(c.floors, call)
    requires l !in c.order && l != call.lane && Ever(maximum, h + [call], l) && (k in c.order || k == call.lane)
    ensures |c.order| == maximum && Older(maximum, h + [call], l, k)
  {
    AcceptanceAges(maximum, h, call, l);
  }

  lemma TouchedByAge(maximum: nat, h: seq<Call>, c: Cache, call: Call)
    requires c == BoundedRun(maximum, h) && MostRecent(maximum, h, c) && Fresh(c.floors, call)
    ensures ListedByAge(maximum, h + [call], Touch(c, call.lane, call.sequence).order)
  {
    WithoutMembers(c.order, call.lane);
    WithoutKeepsAges(maximum, h, c.order, call.lane);
    forall k | k in Without(c.order, call.lane) ensures Ever(maximum, h, k) {
      assert HasItsFloor(maximum, h, c, k);
    }
    TouchKeepsAges(maximum, h, Without(c.order, call.lane), call);
  }

  lemma TouchedMember(maximum: nat, h: seq<Call>, c: Cache, call: Call, k: Lane)
    requires c == BoundedRun(maximum, h) && MostRecent(maximum, h, c) && Fresh(c.floors, call)
    requires k in Touch(c, call.lane, call.sequence).order
    ensures HasItsFloor(maximum, h + [call], Touch(c, call.lane, call.sequence), k)
    ensures forall l :: l !in Touch(c, call.lane, call.sequence).order && Ever(maximum, h + [call], l) ==>
      |c.order| == maximum && Older(maximum, h + [call], l, k)
  {
    WithoutMembers(c.order, call.lane);
    TouchKeepsFloors(maximum, h, c, call, k);
    forall l | l !in Touch(c, call.lane, call.sequence).order && Ever(maximum, h + [call], l)
      ensures |c.order| == maximum && Older(maximum, h + [call], l, k)
    {
      TouchKeepsOthers(maximum, h, c, call, l, k);
    }
  }

  /** Evicting the oldest lane of a cache that is one lane over. */
  lemma EvictKeepsRecency(maximum: nat, h: seq<Call>, t: Cache, r: Cache)
    requires Distinct(t.order) && |t.order| == maximum + 1 && ListedByAge(maximum, h, t.order)
    requires forall l :: l in t.order ==> HasItsFloor(maximum, h, t, l)
    requires forall l, k :: l !in t.order && Ever(maximum, h, l) && k in t.order ==> Older(maximum, h, l, k)
    requires r == Cache(t.floors - {t.order[0]}, t.order[1..])
    ensures MostRecent(maximum, h, r)
  {
    forall l | l in r.order ensures HasItsFloor(maximum, h, r, l) {
      assert l in t.order && l != t.order[0] && HasItsFloor(maximum, h, t, l);
      var i: nat :| LastAccepted(maximum, h, l, i) && l in t.floors && t.floors[l] == h[i].sequence;
    }
    assert forall x :: 0 <= x < |r.order| ==> r.order[x] == t.order[x + 1];
    forall l, k | l !in r.order && Ever(maximum, h, l) && k in r.order ensures Older(maximum, h, l, k) {
      assert k in t.order;
      if l in t.order {
        assert l == t.order[0];
        var x :| 0 <= x < |r.order| && r.order[x] == k;
      }
    }
  }

  /** The cache holds the lanes accepted most recently since the last restart, as many as fit, listed
      by their last acceptance; what was evicted is older than everything kept. */
  lemma {:induction false} CacheHoldsMostRecent(maximum: nat, h: seq<Call>)
    requires maximum >= 1
    ensures Valid(BoundedRun(maximum, h)) && |BoundedRun(maximum, h).order| <= maximum
    ensures MostRecent(maximum, h, BoundedRun(maximum, h))
  {
    BoundedRunValid(maximum, h);
    if h != [] {
      var init, call := h[..|h| - 1], h[|h| - 1];
      assert h == init + [call];
      var c := BoundedRun(maximum, init);
      CacheHoldsMostRecent(maximum, init);
      if call.Reopen? {
        forall l, i: nat ensures !LastAccepted(maximum, h, l, i) { LastAcceptedNext(maximum, init, call, l, i); }
      } else if !Fresh(c.floors, call) {
        RefusalAgesNothing(maximum, init, call);
        RefusalKeepsRecency(maximum, init, call, c);
      } else {
        AcceptanceKeepsRecency(maximum, init, c, call);
      }
    }
  }

  lemma RefusalKeepsRecency(maximum: nat, h: seq<Call>, call: Call, c: Cache)
    requires MostRecent(maximum, h, c)
    requires forall l, i: nat :: LastAccepted(maximum, h + [call], l, i) <==> LastAccepted(maximum, h, l, i)
    ensures MostRecent(maximum, h + [call], c)
  {
    forall l | l in c.order ensures HasItsFloor(maximum, h + [call], c, l) {
      var i: nat :| LastAccepted(maximum, h, l, i) && l in c.floors && c.floors[l] == h[i].sequence;
      assert LastAccepted(maximum, h + [call], l, i) && (h + [call])[i] == h[i];
    }
    forall l, k | Older(maximum, h, l, k) ensures Older(maximum, h + [call], l, k) {
      var i: nat, j: nat :| i < j && LastAccepted(maximum, h, l, i) && LastAccepted(maximum, h, k, j);
      assert LastAccepted(maximum, h + [call], l, i) && LastAccepted(maximum, h + [call], k, j);
    }
    forall l | Ever(maximum, h + [call], l) ensures Ever(maximum, h, l) {
    }
  }

  lemma AcceptanceKeepsRecency(maximum: nat, h: seq<Call>, c: Cache, call: Call)
    requires maximum >= 1 && c == BoundedRun(maximum, h) && Valid(c) && |c.order| <= maximum
    requires MostRecent(maximum, h, c) && Fresh(c.floors, call)
    ensures MostRecent(maximum, h + [call], Bounded(c, maximum, call))
  {
    var t := Touch(c, call.lane, call.sequence);
    TouchedByAge(maximum, h, c, call);
    forall k | k in t.order { TouchedMember(maximum, h, c, call, k); }
    TouchKeepsValid(c, call.lane, call.sequence);
    TouchedLength(c, call.lane, call.sequence);
    assert call.lane in t.order;
    if |t.order| > maximum {
      var r := Cache(t.floors - {t.order[0]}, t.order[1..]);
      assert Evict(t, maximum) == Evict(r, maximum) == r;
      EvictKeepsRecency(maximum, h + [call], t, r);
    }
  }

  lemma TouchedLength(c: Cache, l: Lane, sequence: nat)
    requires Valid(c)
    ensures |Touch(c, l, sequence).order| == if l in c.order then |c.order| else |c.order| + 1
  {
    WithoutLength(c.order, l);
  }

  lemma {:induction false} WithoutLength(order: seq<Lane>, l: Lane)
    requires Distinct(order)
    ensures |Without(order, l)| == if l in order then |order| - 1 else |order|
  {
    if order != [] {
      var init, last := order[..|order| - 1], order[|order| - 1];
      WithoutLength(init, l);
      assert last !in init;
      assert order == init + [last];
    }
  }

  // ---------------------------------------------------------------- what the cache decides

  /** The lanes on which something was accepted after call `i`. */
  function AcceptedAfter(maximum: nat, h: seq<Call>, i: nat): set<Lane> {
    set j | i < j < |h| && BoundedVerdict(maximum, h, j) :: h[j].lane
  }

  lemma {:induction false} AcceptedLast(maximum: nat, h: seq<Call>, l: Lane, i: nat, n: nat) returns (j: nat)
    requires i < n <= |h| && BoundedVerdict(maximum, h, i) && h[i].lane == l
    requires forall k :: i < k < |h| ==> h[k].Present?
    requires forall k :: n <= k < |h| ==> !(BoundedVerdict(maximum, h, k) && h[k].lane == l)
    ensures i <= j && LastAccepted(maximum, h, l, j)
    decreases n
  {
    if i == n - 1 || (BoundedVerdict(maximum, h, n - 1) && h[n - 1].lane == l) {
      j := n - 1;
    } else {
      j := AcceptedLast(maximum, h, l, i, n - 1);
    }
  }

  /** The lanes accepted after the last acceptance on `l` are those it is older than. */
  lemma AcceptedAfterIsYounger(maximum: nat, h: seq<Call>, l: Lane, i: nat, k: Lane)
    requires LastAccepted(maximum, h, l, i)
    ensures k in AcceptedAfter(maximum, h, i) <==> Older(maximum, h, l, k)
  {
    if k in AcceptedAfter(maximum, h, i) {
      var j :| i < j < |h| && BoundedVerdict(maximum, h, j) && h[j].lane == k;
      var last := AcceptedLast(maximum, h, k, j, |h|);
      assert i < last && LastAccepted(maximum, h, k, last);
    }
    if Older(maximum, h, l, k) {
      var x: nat, j: nat :| x < j && LastAccepted(maximum, h, l, x) && LastAccepted(maximum, h, k, j);
      assert x == i;
    }
  }

  lemma OlderIsStrict(maximum: nat, h: seq<Call>, l: Lane, k: Lane)
    requires Older(maximum, h, l, k)
    ensures !Older(maximum, h, k, l)
  {
  }

  /** A lane is cached exactly while fewer than `maximum` other lanes were accepted after it. */
  lemma CachedExactlyWhileRecent(maximum: nat, h: seq<Call>, l: Lane, i: nat)
    requires maximum >= 1 && LastAccepted(maximum, h, l, i)
    ensures l in BoundedRun(maximum, h).floors <==> |AcceptedAfter(maximum, h, i)| < maximum
    ensures l in BoundedRun(maximum, h).floors ==> BoundedRun(maximum, h).floors[l] == h[i].sequence
  {
    var c, younger := BoundedRun(maximum, h), AcceptedAfter(maximum, h, i);
    CacheHoldsMostRecent(maximum, h);
    forall k { AcceptedAfterIsYounger(maximum, h, l, i, k); }
    if l in c.order {
      assert HasItsFloor(maximum, h, c, l);
      var x :| 0 <= x < |c.order| && c.order[x] == l;
      var rest := c.order[x + 1..];
      forall k | k in younger ensures k in rest {
        YoungerIsLater(maximum, h, c, l, x, k);
      }
      SetFits(younger, rest);
    } else {
      assert Ever(maximum, h, l);
      DistinctFits(c.order, younger);
    }
  }

  lemma YoungerIsLater(maximum: nat, h: seq<Call>, c: Cache, l: Lane, x: nat, k: Lane)
    requires ListedByAge(maximum, h, c.order) && OthersAreOlder(maximum, h, c)
    requires x < |c.order| && c.order[x] == l && Older(maximum, h, l, k)
    ensures k in c.order[x + 1..]
  {
    OlderIsStrict(maximum, h, l, k);
    assert k in c.order by { assert l in c.order && Ever(maximum, h, k); }
    var y :| 0 <= y < |c.order| && c.order[y] == k;
    OlderIsEarlier(maximum, h, c.order, x, y);
    assert c.order[x + 1..][y - x - 1] == k;
  }

  lemma OlderIsEarlier(maximum: nat, h: seq<Call>, order: seq<Lane>, x: nat, y: nat)
    requires ListedByAge(maximum, h, order) && x < |order| && y < |order|
    requires Older(maximum, h, order[x], order[y])
    ensures x < y
  {
    OlderIsStrict(maximum, h, order[x], order[y]);
  }

  lemma {:induction false} SetFits(lanes: set<Lane>, list: seq<Lane>)
    requires forall l :: l in lanes ==> l in list
    ensures |lanes| <= |list|
  {
    if list == [] {
      assert lanes == {};
    } else {
      var init, last := list[..|list| - 1], list[|list| - 1];
      forall l | l in lanes - {last} ensures l in init { }
      SetFits(lanes - {last}, init);
    }
  }

  /** What the cache decides, in terms of its own earlier decisions alone: a positive sequence is
      refused exactly when its lane last accepted one at least as large, since the last restart,
      and fewer than `maximum` other lanes have been accepted in between. */
  lemma RefusedExactlyWhileRemembered(maximum: nat, h: seq<Call>, i: nat)
    requires maximum >= 1 && i < |h| && h[i].Present?
    ensures BoundedVerdict(maximum, h, i) <==> h[i].sequence >= 1 && forall j: nat ::
      LastAccepted(maximum, h[..i], h[i].lane, j) && |AcceptedAfter(maximum, h[..i], j)| < maximum ==>
        h[i].sequence > h[j].sequence
  {
    var past, l := h[..i], h[i].lane;
    var c := BoundedRun(maximum, past);
    forall j: nat | LastAccepted(maximum, past, l, j)
      ensures l in c.floors <==> |AcceptedAfter(maximum, past, j)| < maximum
      ensures l in c.floors ==> c.floors[l] == h[j].sequence
    {
      CachedExactlyWhileRecent(maximum, past, l, j);
    }
    CacheHoldsMostRecent(maximum, past);
    if l in c.floors {
      assert HasItsFloor(maximum, past, c, l);
    }
  }
}
