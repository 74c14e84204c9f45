/** Validation of a proposed plan: the declarative meaning of the checks, and the
    in-place depth-first search that decides whether the dependencies have a cycle. */
module PlanGraph {
  import opened Ump

  /** Each step with the steps it depends on. */
  type Graph = map<Text, seq<Text>>

  predicate Closed(g: Graph) {
    forall s, d :: s in g && d in g[s] ==> d in g
  }

  /** A non-empty walk from a step to one of its dependencies and so on. */
  predicate Path(g: Graph, p: seq<Text>) {
    && |p| > 0
    && (forall i :: 0 <= i < |p| ==> p[i] in g)
    && (forall i, j :: 0 <= i < |p| && 0 <= j < |p| && j == i + 1 ==> p[j] in g[p[i]])
  }

  predicate Cycle(g: Graph, p: seq<Text>) {
    Path(g, p) && |p| >= 2 && p[0] == p[|p| - 1]
  }

  ghost predicate Acyclic(g: Graph) {
    forall p :: !Cycle(g, p)
  }

  /** Every listed step comes after all of its dependencies. */
  predicate DependenciesFirst(g: Graph, order: seq<Text>) {
    && Distinct(order)
    && (forall i :: 0 <= i < |order| ==> order[i] in g)
    && (forall i, d :: 0 <= i < |order| && d in g[order[i]] ==> d in order[..i])
  }

  predicate Topological(g: Graph, order: seq<Text>) {
    DependenciesFirst(g, order) && forall s :: s in g ==> s in order
  }

  function Position(order: seq<Text>, s: Text): (i: nat)
    requires s in order
    ensures i < |order| && order[i] == s
  {
    if order[0] == s then 0 else 1 + Position(order[1..], s)
  }

  /** Walking along dependencies only moves towards the front of the order. */
  lemma {:induction false} PathDescends(g: Graph, order: seq<Text>, p: seq<Text>)
    requires Topological(g, order) && Path(g, p) && |p| >= 2
    ensures Position(order, p[|p| - 1]) < Position(order, p[0])
    decreases |p|
  {
    var i := Position(order, p[0]);
    assert p[1] in g[p[0]];
    assert p[1] in order[..i];
    var j :| 0 <= j < i && order[j] == p[1];
    assert Position(order, p[1]) == j;
    if |p| > 2 {
      var q := p[1..];
      assert forall k :: 0 <= k < |q| ==> q[k] == p[k + 1];
      PathDescends(g, order, q);
    }
  }

  lemma TopologicalIsAcyclic(g: Graph, order: seq<Text>)
    requires Topological(g, order)
    ensures Acyclic(g)
  {
    forall p | Cycle(g, p) ensures false {
      PathDescends(g, order, p);
    }
  }

  predicate DependsOnOneOf(g: Graph, s: Text, among: set<Text>) {
    s in g && exists d :: d in g[s] && d in among
  }

  /** If every waiting step depends on a waiting or a stopped one, every waiting step leads to a stopped one. */
  lemma {:induction false} WaitingLeadsToStopped(g: Graph, order: seq<Text>, waiting: set<Text>, stopped: set<Text>,
      s: Text, bound: nat) returns (path: seq<Text>)
    requires Topological(g, order) && Closed(g) && waiting <= g.Keys && s in waiting
    requires forall x {:trigger DependsOnOneOf(g, x, waiting + stopped)} :: x in waiting ==>
      DependsOnOneOf(g, x, waiting + stopped)
    requires s in order && Position(order, s) < bound
    ensures Path(g, path) && |path| >= 2 && path[0] == s && path[|path| - 1] in stopped
    decreases bound
  {
    assert DependsOnOneOf(g, s, waiting + stopped);
    var d :| d in g[s] && d in waiting + stopped;
    if d in stopped {
      return [s, d];
    }
    var tail := WaitingLeadsToStopped(g, order, waiting, stopped, d, bound - 1);
    path := [s] + tail;
    assert Path(g, path);
    assert path[|path| - 1] == tail[|tail| - 1];
  }

  lemma PushPath(g: Graph, stack: seq<Text>, s: Text)
    requires s in g
    requires stack != [] ==> Path(g, stack) && s in g[stack[|stack| - 1]]
    ensures Path(g, stack + [s])
  {
  }

  lemma StackCycle(g: Graph, stack: seq<Text>, i: nat)
    requires i < |stack| && Path(g, stack) && stack[i] in g[stack[|stack| - 1]]
    ensures Cycle(g, stack[i..] + [stack[i]])
  {
  }

  lemma FinishStep(g: Graph, finished: seq<Text>, s: Text)
    requires DependenciesFirst(g, finished) && s in g && s !in finished
    requires forall d :: d in g[s] ==> d in finished
    ensures DependenciesFirst(g, finished + [s])
  {
    var order := finished + [s];
    forall i, d | 0 <= i < |order| && d in g[order[i]] ensures d in order[..i] {
      assert order[..i] == finished[..i];
    }
  }

  /** The nested function `visit` with the two sets it shares between calls. The ghost
      fields are the call stack and the order in which visits finished. */
  class CycleCheck {
    const graph: Graph
    var visiting: set<Text>
    var visited: set<Text>
    ghost var stack: seq<Text>
    ghost var finished: seq<Text>
    ghost var cycle: seq<Text>

    ghost predicate Valid()
      reads this
    {
      && Closed(graph)
      && (forall s :: s in visiting <==> s in stack)
      && (forall s :: s in visited <==> s in finished)
      && visiting !! visited
      && visiting <= graph.Keys
      && (stack != [] ==> Path(graph, stack))
      && DependenciesFirst(graph, finished)
    }

    /** The cycle is a final part of the call stack, closed by its first step; all of it is being visited. */
    ghost predicate OnStack()
      reads this
    {
      && (forall s :: s in visiting <==> s in stack)
      && exists i :: 0 <= i < |stack| && cycle == stack[i..] + [stack[i]]
    }

    constructor (g: Graph)
      requires Closed(g)
      ensures Valid() && graph == g && stack == [] && finished == []
    {
      graph := g;
      visiting, visited := {}, {};
      stack, finished, cycle := [], [], [];
    }

    method Visit(s: Text) returns (ok: bool)
      requires Valid() && s in graph
      requires stack != [] ==> s in graph[stack[|stack| - 1]]
      modifies this
      ensures ok ==> Valid() && visiting == old(visiting) && stack == old(stack)
      ensures ok ==> s in visited && old(visited) <= visited
      ensures !ok ==> OnStack() && Cycle(graph, cycle)
      decreases graph.Keys - visiting
    {
      if s in visiting {
        ghost var i :| 0 <= i < |stack| && stack[i] == s;
        cycle := stack[i..] + [s];
        StackCycle(graph, stack, i);
        return false;
      }
      if s in visited {
        return true;
      }
      PushPath(graph, stack, s);
      visiting, stack := visiting + {s}, stack + [s];
      ghost var entered, entry := visiting, stack;
      var dependencies := graph[s];
      for k := 0 to |dependencies|
        invariant Valid() && visiting == entered && stack == entry && old(visited) <= visited
        invariant forall i :: 0 <= i < k ==> dependencies[i] in visited
      {
        ok := Visit(dependencies[k]);
        if !ok {
          return;
        }
      }
      FinishStep(graph, finished, s);
      visiting, stack := visiting - {s}, stack[..|stack| - 1];
      visited, finished := visited + {s}, finished + [s];
      assert stack == old(stack);
      ok := true;
    }
  }

  /** The acceptance test of a dependency graph, visiting the steps in plan order. */
  method CheckDependencies(g: Graph, keys: seq<Text>) returns (ok: bool, ghost evidence: seq<Text>)
    requires Closed(g) && forall s :: s in g <==> s in keys
    ensures ok <==> Acyclic(g)
    ensures ok ==> Topological(g, evidence)
    ensures !ok ==> Cycle(g, evidence)
  {
    var search := new CycleCheck(g);
    for i := 0 to |keys|
      invariant search.Valid() && search.graph == g && search.stack == []
      invariant forall k :: 0 <= k < i ==> keys[k] in search.visited
    {
      ok := search.Visit(keys[i]);
      if !ok {
        evidence := search.cycle;
        return;
      }
    }
    ok, evidence := true, search.finished;
    TopologicalIsAcyclic(g, evidence);
  }

  // ---------------------------------------------------------------- the whole plan

  const MAXIMUM_STEPS := 256

  /** What the registry knows of one participant when a plan is validated. */
  datatype PeerContext = PeerContext(hasManifest: bool, isFresh: bool, available: set<Text>)

  datatype PlanError =
    | TooLarge | BadPlan | TooManySteps | BadStepIds | BadStep(index: nat, fault: StepFault) | DependencyCycle

  datatype StepFault =
    | UnknownParticipant | AbsentOrStale | CapabilityUnavailable
    | BeyondGoalDeadline | DeadlinePassed | UnknownDependencies

  function GraphOf(steps: seq<PlanStep>): (g: Graph)
    ensures forall s :: s in g <==> exists i :: 0 <= i < |steps| && steps[i].stepId == s
  {
    if steps == [] then map[]
    else
      var last := steps[|steps| - 1];
      GraphOf(steps[..|steps| - 1])[last.stepId := last.dependsOn]
  }

  predicate ValidIds(steps: seq<PlanStep>) {
    forall i, j :: 0 <= i < j < |steps| ==> steps[i].stepId != steps[j].stepId
  }

  /** The first check a step fails, in the order of the source. */
  function FaultOf(goal: Goal, known: set<Text>, peers: map<Text, PeerContext>, now: int,
      step: PlanStep): (fault: Option<StepFault>)
    ensures fault.None? <==> StepAdmissible(goal, known, peers, now, step)
  {
    if step.robot !in goal.participants then Some(UnknownParticipant)
    else if step.robot !in peers || !peers[step.robot].hasManifest || !peers[step.robot].isFresh then
      Some(AbsentOrStale)
    else if step.capability !in peers[step.robot].available then Some(CapabilityUnavailable)
    else if step.deadline.Some? && goal.deadline.Some? && step.deadline.value > goal.deadline.value then
      Some(BeyondGoalDeadline)
    else if step.deadline.Some? && now > step.deadline.value then Some(DeadlinePassed)
    else if exists d :: d in step.dependsOn && d !in known then Some(UnknownDependencies)
    else None
  }

  /** The checks in the order in which they are made. */
  const CHECKS: seq<StepFault> :=
    [UnknownParticipant, AbsentOrStale, CapabilityUnavailable, BeyondGoalDeadline, DeadlinePassed, UnknownDependencies]

  /** What each fault means for a step, on its own. */
  predicate HasFault(goal: Goal, known: set<Text>, peers: map<Text, PeerContext>, now: int, step: PlanStep,
      fault: StepFault) {
    match fault
    case UnknownParticipant => step.robot !in goal.participants
    case AbsentOrStale => step.robot in peers ==> !peers[step.robot].hasManifest || !peers[step.robot].isFresh
    case CapabilityUnavailable => step.robot in peers && step.capability !in peers[step.robot].available
    case BeyondGoalDeadline =>
      step.deadline.Some? && goal.deadline.Some? && goal.deadline.value < step.deadline.value
    case DeadlinePassed => step.deadline.Some? && step.deadline.value < now
    case UnknownDependencies => exists d :: d in step.dependsOn && d !in known
  }

  /** The fault named is the first one, in that order, that the step has. */
  lemma NamesFirstFault(goal: Goal, known: set<Text>, peers: map<Text, PeerContext>, now: int, step: PlanStep, k: nat)
    requires k < |CHECKS|
    ensures FaultOf(goal, known, peers, now, step) == Some(CHECKS[k]) <==>
      HasFault(goal, known, peers, now, step, CHECKS[k]) &&
        forall j :: 0 <= j < k ==> !HasFault(goal, known, peers, now, step, CHECKS[j])
  {
    assert CHECKS[0] == UnknownParticipant && CHECKS[1] == AbsentOrStale && CHECKS[2] == CapabilityUnavailable;
    assert CHECKS[3] == BeyondGoalDeadline && CHECKS[4] == DeadlinePassed && CHECKS[5] == UnknownDependencies;
    var first := FaultOf(goal, known, peers, now, step);
    forall j | 0 <= j < |CHECKS| && first == Some(CHECKS[j])
      ensures HasFault(goal, known, peers, now, step, CHECKS[j])
      ensures forall i :: 0 <= i < j ==> !HasFault(goal, known, peers, now, step, CHECKS[i])
    {
    }
    if first.None? {
      assert !HasFault(goal, known, peers, now, step, CHECKS[k]);
    } else {
      assert exists j :: 0 <= j < |CHECKS| && CHECKS[j] == first.value;
    }
  }

  predicate StepAdmissible(goal: Goal, known: set<Text>, peers: map<Text, PeerContext>, now: int, step: PlanStep) {
    && step.robot in goal.participants
    && step.robot in peers && peers[step.robot].hasManifest && peers[step.robot].isFresh
    && step.capability in peers[step.robot].available
    && (step.deadline.Some? && goal.deadline.Some? ==> step.deadline.value <= goal.deadline.value)
    && (step.deadline.Some? ==> now <= step.deadline.value)
    && (forall d :: d in step.dependsOn ==> d in known)
  }

  ghost predicate Ordered(g: Graph) {
    exists order :: Topological(g, order)
  }

  /** What acceptance means, without reference to how it is decided. */
  ghost predicate PlanValid(goal: Goal, plan: Plan, peers: map<Text, PeerContext>, now: int) {
    var g := GraphOf(plan.steps);
    && plan.goalId == goal.goalId && plan.revision >= 1
    && 0 < |plan.steps| <= MAXIMUM_STEPS
    && ValidIds(plan.steps)
    && (forall i :: 0 <= i < |plan.steps| ==> StepAdmissible(goal, g.Keys, peers, now, plan.steps[i]))
    && Ordered(g)
  }

  lemma {:induction false} GraphEdges(steps: seq<PlanStep>, i: nat)
    requires i < |steps| && ValidIds(steps)
    ensures GraphOf(steps)[steps[i].stepId] == steps[i].dependsOn
  {
    if i < |steps| - 1 {
      GraphEdges(steps[..|steps| - 1], i);
    }
  }

  lemma AdmissibleIsClosed(goal: Goal, steps: seq<PlanStep>, peers: map<Text, PeerContext>, now: int)
    requires ValidIds(steps)
    requires forall i :: 0 <= i < |steps| ==> StepAdmissible(goal, GraphOf(steps).Keys, peers, now, steps[i])
    ensures Closed(GraphOf(steps))
  {
    forall i | 0 <= i < |steps| ensures GraphOf(steps)[steps[i].stepId] == steps[i].dependsOn {
      GraphEdges(steps, i);
    }
  }

  /** Step `i` is the first that fails a check, and `fault` is the first check it fails. */
  predicate FirstFault(goal: Goal, steps: seq<PlanStep>, peers: map<Text, PeerContext>, now: int, i: nat,
      fault: StepFault) {
    && i < |steps| && FaultOf(goal, GraphOf(steps).Keys, peers, now, steps[i]) == Some(fault)
    && forall k :: 0 <= k < i ==> StepAdmissible(goal, GraphOf(steps).Keys, peers, now, steps[k])
  }

  /** The loop over the steps that checks each one and fills the dependency graph. */
  method CollectGraph(goal: Goal, steps: seq<PlanStep>, peers: map<Text, PeerContext>, now: int)
    returns (bad: Option<PlanError>, graph: Graph, keys: seq<Text>)
    requires ValidIds(steps)
    ensures bad.None? <==> forall i :: 0 <= i < |steps| ==>
      StepAdmissible(goal, GraphOf(steps).Keys, peers, now, steps[i])
    ensures bad.Some? ==> bad.value.BadStep? && FirstFault(goal, steps, peers, now, bad.value.index, bad.value.fault)
    ensures bad.None? ==> graph == GraphOf(steps) && forall s :: s in graph <==> s in keys
  {
    var known := set step | step in steps :: step.stepId;
    assert known == GraphOf(steps).Keys;
    graph, keys := map[], [];
    for i := 0 to |steps|
      invariant graph == GraphOf(steps[..i])
      invariant forall s :: s in graph <==> s in keys
      invariant forall k :: 0 <= k < i ==> StepAdmissible(goal, known, peers, now, steps[k])
    {
      var step := steps[i];
      var fault := FaultOf(goal, known, peers, now, step);
      if fault.Some? {
        return Some(BadStep(i, fault.value)), graph, keys;
      }
      assert steps[..i + 1][..i] == steps[..i];
      graph, keys := graph[step.stepId := step.dependsOn], keys + [step.stepId];
    }
    assert steps[..|steps|] == steps;
    bad := None;
  }

  predicate NonEmptyIds(steps: seq<PlanStep>, empty: Text) {
    forall i :: 0 <= i < |steps| ==> steps[i].stepId != empty
  }

  /** `fits` is the size check; `empty` is the empty identifier. */
  method ValidatePlan(fits: bool, empty: Text, goal: Goal, plan: Plan, peers: map<Text, PeerContext>, now: int)
    returns (r: Result<(), PlanError>)
    ensures r.Ok? <==> fits && NonEmptyIds(plan.steps, empty) && PlanValid(goal, plan, peers, now)
    ensures r == Err(DependencyCycle) ==> exists p :: Cycle(GraphOf(plan.steps), p)
    ensures r.Err? && r.error.BadStep? ==> FirstFault(goal, plan.steps, peers, now, r.error.index, r.error.fault)
    ensures r.Ok? ==> Acyclic(GraphOf(plan.steps))
    ensures r == Err(TooLarge) <==> !fits
    ensures r == Err(BadPlan) <==> fits && !(plan.goalId == goal.goalId && plan.revision >= 1 && plan.steps != [])
    ensures r == Err(TooManySteps) <==>
      fits && plan.goalId == goal.goalId && plan.revision >= 1 && |plan.steps| > 256
    ensures r == Err(BadStepIds) <==>
      && fits && plan.goalId == goal.goalId && plan.revision >= 1 && 0 < |plan.steps| <= 256
      && (exists i :: 0 <= i < |plan.steps| && (plan.steps[i].stepId == empty || exists j ::
           0 <= j < i && plan.steps[j].stepId == plan.steps[i].stepId))
  {
    if !fits {
      return Err(TooLarge);
    }
    if plan.goalId != goal.goalId || plan.revision < 1 || plan.steps == [] {
      return Err(BadPlan);
    }
    if |plan.steps| > MAXIMUM_STEPS {
      return Err(TooManySteps);
    }
    if !NonEmptyIds(plan.steps, empty) || !ValidIds(plan.steps) {
      return Err(BadStepIds);
    }
    var bad, graph, keys := CollectGraph(goal, plan.steps, peers, now);
    if bad.Some? {
      return Err(bad.value);
    }
    AdmissibleIsClosed(goal, plan.steps, peers, now);
    var acyclic, evidence := CheckDependencies(graph, keys);
    if !acyclic {
      forall order | Topological(graph, order) ensures false {
        TopologicalIsAcyclic(graph, order);
      }
      return Err(DependencyCycle);
    }
    return Ok(());
  }
}
