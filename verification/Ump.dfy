/** The vocabulary shared by the coordinator, the robots and the transport. */
module Ump {

  /** An identifier or a text that the program only ever compares. */
  type Text(==, !new)

  datatype Option<+T> = None | Some(value: T)

  datatype Result<+T, +E> = Ok(value: T) | Err(error: E)

  predicate Distinct<T(==)>(s: seq<T>) {
    forall i, j :: 0 <= i < j < |s| ==> s[i] != s[j]
  }

  datatype AssignmentStatus = Accepted | Succeeded | Failed | Rejected | Cancelled | Unknown

  /** `details` stands for the fields that no decision in this model reads. */
  datatype PlanStep = PlanStep(
    stepId: Text,
    robot: Text,
    capability: Text,
    dependsOn: seq<Text>,
    resources: seq<Text>,
    notBefore: Option<int>,
    deadline: Option<int>,
    details: Text)

  datatype Plan = Plan(planId: Text, goalId: Text, steps: seq<PlanStep>, revision: int, supersedes: Option<Text>)

  datatype Goal = Goal(goalId: Text, participants: seq<Text>, deadline: Option<int>)

  /** Its SHA-256 fingerprint is taken to be injective, so an assignment is its own fingerprint. */
  datatype Assignment = Assignment(id: Text, goalId: Text, planId: Text, step: PlanStep, lease: Option<Text>)

  /** An outcome can be constructed only with a terminal status, and its `succeeded`
      flag only in agreement with that status, so the flag is not stored here. */
  type TerminalStatus = s: AssignmentStatus | s != Accepted witness Succeeded

  /** The JSON text of a non-empty outputs object. */
  type Outputs = Option<Text>

  datatype Outcome = Outcome(
    assignmentId: Text,
    robot: Text,
    description: Text,
    status: TerminalStatus,
    outputs: Outputs := None)

  /** A robot reports these only after recording them; Rejected and Unknown it may also report unrecorded. */
  predicate Definite(s: AssignmentStatus) {
    s == Succeeded || s == Failed || s == Cancelled
  }
}
