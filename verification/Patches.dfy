/** Plan patches as they arrive, and the checks they must pass before they are merged. */
module Patches {
  import opened Collections

  /** One entry of a patch: a dictionary whose fields may be missing. */
  datatype OpData = OpData(opType: Option<string>, taskId: Option<string>, payload: Option<map<string, string>>)

  datatype PlanPatch = PlanPatch(patchId: string, actorId: string, baseLamport: int, ops: seq<OpData>)

  datatype PatchError =
    | MissingPatchId
    | MissingActorId
    | InvalidBaseLamport
    | EmptyOps
    | MissingOpType(index: nat)
    | MissingTaskId(index: nat)
    | InvalidOpType(index: nat)
    | StateWithoutState(index: nat)
    | LinkWithoutEnds(index: nat)

  const OP_TYPES := {"ADD_TASK", "REQUIRES", "PRODUCES", "STATE", "LINK", "ANNOTATE"}

  /** `op_data.get("payload", {})`. */
  function PayloadOf(op: OpData): map<string, string>
  {
    match op.payload
    case Some(p) => p
    case None => map[]
  }

  /** Everything the merge reads is there. */
  predicate ValidOp(op: OpData)
  {
    && op.opType.Some? && op.opType.value in OP_TYPES
    && op.taskId.Some? && op.taskId.value != ""
    && (op.opType.value == "STATE" ==> "state" in PayloadOf(op))
    && (op.opType.value == "LINK" ==> "parent" in PayloadOf(op) && "child" in PayloadOf(op))
  }

  predicate ValidPatch(p: PlanPatch)
  {
    && p.patchId != "" && p.actorId != "" && p.baseLamport >= 0 && p.ops != []
    && forall i :: 0 <= i < |p.ops| ==> ValidOp(p.ops[i])
  }

  /** What an error says of the patch. */
  predicate Faulty(patch: PlanPatch, error: PatchError)
  {
    match error
    case MissingOpType(i) => i < |patch.ops| && (patch.ops[i].opType == None || patch.ops[i].opType == Some(""))
    case MissingTaskId(i) => i < |patch.ops| && (patch.ops[i].taskId == None || patch.ops[i].taskId == Some(""))
    case InvalidOpType(i) => i < |patch.ops| && patch.ops[i].opType.Some? && patch.ops[i].opType.value !in OP_TYPES
    case StateWithoutState(i) => i < |patch.ops| && patch.ops[i].opType == Some("STATE") && "state" !in PayloadOf(patch.ops[i])
    case LinkWithoutEnds(i) =>
      && i < |patch.ops| && patch.ops[i].opType == Some("LINK")
      && ("parent" !in PayloadOf(patch.ops[i]) || "child" !in PayloadOf(patch.ops[i]))
    case _ => true
  }

  /** The error, if any, names the first entry at fault. */
  method ValidatePatch(patch: PlanPatch) returns (error: Option<PatchError>)
    ensures error.None? <==> ValidPatch(patch)
    ensures error == Some(MissingPatchId) <==> patch.patchId == ""
    ensures error == Some(MissingActorId) <==> patch.patchId != "" && patch.actorId == ""
    ensures error == Some(InvalidBaseLamport) <==> patch.patchId != "" && patch.actorId != "" && patch.baseLamport < 0
    ensures error == Some(EmptyOps) <==> patch.patchId != "" && patch.actorId != "" && patch.baseLamport >= 0 && patch.ops == []
    ensures error.Some? ==> Faulty(patch, error.value)
    ensures error.None? ==>
              forall i :: 0 <= i < |patch.ops| ==>
                && !Faulty(patch, MissingOpType(i)) && !Faulty(patch, MissingTaskId(i)) && !Faulty(patch, InvalidOpType(i))
                && !Faulty(patch, StateWithoutState(i)) && !Faulty(patch, LinkWithoutEnds(i))
    ensures
      error.Some? && patch.patchId != "" && patch.actorId != "" && patch.baseLamport >= 0 && patch.ops != [] ==>
        exists i :: && 0 <= i < |patch.ops|
                    && error.value in {MissingOpType(i), MissingTaskId(i), InvalidOpType(i),
                                       StateWithoutState(i), LinkWithoutEnds(i)}
                    && !ValidOp(patch.ops[i]) && forall j :: 0 <= j < i ==> ValidOp(patch.ops[j])
  {
    if patch.patchId == "" { return Some(MissingPatchId); }
    if patch.actorId == "" { return Some(MissingActorId); }
    if patch.baseLamport < 0 { return Some(InvalidBaseLamport); }
    if patch.ops == [] { return Some(EmptyOps); }
    for i := 0 to |patch.ops|
      invariant forall j :: 0 <= j < i ==> ValidOp(patch.ops[j])
    {
      var op := patch.ops[i];
      if op.opType.None? || op.opType.value == "" { return Some(MissingOpType(i)); }
      if op.taskId.None? || op.taskId.value == "" { return Some(MissingTaskId(i)); }
      if op.opType.value !in OP_TYPES { return Some(InvalidOpType(i)); }
      if op.opType.value == "STATE" {
        if "state" !in PayloadOf(op) { return Some(StateWithoutState(i)); }
      } else if op.opType.value == "LINK" {
        if "parent" !in PayloadOf(op) || "child" !in PayloadOf(op) { return Some(LinkWithoutEnds(i)); }
      }
    }
    error := None;
  }

  // ---------- what the merge itself needs ----------

  /** The fields the merge looks up without a default. */
  predicate Readable(op: OpData)
  {
    && op.opType.Some? && op.taskId.Some?
    && (op.opType.value == "LINK" ==> "parent" in PayloadOf(op) && "child" in PayloadOf(op))
  }

  predicate Mergeable(op: OpData)
  {
    Readable(op) && op.opType.value in OP_TYPES
  }

  predicate ReadablePatch(p: PlanPatch)
  {
    forall i :: 0 <= i < |p.ops| ==> Readable(p.ops[i])
  }

  predicate MergeableUpTo(p: PlanPatch, n: nat)
    requires n <= |p.ops|
  {
    forall i :: 0 <= i < n ==> Mergeable(p.ops[i])
  }

  predicate MergeablePatch(p: PlanPatch)
  {
    MergeableUpTo(p, |p.ops|)
  }

  /** A patch that passes validation can be merged. */
  lemma ValidIsMergeable(p: PlanPatch)
    requires ValidPatch(p)
    ensures MergeablePatch(p)
  {
    assert forall i :: 0 <= i < |p.ops| && ValidOp(p.ops[i]) ==> Mergeable(p.ops[i]);
  }

  /** An operation's type together with its payload: the merge does not ask for the state of a STATE. */
  datatype PatchBody =
    | AddTask(taskType: Option<string>)
    | SetState(given: Option<string>)
    | Link(parent: string, child: string)
    | Annotate(entries: map<string, string>)
    | Requires
    | Produces

  function Field(payload: map<string, string>, key: string): Option<string>
  {
    if key in payload then Some(payload[key]) else None
  }

  /** The typed form of a mergeable entry's type and payload. */
  function BodyOf(op: OpData): PatchBody
    requires Mergeable(op)
  {
    var payload := PayloadOf(op);
    match op.opType.value
    case "ADD_TASK" => AddTask(Field(payload, "type"))
    case "STATE" => SetState(Field(payload, "state"))
    case "LINK" => Link(payload["parent"], payload["child"])
    case "ANNOTATE" => Annotate(payload)
    case "REQUIRES" => Requires
    case _ => Produces
  }
}
