/** Plan operations and what replaying them means: the op log is the only input of the derived views. */
module PlanOps {
  import opened Collections

  /** An operation's type together with the payload fields that type reads. */
  datatype OpBody =
    | AddTask(taskType: Option<string>)
    | SetState(state: string)
    | Link(parent: string, child: string)
    | Annotate(entries: map<string, string>)
    | Requires
    | Produces

  datatype PlanOp = PlanOp(
    opId: string,
    threadId: string,
    lamport: int,
    actorId: string,
    taskId: string,
    body: OpBody,
    timestampNs: int)

  const DRAFT := "DRAFT"

  datatype TaskRow = TaskRow(threadId: string, taskType: Option<string>, state: string, lastLamport: int)

  datatype Note = Note(value: string, lamport: int)

  /** The views a store derives from its log. */
  datatype Derived = Derived(
    tasks: map<string, TaskRow>,
    edges: map<string, seq<string>>,
    annotations: map<string, map<string, Note>>)

  const EMPTY := Derived(map[], map[], map[])

  function ApplyTasks(tasks: map<string, TaskRow>, op: PlanOp): map<string, TaskRow>
  {
    match op.body
    case AddTask(taskType) =>
      if op.taskId in tasks then tasks
      else tasks[op.taskId := TaskRow(op.threadId, taskType, DRAFT, op.lamport)]
    case SetState(state) =>
      if op.taskId !in tasks then
        tasks[op.taskId := TaskRow(op.threadId, None, state, op.lamport)]
      else if op.lamport > tasks[op.taskId].lastLamport then
        tasks[op.taskId := tasks[op.taskId].(state := state, lastLamport := op.lamport)]
      else tasks
    case _ => tasks
  }

  function ChildrenOf(edges: map<string, seq<string>>, parent: string): seq<string>
  {
    if parent in edges then edges[parent] else []
  }

  function ApplyEdges(edges: map<string, seq<string>>, op: PlanOp): map<string, seq<string>>
  {
    match op.body
    case Link(parent, child) =>
      var children := ChildrenOf(edges, parent);
      edges[parent := if child in children then children else children + [child]]
    case _ => edges
  }

  function NotesOf(annotations: map<string, map<string, Note>>, taskId: string): map<string, Note>
  {
    if taskId in annotations then annotations[taskId] else map[]
  }

  /** Does a write with this lamport replace what `notes` holds under `key`? */
  predicate Overwrites(notes: map<string, Note>, key: string, lamport: int)
  {
    key !in notes || lamport > notes[key].lamport
  }

  function WriteNotes(notes: map<string, Note>, entries: map<string, string>, lamport: int): map<string, Note>
  {
    notes + map key | key in entries && Overwrites(notes, key, lamport) :: Note(entries[key], lamport)
  }

  function ApplyAnnotations(annotations: map<string, map<string, Note>>, op: PlanOp): map<string, map<string, Note>>
  {
    match op.body
    case Annotate(entries) =>
      annotations[op.taskId := WriteNotes(NotesOf(annotations, op.taskId), entries, op.lamport)]
    case _ => annotations
  }

  /** One operation applied to all views. */
  function Apply(d: Derived, op: PlanOp): Derived
  {
    Derived(ApplyTasks(d.tasks, op), ApplyEdges(d.edges, op), ApplyAnnotations(d.annotations, op))
  }

  /** A whole log, applied in order to empty views. */
  function Replay(ops: seq<PlanOp>): Derived
  {
    if ops == [] then EMPTY else Apply(Replay(ops[..|ops| - 1]), ops[|ops| - 1])
  }

  function Ids(ops: seq<PlanOp>): set<string>
  {
    set op | op in ops :: op.opId
  }

  ghost predicate UniqueIds(ops: seq<PlanOp>)
  {
    forall i, j :: 0 <= i < j < |ops| ==> ops[i].opId != ops[j].opId
  }

  /** The operations of `ops` whose ids are not in `known`, in order. */
  function Unknown(known: set<string>, ops: seq<PlanOp>): seq<PlanOp>
  {
    if ops == [] then []
    else
      var op := ops[|ops| - 1];
      Unknown(known, ops[..|ops| - 1]) + (if op.opId in known then [] else [op])
  }

  predicate EarlierLamport(a: PlanOp, b: PlanOp)
  {
    a.lamport < b.lamport
  }
}
