/** The SQL-backed plan store, and how far its tables agree with the CRDT store's views. */
module SqlPlanStore {
  import opened Collections
  import opened PlanOps
  import opened PlanMeaning

  datatype Tables = Tables(tasks: map<string, TaskRow>, edges: set<(string, string)>)

  datatype StoreError = DuplicateOpId

  function InsertOrIgnore(tasks: map<string, TaskRow>, taskId: string, row: TaskRow): map<string, TaskRow>
  {
    if taskId in tasks then tasks else tasks[taskId := row]
  }

  /** UPDATE tasks SET state, last_lamport WHERE task_id = ? AND last_lamport < ?. */
  function AdvanceState(tasks: map<string, TaskRow>, taskId: string, state: string, lamport: int): map<string, TaskRow>
  {
    if taskId in tasks && tasks[taskId].lastLamport < lamport
    then tasks[taskId := tasks[taskId].(state := state, lastLamport := lamport)]
    else tasks
  }

  function ApplySql(db: Tables, op: PlanOp): Tables
  {
    match op.body
    case AddTask(taskType) =>
      db.(tasks := InsertOrIgnore(db.tasks, op.taskId, TaskRow(op.threadId, taskType, DRAFT, op.lamport)))
    case SetState(state) =>
      var inserted := InsertOrIgnore(db.tasks, op.taskId, TaskRow(op.threadId, None, DRAFT, 0));
      db.(tasks := AdvanceState(inserted, op.taskId, state, op.lamport))
    case Link(parent, child) => db.(edges := db.edges + {(parent, child)})
    case _ => db
  }

  function ReplaySql(ops: seq<PlanOp>): Tables
  {
    if ops == [] then Tables(map[], {}) else ApplySql(ReplaySql(ops[..|ops| - 1]), ops[|ops| - 1])
  }

  class PlanStore {
    var ops: seq<PlanOp>
    var tasks: map<string, TaskRow>
    var edges: set<(string, string)>

    ghost predicate Valid()
      reads this
    {
      UniqueIds(ops) && Tables(tasks, edges) == ReplaySql(ops)
    }

    constructor ()
      ensures Valid() && ops == []
    {
      ops, tasks, edges := [], map[], {};
    }

    /** One transaction: the primary key on op_id rejects a repeated operation as a whole. */
    method AppendOp(op: PlanOp) returns (r: Result<(), StoreError>)
      requires Valid()
      modifies this
      ensures Valid()
      ensures r == if op.opId in Ids(old(ops)) then Err(DuplicateOpId) else Ok(())
      ensures ops == if r.Ok? then old(ops) + [op] else old(ops)
    {
      if exists i :: 0 <= i < |ops| && ops[i].opId == op.opId {
        return Err(DuplicateOpId);
      }
      ops := ops + [op];
      assert ops[..|ops| - 1] == old(ops);
      ApplyOp(op);
      r := Ok(());
    }

    method ApplyOp(op: PlanOp)
      modifies this`tasks, this`edges
      ensures Tables(tasks, edges) == ApplySql(old(Tables(tasks, edges)), op)
    {
      match op.body
      case AddTask(taskType) =>
        if op.taskId !in tasks {
          tasks := tasks[op.taskId := TaskRow(op.threadId, taskType, DRAFT, op.lamport)];
        }
      case SetState(state) =>
        if op.taskId !in tasks {
          tasks := tasks[op.taskId := TaskRow(op.threadId, None, DRAFT, 0)];
        }
        if tasks[op.taskId].lastLamport < op.lamport {
          tasks := tasks[op.taskId := tasks[op.taskId].(state := state, lastLamport := op.lamport)];
        }
      case Link(parent, child) =>
        edges := edges + {(parent, child)};
      case _ =>
    }
  }

  // ---------- refinement ----------

  /** The edge table that the CRDT store's adjacency lists stand for. */
  ghost predicate SameEdges(db: Tables, views: Derived)
  {
    forall parent, child :: (parent, child) in db.edges <==> child in ChildrenOf(views.edges, parent)
  }

  ghost predicate Agree(ops: seq<PlanOp>)
  {
    ReplaySql(ops).tasks == Replay(ops).tasks && SameEdges(ReplaySql(ops), Replay(ops))
  }

  /**
   * The STATE that creates a row and whose lamport does not beat the 0 the SQL store inserts,
   * so that the SQL row stays (DRAFT, 0) where the CRDT row takes the operation's values.
   */
  predicate Swallowed(before: seq<PlanOp>, op: PlanOp)
  {
    && IsStateOp(op, op.taskId) && FirstRowOp(before, op.taskId).None?
    && op.lamport <= 0 && !(op.lamport == 0 && op.body.state == DRAFT)
  }

  lemma {:induction false} EdgesAgree(ops: seq<PlanOp>)
    ensures SameEdges(ReplaySql(ops), Replay(ops))
  {
    if ops != [] {
      var before, op := ops[..|ops| - 1], ops[|ops| - 1];
      EdgesAgree(before);
      assert Replay(ops).edges == ApplyEdges(Replay(before).edges, op);
      forall parent, child
        ensures child in ChildrenOf(Replay(ops).edges, parent)
                <==> child in ChildrenOf(Replay(before).edges, parent) || op.body == Link(parent, child)
      {
      }
    }
  }

  /** One operation on equal task tables: they stay equal exactly when it is not swallowed. */
  lemma StepAgreesIff(before: seq<PlanOp>, op: PlanOp)
    requires ReplaySql(before).tasks == Replay(before).tasks
    ensures ReplaySql(before + [op]).tasks == Replay(before + [op]).tasks <==> !Swallowed(before, op)
  {
    var ops := before + [op];
    assert ops[..|ops| - 1] == before;
    RowsMean(before, op.taskId);
    TablesStepIff(ReplaySql(before), Replay(before).tasks, op);
  }

  lemma TablesStepIff(db: Tables, tasks: map<string, TaskRow>, op: PlanOp)
    requires db.tasks == tasks
    ensures ApplySql(db, op).tasks == ApplyTasks(tasks, op)
            <==> !(op.body.SetState? && op.taskId !in tasks && op.lamport <= 0 && !(op.lamport == 0 && op.body.state == DRAFT))
  {
    var crdt, sql := ApplyTasks(tasks, op), ApplySql(db, op).tasks;
    if op.body.SetState? {
      assert crdt - {op.taskId} == sql - {op.taskId};
      assert crdt[op.taskId] == sql[op.taskId] ==> crdt == sql;
    }
  }

  /** The stores agree after each prefix of the log. */
  ghost predicate AlwaysAgree(ops: seq<PlanOp>)
  {
    forall n :: 0 <= n <= |ops| ==> Agree(ops[..n])
  }

  ghost predicate NothingSwallowed(ops: seq<PlanOp>)
  {
    forall i :: 0 <= i < |ops| ==> !Swallowed(ops[..i], ops[i])
  }

  lemma AlwaysAgreeStep(before: seq<PlanOp>, op: PlanOp)
    ensures AlwaysAgree(before + [op]) <==> AlwaysAgree(before) && Agree(before + [op])
  {
    var ops := before + [op];
    assert forall n :: 0 <= n <= |before| ==> ops[..n] == before[..n];
    assert ops[..|ops|] == ops;
    if AlwaysAgree(before) && Agree(ops) {
      forall n | 0 <= n <= |ops| ensures Agree(ops[..n]) {
        assert n <= |before| ==> Agree(before[..n]);
      }
    }
    if AlwaysAgree(ops) {
      forall n | 0 <= n <= |before| ensures Agree(before[..n]) {
        assert Agree(ops[..n]);
      }
      assert Agree(ops[..|ops|]);
    }
  }

  lemma NothingSwallowedStep(before: seq<PlanOp>, op: PlanOp)
    ensures NothingSwallowed(before + [op]) <==> NothingSwallowed(before) && !Swallowed(before, op)
  {
    var ops := before + [op];
    assert forall i :: 0 <= i < |before| ==> ops[..i] == before[..i] && ops[i] == before[i];
    assert ops[..|before|] == before && ops[|before|] == op;
    if NothingSwallowed(ops) {
      forall i | 0 <= i < |before| ensures !Swallowed(before[..i], before[i]) {
        assert !Swallowed(ops[..i], ops[i]);
      }
    }
  }

  /** The stores agree after every prefix of a log exactly when no operation is swallowed. */
  lemma {:induction false} StoresAgreeIff(ops: seq<PlanOp>)
    ensures AlwaysAgree(ops) <==> NothingSwallowed(ops)
  {
    EdgesAgree(ops);
    if ops == [] {
      assert ops[..0] == [];
    } else {
      var before, op := ops[..|ops| - 1], ops[|ops| - 1];
      assert ops == before + [op] && before[..|before|] == before;
      StoresAgreeIff(before);
      AlwaysAgreeStep(before, op);
      NothingSwallowedStep(before, op);
      if AlwaysAgree(before) {
        StepAgreesIff(before, op);
      }
    }
  }

  /** A first STATE at lamport 0 shows in one store and not in the other. */
  lemma StateAtZeroIsLost(t: string, state: string)
    requires state != DRAFT
    ensures
      var log := [PlanOp("a", "", 0, "", t, SetState(state), 0)];
      && t in Replay(log).tasks && Replay(log).tasks[t].state == state
      && t in ReplaySql(log).tasks && ReplaySql(log).tasks[t].state == DRAFT
  {
    var op := PlanOp("a", "", 0, "", t, SetState(state), 0);
    assert [op][..0] == [];
    assert Replay([op]) == Apply(EMPTY, op) && ReplaySql([op]) == ApplySql(Tables(map[], {}), op);
  }

  /** With positive lamports the two implementations are one: same rows, same edges, always. */
  lemma PositiveLamportsAgree(ops: seq<PlanOp>)
    requires forall op :: op in ops ==> op.lamport >= 1
    ensures Agree(ops)
  {
    StoresAgreeIff(ops);
    forall i | 0 <= i < |ops| ensures !Swallowed(ops[..i], ops[i]) {
      assert ops[i] in ops;
    }
    assert ops[..|ops|] == ops;
  }

  /** In both stores a row is never removed and its last_lamport never decreases. */
  lemma LastLamportMonotone(ops: seq<PlanOp>, op: PlanOp, t: string)
    ensures t in Replay(ops).tasks ==>
              && t in Replay(ops + [op]).tasks
              && Replay(ops).tasks[t].lastLamport <= Replay(ops + [op]).tasks[t].lastLamport
    ensures t in ReplaySql(ops).tasks ==>
              && t in ReplaySql(ops + [op]).tasks
              && ReplaySql(ops).tasks[t].lastLamport <= ReplaySql(ops + [op]).tasks[t].lastLamport
  {
    assert (ops + [op])[..|ops|] == ops;
    assert Replay(ops + [op]).tasks == ApplyTasks(Replay(ops).tasks, op);
  }
}
