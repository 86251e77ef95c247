/** The CRDT plan store: an op log, views derived from it, and the merge with a peer's log. */
module AutomergeStore {
  import opened Collections
  import opened PlanOps
  import opened StableSort

  /** Union of the two logs by op id, stably sorted by lamport: the log after a merge. */
  function MergeLogs(ours: seq<PlanOp>, theirs: seq<PlanOp>): seq<PlanOp>
  {
    Sort(ours + Unknown(Ids(ours), theirs), EarlierLamport)
  }

  /** The log after an append: an id already present makes the append a no-op. */
  function AppendLog(log: seq<PlanOp>, op: PlanOp): seq<PlanOp>
  {
    if op.opId in Ids(log) then log else log + [op]
  }

  lemma WriteOneMore(before: map<string, Note>, done: map<string, string>, key: string, value: string, lamport: int)
    requires key !in done
    ensures
      var notes := WriteNotes(before, done, lamport);
      WriteNotes(before, done[key := value], lamport)
      == if Overwrites(notes, key, lamport) then notes[key := Note(value, lamport)] else notes
  {
  }

  /** The payload loop of an ANNOTATE: the keys are visited in no particular order. */
  method WriteEntries(before: map<string, Note>, entries: map<string, string>, lamport: int)
    returns (notes: map<string, Note>)
    ensures notes == WriteNotes(before, entries, lamport)
  {
    notes := before;
    var todo := entries.Keys;
    ghost var done: map<string, string> := map[];
    while todo != {}
      invariant forall key :: key in entries <==> key in todo || key in done
      invariant forall key :: key in done ==> key !in todo && done[key] == entries[key]
      invariant notes == WriteNotes(before, done, lamport)
      decreases |todo|
    {
      var key :| key in todo;
      WriteOneMore(before, done, key, entries[key], lamport);
      if key !in notes {
        notes := notes[key := Note(entries[key], lamport)];
      } else if lamport > notes[key].lamport {
        notes := notes[key := Note(entries[key], lamport)];
      }
      todo := todo - {key};
      done := done[key := entries[key]];
    }
    assert done == entries;
  }

  class AutomergePlanStore {
    var ops: seq<PlanOp>
    var opIds: set<string>
    var tasks: map<string, TaskRow>
    var edges: map<string, seq<string>>
    var annotations: map<string, map<string, Note>>
    var version: int

    function Views(): Derived
      reads this
    {
      Derived(tasks, edges, annotations)
    }

    /** The id index covers the log and the views are the log's replay in log order. */
    ghost predicate Valid()
      reads this
    {
      opIds == Ids(ops) && Views() == Replay(ops)
    }

    constructor ()
      ensures Valid() && ops == [] && version == 0
    {
      ops, opIds, version := [], {}, 0;
      tasks, edges, annotations := map[], map[], map[];
    }

    method AppendOp(op: PlanOp)
      requires Valid()
      modifies this
      ensures Valid()
      ensures ops == AppendLog(old(ops), op)
      ensures ops == if exists known :: known in old(ops) && known.opId == op.opId then old(ops) else old(ops) + [op]
      ensures version == old(version) + if op.opId in Ids(old(ops)) then 0 else 1
    {
      if op.opId in opIds {
        return;
      }
      ops := ops + [op];
      opIds := opIds + {op.opId};
      version := version + 1;
      assert ops[..|ops| - 1] == old(ops);
      ApplyToState(op);
    }

    method ApplyToState(op: PlanOp)
      modifies this`tasks, this`edges, this`annotations
      ensures Views() == Apply(old(Views()), op)
    {
      match op.body
      case AddTask(taskType) =>
        if op.taskId !in tasks {
          tasks := tasks[op.taskId := TaskRow(op.threadId, taskType, DRAFT, op.lamport)];
        }
      case SetState(state) =>
        if op.taskId !in tasks {
          tasks := tasks[op.taskId := TaskRow(op.threadId, None, state, op.lamport)];
        } else if op.lamport > tasks[op.taskId].lastLamport {
          tasks := tasks[op.taskId := tasks[op.taskId].(state := state, lastLamport := op.lamport)];
        }
      case Link(parent, child) =>
        if parent !in edges {
          edges := edges[parent := []];
        }
        if child !in edges[parent] {
          edges := edges[parent := edges[parent] + [child]];
        }
        assert edges == ApplyEdges(old(edges), op);
      case Annotate(entries) =>
        if op.taskId !in annotations {
          annotations := annotations[op.taskId := map[]];
        }
        var notes := WriteEntries(annotations[op.taskId], entries, op.lamport);
        annotations := annotations[op.taskId := notes];
        assert annotations == ApplyAnnotations(old(annotations), op);
      case _ =>
    }

    method MergeWithPeer(peerOps: seq<PlanOp>)
      requires Valid()
      modifies this
      ensures Valid()
      ensures ops == MergeLogs(old(ops), peerOps)
      ensures version == old(version) + 1
    {
      var newOps := Unknown(opIds, peerOps);
      ops := ops + newOps;
      for i := 0 to |newOps|
        invariant opIds == old(opIds) + Ids(newOps[..i])
        invariant ops == old(ops) + newOps && version == old(version) && Views() == old(Views())
      {
        assert newOps[..i + 1] == newOps[..i] + [newOps[i]];
        opIds := opIds + {newOps[i].opId};
      }
      assert newOps[..|newOps|] == newOps;
      assert opIds == Ids(ops);
      SortMembers(ops, EarlierLamport);
      ops := Sort(ops, EarlierLamport);
      RebuildStateFromOps();
      version := version + 1;
    }

    method RebuildStateFromOps()
      modifies this`tasks, this`edges, this`annotations
      ensures Views() == Replay(ops)
    {
      tasks, edges, annotations := map[], map[], map[];
      for i := 0 to |ops|
        invariant Views() == Replay(ops[..i])
      {
        assert ops[..i + 1][..i] == ops[..i];
        ApplyToState(ops[i]);
      }
      assert ops[..|ops|] == ops;
    }
  }
}
