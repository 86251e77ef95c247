/** What the replayed views say about the operations in the log. */
module PlanMeaning {
  import opened Collections
  import opened PlanOps
  import opened StableSort
  import opened AutomergeStore
  import opened PlanConvergence

  /** Operations that can create the row of task `t`. */
  predicate IsRowOp(op: PlanOp, t: string)
  {
    op.taskId == t && (op.body.AddTask? || op.body.SetState?)
  }

  predicate IsStateOp(op: PlanOp, t: string)
  {
    op.taskId == t && op.body.SetState?
  }

  function TypeGiven(op: PlanOp): Option<string>
  {
    if op.body.AddTask? then op.body.taskType else None
  }

  function StateGiven(op: PlanOp): string
  {
    if op.body.SetState? then op.body.state else DRAFT
  }

  function FirstRowOp(ops: seq<PlanOp>, t: string): Option<PlanOp>
  {
    if ops == [] then None
    else
      var earlier := FirstRowOp(ops[..|ops| - 1], t);
      if earlier.None? && IsRowOp(ops[|ops| - 1], t) then Some(ops[|ops| - 1]) else earlier
  }

  /** `top` is what `row` shows: a STATE operation, or the ADD_TASK that created the row. */
  ghost predicate Shows(ops: seq<PlanOp>, t: string, row: TaskRow, top: PlanOp)
  {
    && top in ops && IsRowOp(top, t)
    && (top.body.SetState? || Some(top) == FirstRowOp(ops, t))
    && row.lastLamport == top.lamport && row.state == StateGiven(top)
  }

  /** The row of `t`: identity from the operation that came first, state from the highest lamport. */
  ghost predicate RowMeaning(ops: seq<PlanOp>, t: string, row: TaskRow)
  {
    && FirstRowOp(ops, t).Some?
    && var first := FirstRowOp(ops, t).value;
    && row.threadId == first.threadId && row.taskType == TypeGiven(first)
    && first.lamport <= row.lastLamport
    && (forall op :: op in ops && IsStateOp(op, t) ==> op.lamport <= row.lastLamport)
    && (exists top :: Shows(ops, t, row, top))
  }

  lemma {:induction false} FirstRowOpExists(ops: seq<PlanOp>, t: string)
    ensures FirstRowOp(ops, t).Some? <==> exists op :: op in ops && IsRowOp(op, t)
    ensures FirstRowOp(ops, t).Some? ==>
              FirstRowOp(ops, t).value in ops && IsRowOp(FirstRowOp(ops, t).value, t)
  {
    if ops != [] {
      FirstRowOpExists(ops[..|ops| - 1], t);
      assert ops == ops[..|ops| - 1] + [ops[|ops| - 1]];
    }
  }

  /** Every log, in any order: a task exists exactly when some ADD_TASK or STATE names it. */
  lemma {:induction false} RowsMean(ops: seq<PlanOp>, t: string)
    ensures t in Replay(ops).tasks <==> FirstRowOp(ops, t).Some?
    ensures t in Replay(ops).tasks ==> RowMeaning(ops, t, Replay(ops).tasks[t])
  {
    if ops != [] {
      var before, op := ops[..|ops| - 1], ops[|ops| - 1];
      assert ops == before + [op];
      RowsMean(before, t);
      var tasks, tasks' := Replay(before).tasks, Replay(ops).tasks;
      assert tasks' == ApplyTasks(tasks, op);
      if t in tasks {
        var top :| Shows(before, t, tasks[t], top);
        assert Shows(ops, t, tasks'[t], if tasks'[t] == tasks[t] then top else op);
      } else if IsRowOp(op, t) {
        FirstRowOpExists(before, t);
        assert Shows(ops, t, tasks'[t], op);
      }
    }
  }

  /** `t` is in state `state` because that is what its highest-lamport STATE operation says. */
  ghost predicate LatestState(ops: seq<PlanOp>, t: string, state: string)
  {
    exists op :: op in ops && IsStateOp(op, t) && op.body.state == state
      && forall other :: other in ops && IsStateOp(other, t) ==> other.lamport <= op.lamport
  }

  ghost predicate Untouched(ops: seq<PlanOp>, t: string)
  {
    forall op :: op in ops ==> !IsStateOp(op, t)
  }

  lemma {:induction false} FirstIsOldest(ops: seq<PlanOp>, t: string, op: PlanOp)
    requires Sorted(ops, EarlierLamport) && op in ops && IsRowOp(op, t)
    ensures FirstRowOp(ops, t).Some? && FirstRowOp(ops, t).value.lamport <= op.lamport
  {
    var before, last := ops[..|ops| - 1], ops[|ops| - 1];
    assert ops == before + [last];
    FirstRowOpExists(before, t);
    if op in before {
      FirstIsOldest(before, t, op);
    } else if FirstRowOp(before, t).Some? {
      var first := FirstRowOp(before, t).value;
      var i :| 0 <= i < |before| && before[i] == first;
      assert ops[i] == first;
    }
  }

  /** In lamport order a task's state is its highest-lamport STATE, or DRAFT if it has none. */
  lemma SortedRowState(ops: seq<PlanOp>, t: string)
    requires Sorted(ops, EarlierLamport) && DistinctLamports(ops) && t in Replay(ops).tasks
    ensures
      var row := Replay(ops).tasks[t];
      if Untouched(ops, t) then row.state == DRAFT else LatestState(ops, t, row.state)
  {
    RowsMean(ops, t);
    var row, first := Replay(ops).tasks[t], FirstRowOp(ops, t).value;
    FirstRowOpExists(ops, t);
    var top :| Shows(ops, t, row, top);
    if !Untouched(ops, t) {
      var op :| op in ops && IsStateOp(op, t);
      FirstIsOldest(ops, t, op);
      assert !top.body.SetState? ==> op.lamport == first.lamport;
      assert IsStateOp(top, t);
    }
  }

  // ---------- edges ----------

  ghost predicate Linked(ops: seq<PlanOp>, parent: string, child: string)
  {
    exists op :: op in ops && op.body == Link(parent, child)
  }

  /** Every log: the children of `parent` are exactly the linked ones, each once. */
  lemma {:induction false} EdgesMean(ops: seq<PlanOp>, parent: string)
    ensures NoRepeats(ChildrenOf(Replay(ops).edges, parent))
    ensures forall child :: child in ChildrenOf(Replay(ops).edges, parent) <==> Linked(ops, parent, child)
  {
    if ops != [] {
      var before, op := ops[..|ops| - 1], ops[|ops| - 1];
      assert ops == before + [op];
      EdgesMean(before, parent);
      forall child ensures Linked(ops, parent, child) <==> Linked(before, parent, child) || op.body == Link(parent, child) {
        if Linked(before, parent, child) {
          var w :| w in before && w.body == Link(parent, child);
          assert w in ops;
        }
      }
      var children := ChildrenOf(Replay(before).edges, parent);
      assert Replay(ops).edges == ApplyEdges(Replay(before).edges, op);
      assert ChildrenOf(Replay(ops).edges, parent)
             == if op.body.Link? && op.body.parent == parent && op.body.child !in children
                then children + [op.body.child] else children;
    }
  }

  // ---------- annotations ----------

  /** `op` writes annotation `key` of task `t`. */
  predicate WritesNote(op: PlanOp, t: string, key: string)
  {
    op.taskId == t && op.body.Annotate? && key in op.body.entries
  }

  /** `note` is the write with the highest lamport. */
  ghost predicate LatestNote(ops: seq<PlanOp>, t: string, key: string, note: Note)
  {
    && (exists op :: op in ops && WritesNote(op, t, key) && note == Note(op.body.entries[key], op.lamport))
    && (forall op :: op in ops && WritesNote(op, t, key) ==> op.lamport <= note.lamport)
  }

  /** Every log, in any order: each annotation key holds its highest-lamport write. */
  lemma {:induction false} NotesMean(ops: seq<PlanOp>, t: string, key: string)
    ensures key in NotesOf(Replay(ops).annotations, t) <==> exists op :: op in ops && WritesNote(op, t, key)
    ensures key in NotesOf(Replay(ops).annotations, t) ==>
              LatestNote(ops, t, key, NotesOf(Replay(ops).annotations, t)[key])
  {
    if ops != [] {
      var before, op := ops[..|ops| - 1], ops[|ops| - 1];
      assert ops == before + [op];
      NotesMean(before, t, key);
      var notes, notes' := NotesOf(Replay(before).annotations, t), NotesOf(Replay(ops).annotations, t);
      assert Replay(ops).annotations == ApplyAnnotations(Replay(before).annotations, op);
      if WritesNote(op, t, key) {
        assert notes' == WriteNotes(notes, op.body.entries, op.lamport);
        assert op in ops;
        if Overwrites(notes, key, op.lamport) {
          assert notes'[key] == Note(op.body.entries[key], op.lamport);
        } else {
          assert notes'[key] == notes[key];
        }
      } else {
        assert key in notes' <==> key in notes;
        assert key in notes ==> notes'[key] == notes[key];
      }
    }
  }

  // ---------- merging and appending ----------

  /** The three readings of a merge, over the operations of both logs. */
  lemma MergeMeans(a: seq<PlanOp>, b: seq<PlanOp>, t: string, key: string)
    requires Consistent(a, b) && DistinctLamports(a + b)
    ensures
      var views, both := Merged(a, b).views, a + b;
      && (t in views.tasks <==> exists op :: op in both && IsRowOp(op, t))
      && (t in views.tasks ==>
            if Untouched(both, t) then views.tasks[t].state == DRAFT
            else LatestState(both, t, views.tasks[t].state))
      && NoRepeats(ChildrenOf(views.edges, t))
      && (forall child :: child in ChildrenOf(views.edges, t) <==> Linked(both, t, child))
      && (key in NotesOf(views.annotations, t) <==> exists op :: op in both && WritesNote(op, t, key))
      && (key in NotesOf(views.annotations, t) ==>
            LatestNote(both, t, key, NotesOf(views.annotations, t)[key]))
  {
    var m, both := MergeLogs(a, b), a + b;
    MergeContents(a, b);
    forall op ensures op in m <==> op in both {
      if op in b && op.opId in Ids(a) {
        var twin :| twin in a && twin.opId == op.opId;
      }
    }
    RowsMean(m, t);
    FirstRowOpExists(m, t);
    if t in Merged(a, b).views.tasks {
      SortedRowState(m, t);
      assert Untouched(m, t) <==> Untouched(both, t);
    }
    EdgesMean(m, t);
    forall child ensures Linked(m, t, child) <==> Linked(both, t, child) {}
    NotesMean(m, t, key);
  }

  /** A log appended in nondecreasing lamport order already shows what a rebuild would. */
  lemma InOrderAppendsNeedNoRebuild(log: seq<PlanOp>)
    requires Sorted(log, EarlierLamport)
    ensures Merged(log, []) == DocumentOf(log)
  {
    assert log + [] == log;
    SortOfSorted(log, EarlierLamport);
  }

  /** `first`, though newer than `oldest`, creates a row that later looks the same. */
  ghost predicate StandsFor(log: seq<PlanOp>, t: string, first: PlanOp, oldest: PlanOp)
  {
    || first == oldest
    || (&& first.threadId == oldest.threadId && TypeGiven(first) == TypeGiven(oldest)
        && exists op :: op in log && IsStateOp(op, t) && first.lamport <= op.lamport)
  }

  /**
   * Appending out of lamport order shows the rebuilt row exactly when the operation that came
   * first is the oldest, or gives the same identity and is not newer than every STATE.
   */
  lemma AppendMatchesRebuildIff(log: seq<PlanOp>, t: string)
    requires DistinctLamports(log) && FirstRowOp(log, t).Some?
    ensures t in Replay(log).tasks && t in Merged(log, []).views.tasks
    ensures FirstRowOp(MergeLogs(log, []), t).Some?
    ensures Replay(log).tasks[t] == Merged(log, []).views.tasks[t]
            <==> StandsFor(log, t, FirstRowOp(log, t).value, FirstRowOp(MergeLogs(log, []), t).value)
  {
    var sorted := MergeLogs(log, []);
    MergeContents(log, []);
    RowsMean(log, t);
    RowsMean(sorted, t);
    FirstRowOpExists(log, t);
    FirstRowOpExists(sorted, t);
    var first := FirstRowOp(log, t).value;
    assert first in sorted;
    FirstIsOldest(sorted, t, first);
    var row, row' := Replay(log).tasks[t], Replay(sorted).tasks[t];
    var top :| Shows(log, t, row, top);
    var top' :| Shows(sorted, t, row', top');
    SameRowIff(log, t, first, FirstRowOp(sorted, t).value, top, top', row, row');
  }

  /** A STATE that arrives after a newer ADD_TASK is lost by appending and kept by rebuilding. */
  lemma LateStateIsLost(t: string, state: string)
    requires state != DRAFT
    ensures
      var log := [PlanOp("a", "", 2, "", t, AddTask(None), 0), PlanOp("b", "", 1, "", t, SetState(state), 0)];
      && t in Replay(log).tasks && Replay(log).tasks[t].state == DRAFT
      && t in Merged(log, []).views.tasks && Merged(log, []).views.tasks[t].state == state
  {
    var add, late := PlanOp("a", "", 2, "", t, AddTask(None), 0), PlanOp("b", "", 1, "", t, SetState(state), 0);
    var log := [add, late];
    assert log[..1] == [add] && [add][..0] == [] && [late][..0] == [];
    assert log + [] == log;
    assert Sort([add], EarlierLamport) == [add] by { assert Sort([add][..0], EarlierLamport) == []; }
    assert Insert([add], late, EarlierLamport) == [late, add];
    assert MergeLogs(log, []) == [late, add];
    assert [late, add][..1] == [late];
    assert Replay([late]).tasks == map[t := TaskRow("", None, state, 1)];
  }

  lemma SameRowIff(log: seq<PlanOp>, t: string, first: PlanOp, oldest: PlanOp,
                   top: PlanOp, top': PlanOp, row: TaskRow, row': TaskRow)
    requires DistinctLamports(log) && first in log && oldest in log && top in log && top' in log
    requires IsRowOp(first, t) && IsRowOp(oldest, t) && IsRowOp(top, t) && IsRowOp(top', t)
    requires row == TaskRow(first.threadId, TypeGiven(first), StateGiven(top), top.lamport)
    requires row' == TaskRow(oldest.threadId, TypeGiven(oldest), StateGiven(top'), top'.lamport)
    requires (top.body.SetState? || top == first) && (top'.body.SetState? || top' == oldest)
    requires oldest.lamport <= first.lamport <= top.lamport && oldest.lamport <= top'.lamport
    requires forall op :: op in log && IsStateOp(op, t) ==> op.lamport <= top.lamport && op.lamport <= top'.lamport
    ensures row == row' <==> StandsFor(log, t, first, oldest)
  {
    if top.lamport == top'.lamport {
      assert top == top';
    }
    if top.body.SetState? {
      assert IsStateOp(top, t);
    }
  }
}
