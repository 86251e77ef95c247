/** Which of several operations with one lamport a merged plan shows, and when that is the same on both replicas. */
module PlanTies {
  import opened Collections
  import opened PlanOps
  import opened StableSort
  import opened AutomergeStore
  import opened PlanConvergence
  import opened PlanMeaning

  /** The operation whose state a task's row shows. */
  function Decider(ops: seq<PlanOp>, t: string): Option<PlanOp>
  {
    if ops == [] then None
    else
      var d, e := Decider(ops[..|ops| - 1], t), ops[|ops| - 1];
      if IsRowOp(e, t) && (d.None? || (e.body.SetState? && e.lamport > d.value.lamport)) then Some(e) else d
  }

  /** The operation whose value an annotation key shows. */
  function Writer(ops: seq<PlanOp>, t: string, key: string): Option<PlanOp>
  {
    if ops == [] then None
    else
      var w, e := Writer(ops[..|ops| - 1], t, key), ops[|ops| - 1];
      if WritesNote(e, t, key) && (w.None? || e.lamport > w.value.lamport) then Some(e) else w
  }

  /** Every log, in any order: two operations of the log decide a row. */
  lemma {:induction false} RowDecided(ops: seq<PlanOp>, t: string)
    ensures t in Replay(ops).tasks <==> FirstRowOp(ops, t).Some?
    ensures Decider(ops, t).Some? <==> FirstRowOp(ops, t).Some?
    ensures FirstRowOp(ops, t).Some? ==>
              var first, d := FirstRowOp(ops, t).value, Decider(ops, t).value;
              Replay(ops).tasks[t] == TaskRow(first.threadId, TypeGiven(first), StateGiven(d), d.lamport)
  {
    if ops != [] {
      var before, op := ops[..|ops| - 1], ops[|ops| - 1];
      RowDecided(before, t);
      assert Replay(ops).tasks == ApplyTasks(Replay(before).tasks, op);
    }
  }

  lemma {:induction false} DeciderFacts(ops: seq<PlanOp>, t: string)
    requires Decider(ops, t).Some?
    ensures
      var d := Decider(ops, t).value;
      && d in ops && IsRowOp(d, t) && (d.body.SetState? || FirstRowOp(ops, t) == Some(d))
      && forall op :: op in ops && IsStateOp(op, t) ==> op.lamport <= d.lamport
  {
    var before, op := ops[..|ops| - 1], ops[|ops| - 1];
    assert ops == before + [op];
    RowDecided(before, t);
    if Decider(before, t).Some? {
      DeciderFacts(before, t);
    } else {
      NoneYet(before, t);
    }
  }

  lemma {:induction false} NoneYet(ops: seq<PlanOp>, t: string)
    requires FirstRowOp(ops, t).None?
    ensures forall op :: op in ops ==> !IsRowOp(op, t)
  {
    if ops != [] {
      assert ops == ops[..|ops| - 1] + [ops[|ops| - 1]];
      NoneYet(ops[..|ops| - 1], t);
    }
  }

  lemma {:induction false} NoteDecided(ops: seq<PlanOp>, t: string, key: string)
    ensures key in NotesOf(Replay(ops).annotations, t) <==> Writer(ops, t, key).Some?
    ensures Writer(ops, t, key).Some? ==>
              var w := Writer(ops, t, key).value;
              && w in ops && WritesNote(w, t, key)
              && NotesOf(Replay(ops).annotations, t)[key] == Note(w.body.entries[key], w.lamport)
  {
    if ops != [] {
      var before, op := ops[..|ops| - 1], ops[|ops| - 1];
      assert ops == before + [op];
      NoteDecided(before, t, key);
      assert Replay(ops).annotations == ApplyAnnotations(Replay(before).annotations, op);
      var notes := NotesOf(Replay(before).annotations, t);
      if op.taskId == t && op.body.Annotate? {
        assert NotesOf(Replay(ops).annotations, t) == WriteNotes(notes, op.body.entries, op.lamport);
      } else {
        assert NotesOf(Replay(ops).annotations, t) == notes;
      }
    }
  }

  lemma {:induction false} AnnotatedTasks(ops: seq<PlanOp>, t: string)
    ensures t in Replay(ops).annotations <==> exists op :: op in ops && op.taskId == t && op.body.Annotate?
  {
    if ops != [] {
      var before, op := ops[..|ops| - 1], ops[|ops| - 1];
      assert ops == before + [op];
      AnnotatedTasks(before, t);
      assert Replay(ops).annotations == ApplyAnnotations(Replay(before).annotations, op);
    }
  }

  // ---------- two orders of the same operations ----------

  ghost predicate Reordered(x: seq<PlanOp>, y: seq<PlanOp>)
  {
    && Sorted(x, EarlierLamport) && Sorted(y, EarlierLamport)
    && forall op :: op in x <==> op in y
  }

  /** The deciding operations of two orders have one lamport: where they differ, they tie. */
  lemma DecidersTie(x: seq<PlanOp>, y: seq<PlanOp>, t: string)
    requires Reordered(x, y) && FirstRowOp(x, t).Some?
    ensures FirstRowOp(y, t).Some? && FirstRowOp(x, t).value.lamport == FirstRowOp(y, t).value.lamport
    ensures Decider(x, t).Some? && Decider(y, t).Some? && Decider(x, t).value.lamport == Decider(y, t).value.lamport
  {
    FirstRowOpExists(x, t);
    FirstIsOldest(y, t, FirstRowOp(x, t).value);
    FirstRowOpExists(y, t);
    FirstIsOldest(x, t, FirstRowOp(y, t).value);
    RowDecided(x, t);
    RowDecided(y, t);
    DeciderAtMost(x, y, t);
    DeciderAtMost(y, x, t);
  }

  lemma DeciderAtMost(x: seq<PlanOp>, y: seq<PlanOp>, t: string)
    requires Reordered(x, y) && Decider(x, t).Some? && Decider(y, t).Some?
    ensures Decider(x, t).value.lamport <= Decider(y, t).value.lamport
  {
    DeciderFacts(x, t);
    DeciderFacts(y, t);
    var d := Decider(x, t).value;
    if d.body.SetState? {
      assert IsStateOp(d, t);
    } else {
      FirstIsOldest(x, t, Decider(y, t).value);
    }
  }

  lemma WritersTie(x: seq<PlanOp>, y: seq<PlanOp>, t: string, key: string)
    requires Reordered(x, y) && Writer(x, t, key).Some?
    ensures Writer(y, t, key).Some? && Writer(x, t, key).value.lamport == Writer(y, t, key).value.lamport
  {
    NoteDecided(x, t, key);
    NoteDecided(y, t, key);
    NotesMean(x, t, key);
    NotesMean(y, t, key);
  }

  /** The operations that decide a row in the two orders give it the same thread, type and state. */
  ghost predicate RowShowsAlike(x: seq<PlanOp>, y: seq<PlanOp>, t: string)
  {
    FirstRowOp(x, t).Some? && FirstRowOp(y, t).Some? && Decider(x, t).Some? && Decider(y, t).Some? ==>
      && FirstRowOp(x, t).value.threadId == FirstRowOp(y, t).value.threadId
      && TypeGiven(FirstRowOp(x, t).value) == TypeGiven(FirstRowOp(y, t).value)
      && StateGiven(Decider(x, t).value) == StateGiven(Decider(y, t).value)
  }

  /** The operations that decide an annotation in the two orders write the same value. */
  ghost predicate NoteShowsAlike(x: seq<PlanOp>, y: seq<PlanOp>, t: string, key: string)
  {
    BothWrite(x, y, t, key) ==>
      Writer(x, t, key).value.body.entries[key] == Writer(y, t, key).value.body.entries[key]
  }

  ghost predicate BothWrite(x: seq<PlanOp>, y: seq<PlanOp>, t: string, key: string)
  {
    && Writer(x, t, key).Some? && WritesNote(Writer(x, t, key).value, t, key)
    && Writer(y, t, key).Some? && WritesNote(Writer(y, t, key).value, t, key)
  }

  /** Where the two orders pick different operations, the operations say the same. */
  ghost predicate TiesShowAlike(x: seq<PlanOp>, y: seq<PlanOp>)
  {
    (forall t :: RowShowsAlike(x, y, t)) && (forall t, key :: NoteShowsAlike(x, y, t, key))
  }

  /** The same derived state, up to the order in which children are listed. */
  ghost predicate SameState(v: Derived, w: Derived)
  {
    && v.tasks == w.tasks && v.annotations == w.annotations
    && forall parent, child :: child in ChildrenOf(v.edges, parent) <==> child in ChildrenOf(w.edges, parent)
  }

  lemma RowsAlike(x: seq<PlanOp>, y: seq<PlanOp>, t: string)
    requires Reordered(x, y)
    ensures t in Replay(x).tasks <==> t in Replay(y).tasks
    ensures if t in Replay(x).tasks && t in Replay(y).tasks
            then Replay(x).tasks[t] == Replay(y).tasks[t] <==> RowShowsAlike(x, y, t)
            else RowShowsAlike(x, y, t)
  {
    RowDecided(x, t);
    RowDecided(y, t);
    if FirstRowOp(x, t).Some? {
      DecidersTie(x, y, t);
    }
    if FirstRowOp(y, t).Some? {
      DecidersTie(y, x, t);
    }
  }

  lemma NotesAlike(x: seq<PlanOp>, y: seq<PlanOp>, t: string, key: string)
    requires Reordered(x, y)
    ensures
      var v, w := NotesOf(Replay(x).annotations, t), NotesOf(Replay(y).annotations, t);
      && (key in v <==> key in w)
      && if key in v && key in w then v[key] == w[key] <==> NoteShowsAlike(x, y, t, key) else NoteShowsAlike(x, y, t, key)
  {
    NoteDecided(x, t, key);
    NoteDecided(y, t, key);
    if Writer(x, t, key).Some? {
      WritersTie(x, y, t, key);
    }
    if Writer(y, t, key).Some? {
      WritersTie(y, x, t, key);
    }
  }

  lemma TablesAlikeIff(x: seq<PlanOp>, y: seq<PlanOp>)
    requires Reordered(x, y)
    ensures Replay(x).tasks == Replay(y).tasks <==> forall t :: RowShowsAlike(x, y, t)
  {
    var v, w := Replay(x).tasks, Replay(y).tasks;
    forall t
      ensures t in v <==> t in w
      ensures if t in v && t in w then v[t] == w[t] <==> RowShowsAlike(x, y, t) else RowShowsAlike(x, y, t)
    {
      RowsAlike(x, y, t);
    }
    if forall t :: RowShowsAlike(x, y, t) {
      forall t | t in v ensures v[t] == w[t] {
        assert RowShowsAlike(x, y, t);
      }
    }
  }

  lemma TaskNotesAlikeIff(x: seq<PlanOp>, y: seq<PlanOp>, t: string)
    requires Reordered(x, y)
    ensures NotesOf(Replay(x).annotations, t) == NotesOf(Replay(y).annotations, t)
            <==> forall key :: NoteShowsAlike(x, y, t, key)
    ensures t in Replay(x).annotations <==> t in Replay(y).annotations
  {
    AnnotatedTasks(x, t);
    AnnotatedTasks(y, t);
    var v, w := NotesOf(Replay(x).annotations, t), NotesOf(Replay(y).annotations, t);
    forall key
      ensures key in v <==> key in w
      ensures if key in v && key in w then v[key] == w[key] <==> NoteShowsAlike(x, y, t, key) else NoteShowsAlike(x, y, t, key)
    {
      NotesAlike(x, y, t, key);
    }
    if forall key :: NoteShowsAlike(x, y, t, key) {
      forall key | key in v ensures v[key] == w[key] {
        assert NoteShowsAlike(x, y, t, key);
      }
    }
  }

  lemma AnnotationsAlikeIff(x: seq<PlanOp>, y: seq<PlanOp>)
    requires Reordered(x, y)
    ensures Replay(x).annotations == Replay(y).annotations <==> forall t, key :: NoteShowsAlike(x, y, t, key)
  {
    var v, w := Replay(x).annotations, Replay(y).annotations;
    forall t
      ensures NotesOf(v, t) == NotesOf(w, t) <==> forall key :: NoteShowsAlike(x, y, t, key)
      ensures t in v <==> t in w
    {
      TaskNotesAlikeIff(x, y, t);
    }
    if v == w {
      forall t, key ensures NoteShowsAlike(x, y, t, key) {
        assert NotesOf(v, t) == NotesOf(w, t);
      }
    }
    if forall t, key :: NoteShowsAlike(x, y, t, key) {
      forall t | t in v ensures v[t] == w[t] {
        assert NotesOf(v, t) == NotesOf(w, t);
      }
    }
  }

  lemma ChildrenAlike(x: seq<PlanOp>, y: seq<PlanOp>, parent: string, child: string)
    requires Reordered(x, y)
    ensures child in ChildrenOf(Replay(x).edges, parent) <==> child in ChildrenOf(Replay(y).edges, parent)
  {
    EdgesMean(x, parent);
    EdgesMean(y, parent);
  }

  /** The derived states agree exactly when the operations that decide the two orders say the same. */
  lemma StatesAlikeIff(x: seq<PlanOp>, y: seq<PlanOp>)
    requires Reordered(x, y)
    ensures SameState(Replay(x), Replay(y)) <==> TiesShowAlike(x, y)
  {
    TablesAlikeIff(x, y);
    AnnotationsAlikeIff(x, y);
    forall parent, child {
      ChildrenAlike(x, y, parent, child);
    }
  }

  lemma SameOps(a: seq<PlanOp>, b: seq<PlanOp>)
    requires Consistent(a, b)
    ensures Reordered(MergeLogs(a, b), MergeLogs(b, a))
  {
    MergeContents(a, b);
    MergeContents(b, a);
    forall op ensures op in MergeLogs(a, b) <==> op in MergeLogs(b, a) {
      if op in b && op.opId in Ids(a) {
        var twin :| twin in a && twin.opId == op.opId;
      }
      if op in a && op.opId in Ids(b) {
        var twin :| twin in b && twin.opId == op.opId;
      }
    }
  }
}
