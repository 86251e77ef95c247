/** A merged patch set, applied to an empty store. */
module MergedPlan {
  import opened Collections
  import opened PlanOps
  import opened StableSort
  import opened Patches
  import opened CycleDetection
  import opened PatchMerge
  import opened PatchWinners
  import opened PlanConvergence
  import opened PlanMeaning

  /** What a store can replay: it fails on a STATE without a state. */
  predicate Storable(body: PatchBody)
  {
    body.SetState? ==> body.given.Some?
  }

  function StoredBody(body: PatchBody): OpBody
    requires Storable(body)
  {
    match body
    case AddTask(taskType) => OpBody.AddTask(taskType)
    case SetState(given) => OpBody.SetState(given.value)
    case Link(parent, child) => OpBody.Link(parent, child)
    case Annotate(entries) => OpBody.Annotate(entries)
    case Requires => OpBody.Requires
    case Produces => OpBody.Produces
  }

  ghost predicate AllStorable(ops: seq<MergedOp>)
  {
    forall i :: 0 <= i < |ops| ==> Storable(ops[i].body)
  }

  function Stored(op: MergedOp): PlanOp
    requires Storable(op.body)
  {
    PlanOp(op.opId, op.threadId, op.lamport, op.actorId, op.taskId, StoredBody(op.body), op.timestampNs)
  }

  /** The merge's output as a plan's log. */
  ghost function StoredOps(ops: seq<MergedOp>): (stored: seq<PlanOp>)
    requires AllStorable(ops)
    ensures |stored| == |ops| && forall i :: 0 <= i < |ops| ==> stored[i] == Stored(ops[i])
  {
    seq(|ops|, i requires 0 <= i < |ops| => Stored(ops[i]))
  }

  /** `ops` are the entries with consecutive lamports. */
  ghost predicate Emits(ops: seq<PlanOp>, entries: seq<Entry>)
  {
    && |ops| == |entries| && forall i :: 0 <= i < |ops| ==> IsStored(ops[i], entries[i]) && ops[i].lamport == ops[0].lamport + i
  }

  predicate IsStored(op: PlanOp, e: Entry)
  {
    op.taskId == e.taskId && Storable(e.body) && op.body == StoredBody(e.body)
  }

  /** The entry under the key, if there is one, is `best`. */
  ghost predicate Holds(entries: seq<Entry>, t: string, kind: Kind, best: Option<Entry>)
  {
    forall e :: e in entries && HasKey(e, t, kind) <==> best == Some(e)
  }

  ghost predicate AddsFirst(entries: seq<Entry>)
  {
    forall i, j :: 0 <= i < j < |entries| && entries[j].body.AddTask? ==> entries[i].body.AddTask?
  }

  lemma EmitEmits(entries: seq<Entry>, start: int, newId: nat -> string)
    requires AllStorable(Emit(entries, start, newId))
    ensures Emits(StoredOps(Emit(entries, start, newId)), entries)
  {
    var ops := Emit(entries, start, newId);
    EmitFacts(entries, start, newId);
    forall i | 0 <= i < |entries| ensures IsStored(StoredOps(ops)[i], entries[i]) && ops[i].lamport == start + i {
      assert Storable(ops[i].body) && ops[i] == ToOp(entries[i], start + i, newId(i));
    }
  }

  /** Per task, the survivors hold the best ADD_TASK and the best STATE and no other. */
  lemma SurvivorsAreBest(order: seq<Entry>, t: string)
    ensures Holds(Kept(order), t, KAddTask, Best(order, t, KAddTask))
    ensures Holds(Kept(order), t, KState, Best(order, t, KState))
  {
    TrackerHolds(order);
    BestAddKept(order, t);
    BestStateKept(order, t);
    SlotHolds(TakeAll(order), t, Best(order, t, KAddTask), Best(order, t, KState));
  }

  lemma SlotHolds(tracker: Tracker, t: string, add: Option<Entry>, state: Option<Entry>)
    requires TrackerInvariant(tracker)
    requires Lookup(tracker.adds, t, KAddTask) == add && Lookup(tracker.others, t, KState) == state
    ensures Holds(tracker.adds + tracker.others, t, KAddTask, add)
    ensures Holds(tracker.adds + tracker.others, t, KState, state)
  {
    forall e | e in tracker.adds && HasKey(e, t, KAddTask) ensures add == Some(e) {
      LookupMember(tracker.adds, e);
    }
    forall e | e in tracker.others && HasKey(e, t, KState) ensures state == Some(e) {
      LookupMember(tracker.others, e);
    }
  }

  lemma InLamportOrder(ops: seq<PlanOp>, entries: seq<Entry>)
    requires Emits(ops, entries)
    ensures Sorted(ops, EarlierLamport) && DistinctLamports(ops)
  {
    forall x, y | x in ops && y in ops && x.lamport == y.lamport ensures x == y {
      var i :| 0 <= i < |ops| && ops[i] == x;
      var j :| 0 <= j < |ops| && ops[j] == y;
      assert i == j;
    }
  }

  lemma OpOfEntry(ops: seq<PlanOp>, entries: seq<Entry>, e: Entry) returns (op: PlanOp)
    requires Emits(ops, entries) && e in entries
    ensures op in ops && IsStored(op, e)
  {
    var i :| 0 <= i < |entries| && entries[i] == e;
    op := ops[i];
  }

  lemma EntryOfOp(ops: seq<PlanOp>, entries: seq<Entry>, op: PlanOp) returns (e: Entry)
    requires Emits(ops, entries) && op in ops
    ensures e in entries && IsStored(op, e)
  {
    var i :| 0 <= i < |ops| && ops[i] == op;
    e := entries[i];
  }

  function StateShown(state: Option<Entry>): string
  {
    match state
    case Some(w) => if w.body.SetState? && w.body.given.Some? then w.body.given.value else DRAFT
    case None => DRAFT
  }

  function TypeShown(add: Option<Entry>): Option<string>
  {
    match add
    case Some(w) => if w.body.AddTask? then w.body.taskType else None
    case None => None
  }

  /** Every STATE operation on `t` in the output is the winner, and it is there if there is a winner. */
  lemma StateOpsOfOutput(ops: seq<PlanOp>, entries: seq<Entry>, t: string, state: Option<Entry>)
    requires Emits(ops, entries) && Holds(entries, t, KState, state)
    ensures forall op :: op in ops && IsStateOp(op, t) ==> state.Some? && IsStored(op, state.value)
    ensures state.Some? ==> state.value.body.SetState? && exists op :: op in ops && IsStateOp(op, t)
  {
    forall op | op in ops && IsStateOp(op, t) ensures state.Some? && IsStored(op, state.value) {
      var e := EntryOfOp(ops, entries, op);
      assert HasKey(e, t, KState);
    }
    if state.Some? {
      assert HasKey(state.value, t, KState);
      var op := OpOfEntry(ops, entries, state.value);
      assert IsStateOp(op, t);
    }
  }

  lemma StateOfOutput(ops: seq<PlanOp>, entries: seq<Entry>, t: string, state: Option<Entry>)
    requires Emits(ops, entries) && Holds(entries, t, KState, state) && t in Replay(ops).tasks
    ensures Replay(ops).tasks[t].state == StateShown(state)
  {
    InLamportOrder(ops, entries);
    SortedRowState(ops, t);
    StateOpsOfOutput(ops, entries, t, state);
  }

  /** The row's first operation is the winning ADD_TASK, if there is one. */
  lemma FirstOpOfOutput(ops: seq<PlanOp>, entries: seq<Entry>, t: string, add: Option<Entry>, first: PlanOp)
    requires Emits(ops, entries) && AddsFirst(entries) && Holds(entries, t, KAddTask, add)
    requires first in ops && IsRowOp(first, t)
    requires forall op :: op in ops && IsRowOp(op, t) ==> first.lamport <= op.lamport
    ensures TypeGiven(first) == TypeShown(add)
  {
    var k :| 0 <= k < |ops| && ops[k] == first;
    assert entries[k] in entries;
    match add
    case Some(w) =>
      assert w in entries && HasKey(w, t, KAddTask);
      var i :| 0 <= i < |entries| && entries[i] == w;
      assert ops[i] in ops && IsRowOp(ops[i], t);
      assert k <= i;
      assert HasKey(entries[k], t, KAddTask);
    case None =>
      assert !HasKey(entries[k], t, KAddTask);
  }

  lemma TypeOfOutput(ops: seq<PlanOp>, entries: seq<Entry>, t: string, add: Option<Entry>)
    requires Emits(ops, entries) && AddsFirst(entries) && Holds(entries, t, KAddTask, add) && t in Replay(ops).tasks
    ensures Replay(ops).tasks[t].taskType == TypeShown(add)
  {
    InLamportOrder(ops, entries);
    RowsMean(ops, t);
    FirstRowOpExists(ops, t);
    var first := FirstRowOp(ops, t).value;
    forall op | op in ops && IsRowOp(op, t) ensures first.lamport <= op.lamport {
      FirstIsOldest(ops, t, op);
    }
    FirstOpOfOutput(ops, entries, t, add, first);
  }

  lemma RowPresent(ops: seq<PlanOp>, entries: seq<Entry>, t: string, add: Option<Entry>, state: Option<Entry>)
    requires Emits(ops, entries) && Holds(entries, t, KAddTask, add) && Holds(entries, t, KState, state)
    ensures t in Replay(ops).tasks <==> add.Some? || state.Some?
  {
    RowsMean(ops, t);
    FirstRowOpExists(ops, t);
    if t in Replay(ops).tasks {
      var e := EntryOfOp(ops, entries, FirstRowOp(ops, t).value);
      assert HasKey(e, t, KAddTask) || HasKey(e, t, KState);
    }
    if add.Some? {
      assert HasKey(add.value, t, KAddTask);
      var op := OpOfEntry(ops, entries, add.value);
      assert IsRowOp(op, t);
    }
    StateOpsOfOutput(ops, entries, t, state);
    assert forall op :: IsStateOp(op, t) ==> IsRowOp(op, t);
  }

  ghost predicate WinnerSaysState(order: seq<Entry>, t: string)
  {
    match Best(order, t, KState)
    case Some(w) => Storable(w.body)
    case None => true
  }

  /** Every task's winning STATE says which state. */
  ghost predicate WinnersSayState(order: seq<Entry>)
  {
    forall t :: WinnerSaysState(order, t)
  }

  ghost predicate EntriesStorable(entries: seq<Entry>)
  {
    forall e :: e in entries ==> Storable(e.body)
  }

  lemma EmitStorable(entries: seq<Entry>, start: int, newId: nat -> string)
    ensures AllStorable(Emit(entries, start, newId)) <==> EntriesStorable(entries)
  {
    var ops := Emit(entries, start, newId);
    EmitFacts(entries, start, newId);
    if AllStorable(ops) {
      forall e | e in entries ensures Storable(e.body) {
        var i :| 0 <= i < |entries| && entries[i] == e;
        assert Storable(ops[i].body);
      }
    }
  }

  lemma StorableIfWinnersAre(entries: seq<Entry>, order: seq<Entry>, e: Entry)
    requires e in entries && WinnerSaysState(order, e.taskId)
    requires Holds(entries, e.taskId, KState, Best(order, e.taskId, KState))
    ensures Storable(e.body)
  {
    assert e.body.SetState? <==> HasKey(e, e.taskId, KState);
  }

  lemma WinnerIfStorable(entries: seq<Entry>, order: seq<Entry>, t: string)
    requires EntriesStorable(entries) && Holds(entries, t, KState, Best(order, t, KState))
    ensures WinnerSaysState(order, t)
  {
  }

  /** The merge keeps a STATE without a state; what it emits can be replayed exactly if no such STATE wins. */
  lemma ReplayableIff(patches: seq<PlanPatch>, newId: nat -> string)
    ensures AllStorable(MergeResult(patches, newId)) <==> WinnersSayState(MergeOrder(patches))
  {
    var order, survivors := MergeOrder(patches), Survivors(patches);
    EmitStorable(survivors, MaxBase(patches) + 1, newId);
    if WinnersSayState(order) {
      forall e | e in survivors ensures Storable(e.body) {
        SurvivorsAreBest(order, e.taskId);
        StorableIfWinnersAre(survivors, order, e);
      }
    }
    if EntriesStorable(survivors) {
      forall t ensures WinnerSaysState(order, t) {
        SurvivorsAreBest(order, t);
        WinnerIfStorable(survivors, order, t);
      }
    }
  }

  lemma OutputShape(patches: seq<PlanPatch>, newId: nat -> string)
    requires AllStorable(MergeResult(patches, newId))
    ensures Emits(StoredOps(MergeResult(patches, newId)), Survivors(patches))
  {
    EmitEmits(Survivors(patches), MaxBase(patches) + 1, newId);
  }

  /** Only tasks named by an ADD_TASK or STATE exist, and each shows the winning STATE and the winning ADD_TASK. */
  lemma MergedTasks(patches: seq<PlanPatch>, newId: nat -> string, t: string)
    requires AllStorable(MergeResult(patches, newId))
    ensures
      var tasks := Replay(StoredOps(MergeResult(patches, newId))).tasks;
      var add, state := Best(MergeOrder(patches), t, KAddTask), Best(MergeOrder(patches), t, KState);
      && (t in tasks <==> add.Some? || state.Some?)
      && (t in tasks ==> tasks[t].state == StateShown(state) && tasks[t].taskType == TypeShown(add))
  {
    var ops, survivors, order := StoredOps(MergeResult(patches, newId)), Survivors(patches), MergeOrder(patches);
    var add, state := Best(order, t, KAddTask), Best(order, t, KState);
    OutputShape(patches, newId);
    SurvivorsAreBest(order, t);
    SurvivorsOrder(patches);
    RowPresent(ops, survivors, t, add, state);
    if t in Replay(ops).tasks {
      StateOfOutput(ops, survivors, t, state);
      TypeOfOutput(ops, survivors, t, add);
    }
  }

  ghost function ViewEdges(views: Derived): set<Edge>
  {
    set parent, child | parent in views.edges && child in views.edges[parent] :: (parent, child)
  }

  ghost function LinkEdges(entries: seq<Entry>): set<Edge>
  {
    set e | e in entries && e.body.Link? :: (e.body.parent, e.body.child)
  }

  lemma InViewEdges(ops: seq<PlanOp>, e: Edge)
    ensures e in ViewEdges(Replay(ops)) <==> Linked(ops, e.0, e.1)
  {
    EdgesMean(ops, e.0);
    assert e in ViewEdges(Replay(ops)) <==> e.1 in ChildrenOf(Replay(ops).edges, e.0);
  }

  /** The edges shown are those of the emitted LINKs. */
  lemma ViewEdgesCome(ops: seq<PlanOp>, entries: seq<Entry>)
    requires Emits(ops, entries)
    ensures ViewEdges(Replay(ops)) == LinkEdges(entries)
  {
    forall e: Edge ensures e in ViewEdges(Replay(ops)) <==> e in LinkEdges(entries) {
      InViewEdges(ops, e);
      if Linked(ops, e.0, e.1) {
        var op :| op in ops && op.body == OpBody.Link(e.0, e.1);
        var entry := EntryOfOp(ops, entries, op);
      }
      if e in LinkEdges(entries) {
        var entry :| entry in entries && entry.body.Link? && (entry.body.parent, entry.body.child) == e;
        var op := OpOfEntry(ops, entries, entry);
      }
    }
  }

  /** The LINKs that the merge emits form no cycle. */
  lemma EmittedLinksAcyclic(patches: seq<PlanPatch>)
    ensures !Cyclic(LinkEdges(Survivors(patches)))
  {
    var t := TakeAll(MergeOrder(patches));
    TrackerHolds(MergeOrder(patches));
    LinksStayAcyclic(MergeOrder(patches));
    FewerEdgesStayAcyclic(EdgeSet(t.links), LinkEdges(Survivors(patches)));
  }

  /** Whatever the patches link, a plan that holds the merge's output alone has no cycle of dependencies. */
  lemma MergedPlanIsAcyclic(patches: seq<PlanPatch>, newId: nat -> string)
    requires AllStorable(MergeResult(patches, newId))
    ensures !Cyclic(ViewEdges(Replay(StoredOps(MergeResult(patches, newId)))))
  {
    OutputShape(patches, newId);
    ViewEdgesCome(StoredOps(MergeResult(patches, newId)), Survivors(patches));
    EmittedLinksAcyclic(patches);
  }
}
