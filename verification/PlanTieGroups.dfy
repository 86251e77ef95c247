/** When two replicas derive the same state from each other's logs, told from the tie groups of the two logs. */
module PlanTieGroups {
  import opened Collections
  import opened PlanOps
  import opened AutomergeStore
  import opened PlanConvergence
  import opened PlanMeaning
  import opened PlanTies

  function RowOn(t: string): PlanOp -> bool
  {
    (op: PlanOp) => IsRowOp(op, t)
  }

  function StateOn(t: string): PlanOp -> bool
  {
    (op: PlanOp) => IsStateOp(op, t)
  }

  function NoteOn(t: string, key: string): PlanOp -> bool
  {
    (op: PlanOp) => WritesNote(op, t, key)
  }

  function First(ops: seq<PlanOp>, p: PlanOp -> bool): (first: Option<PlanOp>)
    ensures first.Some? ==> p(first.value) && first.value in ops
  {
    if ops == [] then None
    else
      var earlier := First(ops[..|ops| - 1], p);
      if earlier.None? && p(ops[|ops| - 1]) then Some(ops[|ops| - 1]) else earlier
  }

  /** The first such operation among those with one lamport. */
  function FirstAt(ops: seq<PlanOp>, lamport: int, p: PlanOp -> bool): Option<PlanOp>
  {
    First(At(ops, lamport), p)
  }

  lemma {:induction false} FirstNone(ops: seq<PlanOp>, p: PlanOp -> bool)
    ensures First(ops, p).None? <==> forall op :: op in ops ==> !p(op)
  {
    if ops != [] {
      FrontAndLast(ops);
      FirstNone(ops[..|ops| - 1], p);
    }
  }

  lemma FirstAppend(ops: seq<PlanOp>, last: PlanOp, p: PlanOp -> bool)
    ensures First(ops + [last], p) == if First(ops, p).None? && p(last) then Some(last) else First(ops, p)
  {
    assert (ops + [last])[..|ops|] == ops;
  }

  lemma {:induction false} FirstConcat(g: seq<PlanOp>, h: seq<PlanOp>, p: PlanOp -> bool)
    ensures First(g + h, p) == if First(g, p).Some? then First(g, p) else First(h, p)
  {
    if h == [] {
      assert g + h == g;
    } else {
      FirstConcat(g, h[..|h| - 1], p);
      FirstAppend(g + h[..|h| - 1], h[|h| - 1], p);
      assert g + h[..|h| - 1] + [h[|h| - 1]] == g + h;
    }
  }

  lemma {:induction false} FirstUnknown(known: set<string>, g: seq<PlanOp>, p: PlanOp -> bool)
    requires forall op :: op in g && p(op) ==> op.opId !in known
    ensures First(Unknown(known, g), p) == First(g, p)
  {
    if g != [] {
      var front, last := g[..|g| - 1], g[|g| - 1];
      FrontAndLast(g);
      FirstUnknown(known, front, p);
      FirstConcat(Unknown(known, front), if last.opId in known then [] else [last], p);
      FirstAppend([], last, p);
    }
  }

  lemma KnownIdKnownOp(a: seq<PlanOp>, b: seq<PlanOp>, op: PlanOp)
    requires Consistent(a, b) && op in b
    ensures op.opId in Ids(a) <==> op in a
  {
    if op.opId in Ids(a) {
      var twin :| twin in a && twin.opId == op.opId;
    }
  }

  /** In a tie group of a merge the local log's operations come first. */
  lemma FirstOfMerge(a: seq<PlanOp>, b: seq<PlanOp>, lamport: int, p: PlanOp -> bool)
    requires Consistent(a, b)
    ensures FirstAt(MergeLogs(a, b), lamport, p)
            == if FirstAt(a, lamport, p).Some? then FirstAt(a, lamport, p) else FirstAt(b, lamport, p)
  {
    var g, h := At(a, lamport), At(b, lamport);
    MergeGroup(a, b, lamport);
    FirstConcat(g, Unknown(Ids(a), h), p);
    if First(g, p).None? {
      AtMembers(b, lamport);
      FirstAtNone(a, lamport, p);
      forall op | op in h && p(op) ensures op.opId !in Ids(a) {
        KnownIdKnownOp(a, b, op);
      }
      FirstUnknown(Ids(a), h, p);
    }
  }

  lemma AtAppend(ops: seq<PlanOp>, last: PlanOp, lamport: int)
    ensures At(ops + [last], lamport) == if last.lamport == lamport then At(ops, lamport) + [last] else At(ops, lamport)
  {
    assert (ops + [last])[..|ops|] == ops;
    assert At(ops, lamport) + [] == At(ops, lamport);
  }

  lemma FirstAtAppend(ops: seq<PlanOp>, last: PlanOp, lamport: int, p: PlanOp -> bool)
    ensures FirstAt(ops + [last], lamport, p)
            == if last.lamport == lamport && FirstAt(ops, lamport, p).None? && p(last) then Some(last)
               else FirstAt(ops, lamport, p)
  {
    AtAppend(ops, last, lamport);
    FirstAppend(At(ops, lamport), last, p);
  }

  lemma FirstAtNone(ops: seq<PlanOp>, lamport: int, p: PlanOp -> bool)
    ensures FirstAt(ops, lamport, p).None? <==> forall op :: op in ops && op.lamport == lamport ==> !p(op)
  {
    AtMembers(ops, lamport);
    FirstNone(At(ops, lamport), p);
  }

  /** The operation that opens a task is the first of its tie group to do so. */
  lemma {:induction false} OpenerIsFirst(ops: seq<PlanOp>, t: string)
    requires FirstRowOp(ops, t).Some?
    ensures FirstAt(ops, FirstRowOp(ops, t).value.lamport, RowOn(t)) == FirstRowOp(ops, t)
  {
    var front, last := ops[..|ops| - 1], ops[|ops| - 1];
    FrontAndLast(ops);
    if FirstRowOp(front, t).Some? {
      OpenerIsFirst(front, t);
      FirstAtAppend(front, last, FirstRowOp(front, t).value.lamport, RowOn(t));
    } else {
      NoneYet(front, t);
      FirstAtNone(front, last.lamport, RowOn(t));
      FirstAtAppend(front, last, last.lamport, RowOn(t));
    }
  }

  /** An operation that changed the state of an open task is the first STATE of its tie group. */
  lemma {:induction false} DeciderIsFirst(ops: seq<PlanOp>, t: string)
    requires Decider(ops, t).Some? && Decider(ops, t) != FirstRowOp(ops, t)
    ensures FirstAt(ops, Decider(ops, t).value.lamport, StateOn(t)) == Decider(ops, t)
  {
    var front, last := ops[..|ops| - 1], ops[|ops| - 1];
    FrontAndLast(ops);
    RowDecided(front, t);
    var held := Decider(front, t);
    FirstAtAppend(front, last, Decider(ops, t).value.lamport, StateOn(t));
    if held == Decider(ops, t) {
      DeciderIsFirst(front, t);
    } else if held.Some? {
      DeciderFacts(front, t);
      FirstAtNone(front, last.lamport, StateOn(t));
    }
  }

  lemma {:induction false} WriterIsFirst(ops: seq<PlanOp>, t: string, key: string)
    requires Writer(ops, t, key).Some?
    ensures FirstAt(ops, Writer(ops, t, key).value.lamport, NoteOn(t, key)) == Writer(ops, t, key)
    ensures forall op :: op in ops && WritesNote(op, t, key) ==> op.lamport <= Writer(ops, t, key).value.lamport
  {
    var front, last := ops[..|ops| - 1], ops[|ops| - 1];
    FrontAndLast(ops);
    var held := Writer(front, t, key);
    FirstAtAppend(front, last, Writer(ops, t, key).value.lamport, NoteOn(t, key));
    if held.Some? {
      WriterIsFirst(front, t, key);
    } else {
      NoWriterYet(front, t, key);
    }
    if held != Writer(ops, t, key) {
      FirstAtNone(front, last.lamport, NoteOn(t, key));
    }
  }

  lemma {:induction false} NoWriterYet(ops: seq<PlanOp>, t: string, key: string)
    requires Writer(ops, t, key).None?
    ensures forall op :: op in ops ==> !WritesNote(op, t, key)
  {
    if ops != [] {
      FrontAndLast(ops);
      NoWriterYet(ops[..|ops| - 1], t, key);
    }
  }

  /** No operation opens the task earlier. */
  ghost predicate Opens(ops: seq<PlanOp>, t: string, lamport: int)
  {
    forall op :: op in ops && IsRowOp(op, t) ==> lamport <= op.lamport
  }

  /** No operation sets the task's state later. */
  ghost predicate Closes(ops: seq<PlanOp>, t: string, lamport: int)
  {
    forall op :: op in ops && IsStateOp(op, t) ==> op.lamport <= lamport
  }

  ghost predicate WrittenLast(ops: seq<PlanOp>, t: string, key: string, lamport: int)
  {
    forall op :: op in ops && WritesNote(op, t, key) ==> op.lamport <= lamport
  }

  /** Of the operations that open a task, each log's first gives the same thread and type, and state if it stays. */
  ghost predicate OpenersAlike(a: seq<PlanOp>, b: seq<PlanOp>, t: string, lamport: int)
  {
    var p, q := FirstAt(a, lamport, RowOn(t)), FirstAt(b, lamport, RowOn(t));
    Opens(a + b, t, lamport) && p.Some? && q.Some? ==>
      && p.value.threadId == q.value.threadId && TypeGiven(p.value) == TypeGiven(q.value)
      && (Closes(a + b, t, lamport) ==> StateGiven(p.value) == StateGiven(q.value))
  }

  /** Of the STATE operations that close an open task, each log's first sets the same state. */
  ghost predicate ClosersAlike(a: seq<PlanOp>, b: seq<PlanOp>, t: string, lamport: int)
  {
    var p, q := FirstAt(a, lamport, StateOn(t)), FirstAt(b, lamport, StateOn(t));
    !Opens(a + b, t, lamport) && Closes(a + b, t, lamport) && p.Some? && q.Some? ==>
      StateGiven(p.value) == StateGiven(q.value)
  }

  ghost predicate WritersAlike(a: seq<PlanOp>, b: seq<PlanOp>, t: string, key: string, lamport: int)
  {
    var p, q := FirstAt(a, lamport, NoteOn(t, key)), FirstAt(b, lamport, NoteOn(t, key));
    WrittenLast(a + b, t, key, lamport) && p.Some? && q.Some? && WritesNote(p.value, t, key) && WritesNote(q.value, t, key) ==>
      p.value.body.entries[key] == q.value.body.entries[key]
  }

  /** In the tie groups that decide a task's row, the first operations of the two logs say the same. */
  ghost predicate RowGroupsAlike(a: seq<PlanOp>, b: seq<PlanOp>, t: string)
  {
    (forall lamport :: OpenersAlike(a, b, t, lamport)) && (forall lamport :: ClosersAlike(a, b, t, lamport))
  }

  ghost predicate NoteGroupsAlike(a: seq<PlanOp>, b: seq<PlanOp>, t: string, key: string)
  {
    forall lamport :: WritersAlike(a, b, t, key, lamport)
  }

  ghost predicate GroupsAlike(a: seq<PlanOp>, b: seq<PlanOp>)
  {
    (forall t :: RowGroupsAlike(a, b, t)) && (forall t, key :: NoteGroupsAlike(a, b, t, key))
  }

  /** The two merges hold the operations of both logs. */
  ghost predicate MergesOf(a: seq<PlanOp>, b: seq<PlanOp>, x: seq<PlanOp>, y: seq<PlanOp>)
  {
    && Consistent(a, b) && x == MergeLogs(a, b) && y == MergeLogs(b, a) && Reordered(x, y)
    && forall op :: op in x <==> op in a + b
  }

  lemma TheMerges(a: seq<PlanOp>, b: seq<PlanOp>)
    requires Consistent(a, b)
    ensures MergesOf(a, b, MergeLogs(a, b), MergeLogs(b, a))
  {
    SameOps(a, b);
    MergeContents(a, b);
    MergeContents(b, a);
    forall op | op in a + b ensures op in MergeLogs(a, b) {
      assert op in a ==> op in MergeLogs(a, b);
      assert op in b ==> op in MergeLogs(b, a);
    }
  }

  /** What each side takes from a tie group: its own first operation, if it has one. */
  lemma PicksOfMerges(a: seq<PlanOp>, b: seq<PlanOp>, lamport: int, p: PlanOp -> bool)
    requires Consistent(a, b)
    ensures
      var f, g := FirstAt(a, lamport, p), FirstAt(b, lamport, p);
      && FirstAt(MergeLogs(a, b), lamport, p) == (if f.Some? then f else g)
      && FirstAt(MergeLogs(b, a), lamport, p) == (if g.Some? then g else f)
  {
    FirstOfMerge(a, b, lamport, p);
    assert Consistent(b, a);
    FirstOfMerge(b, a, lamport, p);
  }

  lemma OpenerOfMerges(a: seq<PlanOp>, b: seq<PlanOp>, x: seq<PlanOp>, y: seq<PlanOp>, t: string)
    requires MergesOf(a, b, x, y) && FirstRowOp(x, t).Some?
    ensures FirstRowOp(y, t).Some? && Decider(x, t).Some? && Decider(y, t).Some?
    ensures
      var lamport := FirstRowOp(x, t).value.lamport;
      && Opens(a + b, t, lamport)
      && FirstRowOp(x, t) == FirstAt(x, lamport, RowOn(t)) && FirstRowOp(y, t) == FirstAt(y, lamport, RowOn(t))
  {
    DecidersTie(x, y, t);
    OpenerIsFirst(x, t);
    OpenerIsFirst(y, t);
    forall op | op in a + b && IsRowOp(op, t) ensures FirstRowOp(x, t).value.lamport <= op.lamport {
      assert op in x;
      FirstIsOldest(x, t, op);
    }
  }

  /** A task is decided where it is opened if nothing sets its state later. */
  lemma DecidedAtOpening(ops: seq<PlanOp>, t: string)
    requires FirstRowOp(ops, t).Some? && Decider(ops, t).Some? && Opens(ops, t, FirstRowOp(ops, t).value.lamport)
    ensures Closes(ops, t, FirstRowOp(ops, t).value.lamport) <==> Decider(ops, t) == FirstRowOp(ops, t)
    ensures Decider(ops, t) != FirstRowOp(ops, t) ==> FirstRowOp(ops, t).value.lamport < Decider(ops, t).value.lamport
  {
    DeciderFacts(ops, t);
    DeciderOvertakes(ops, t);
  }

  lemma {:induction false} DeciderOvertakes(ops: seq<PlanOp>, t: string)
    requires FirstRowOp(ops, t).Some? && Decider(ops, t).Some?
    ensures Decider(ops, t) == FirstRowOp(ops, t)
            || (IsStateOp(Decider(ops, t).value, t) && FirstRowOp(ops, t).value.lamport < Decider(ops, t).value.lamport)
  {
    var front := ops[..|ops| - 1];
    RowDecided(front, t);
    if FirstRowOp(front, t).Some? {
      DeciderOvertakes(front, t);
    }
  }

  lemma CloserOfMerges(a: seq<PlanOp>, b: seq<PlanOp>, x: seq<PlanOp>, y: seq<PlanOp>, t: string)
    requires MergesOf(a, b, x, y) && FirstRowOp(x, t).Some? && !Closes(a + b, t, FirstRowOp(x, t).value.lamport)
    ensures FirstRowOp(y, t).Some? && Decider(x, t).Some? && Decider(y, t).Some?
    ensures
      var lamport := Decider(x, t).value.lamport;
      && !Opens(a + b, t, lamport) && Closes(a + b, t, lamport)
      && Decider(x, t) == FirstAt(x, lamport, StateOn(t)) && Decider(y, t) == FirstAt(y, lamport, StateOn(t))
  {
    OpenerOfMerges(a, b, x, y, t);
    DecidersTie(x, y, t);
    assert Opens(x, t, FirstRowOp(x, t).value.lamport) && Opens(y, t, FirstRowOp(y, t).value.lamport);
    var late :| late in a + b && IsStateOp(late, t) && late.lamport > FirstRowOp(x, t).value.lamport;
    assert late in x && late in y;
    DecidedAtOpening(x, t);
    DecidedAtOpening(y, t);
    DeciderIsFirst(x, t);
    DeciderIsFirst(y, t);
    DeciderFacts(x, t);
    FirstRowOpExists(x, t);
    assert FirstRowOp(x, t).value in a + b;
  }

  /** Only one lamport opens a task, and only one closes it. */
  lemma OneOpening(a: seq<PlanOp>, b: seq<PlanOp>, x: seq<PlanOp>, y: seq<PlanOp>, t: string, lamport: int)
    requires MergesOf(a, b, x, y)
    ensures (FirstRowOp(x, t).Some? && FirstRowOp(x, t).value.lamport == lamport) || OpenersAlike(a, b, t, lamport)
  {
    FirstAtNone(a, lamport, RowOn(t));
    FirstRowOpExists(x, t);
    if FirstAt(a, lamport, RowOn(t)).Some? && Opens(a + b, t, lamport) {
      var op :| op in a && op.lamport == lamport && IsRowOp(op, t);
      assert op in x;
      FirstIsOldest(x, t, op);
      assert FirstRowOp(x, t).value in a + b;
    }
  }

  lemma OneClosing(a: seq<PlanOp>, b: seq<PlanOp>, x: seq<PlanOp>, y: seq<PlanOp>, t: string, lamport: int)
    requires MergesOf(a, b, x, y)
    ensures ClosersAlike(a, b, t, lamport)
            || (FirstRowOp(x, t).Some? && !Closes(a + b, t, FirstRowOp(x, t).value.lamport)
                && Decider(x, t).Some? && Decider(x, t).value.lamport == lamport)
  {
    FirstAtNone(a, lamport, StateOn(t));
    if FirstAt(a, lamport, StateOn(t)).Some? && !Opens(a + b, t, lamport) && Closes(a + b, t, lamport) {
      var op :| op in a && op.lamport == lamport && IsStateOp(op, t);
      assert op in x;
      FirstIsOldest(x, t, op);
      OpenerOfMerges(a, b, x, y, t);
      assert FirstRowOp(x, t).value.lamport < lamport;
      assert op in a + b;
      CloserOfMerges(a, b, x, y, t);
      DeciderFacts(x, t);
      assert Decider(x, t).value in a + b;
    }
  }

  lemma OpenersReduce(a: seq<PlanOp>, b: seq<PlanOp>, x: seq<PlanOp>, y: seq<PlanOp>, t: string)
    requires MergesOf(a, b, x, y)
    ensures (forall lamport :: OpenersAlike(a, b, t, lamport))
            <==> (FirstRowOp(x, t).Some? ==> OpenersAlike(a, b, t, FirstRowOp(x, t).value.lamport))
  {
    forall lamport
      ensures (FirstRowOp(x, t).Some? && FirstRowOp(x, t).value.lamport == lamport) || OpenersAlike(a, b, t, lamport)
    {
      OneOpening(a, b, x, y, t, lamport);
    }
  }

  /** The state of the task changes after its opening. */
  ghost predicate Reset(ops: seq<PlanOp>, t: string, first: Option<PlanOp>)
  {
    first.Some? && !Closes(ops, t, first.value.lamport)
  }

  lemma ClosersReduce(a: seq<PlanOp>, b: seq<PlanOp>, x: seq<PlanOp>, y: seq<PlanOp>, t: string)
    requires MergesOf(a, b, x, y)
    ensures (forall lamport :: ClosersAlike(a, b, t, lamport))
            <==> (Reset(a + b, t, FirstRowOp(x, t)) && Decider(x, t).Some?
                  ==> ClosersAlike(a, b, t, Decider(x, t).value.lamport))
  {
    forall lamport
      ensures ClosersAlike(a, b, t, lamport)
              || (Reset(a + b, t, FirstRowOp(x, t)) && Decider(x, t).Some? && Decider(x, t).value.lamport == lamport)
    {
      OneClosing(a, b, x, y, t, lamport);
    }
  }

  lemma RowGroupsIff(a: seq<PlanOp>, b: seq<PlanOp>, x: seq<PlanOp>, y: seq<PlanOp>, t: string)
    requires MergesOf(a, b, x, y)
    ensures RowShowsAlike(x, y, t) <==> RowGroupsAlike(a, b, t)
  {
    OpenersReduce(a, b, x, y, t);
    ClosersReduce(a, b, x, y, t);
    if Reset(a + b, t, FirstRowOp(x, t)) {
      DecidedLater(a, b, x, y, t);
    } else if FirstRowOp(x, t).Some? {
      DecidedWhenOpened(a, b, x, y, t);
    }
  }

  lemma DecidedWhenOpened(a: seq<PlanOp>, b: seq<PlanOp>, x: seq<PlanOp>, y: seq<PlanOp>, t: string)
    requires MergesOf(a, b, x, y) && FirstRowOp(x, t).Some? && Closes(a + b, t, FirstRowOp(x, t).value.lamport)
    ensures RowShowsAlike(x, y, t) <==> OpenersAlike(a, b, t, FirstRowOp(x, t).value.lamport)
  {
    var lamport := FirstRowOp(x, t).value.lamport;
    OpenerOfMerges(a, b, x, y, t);
    DecidersTie(x, y, t);
    assert Opens(x, t, lamport) && Opens(y, t, lamport) && Closes(x, t, lamport) && Closes(y, t, lamport);
    DecidedAtOpening(x, t);
    DecidedAtOpening(y, t);
    PicksOfMerges(a, b, lamport, RowOn(t));
  }

  lemma DecidedLater(a: seq<PlanOp>, b: seq<PlanOp>, x: seq<PlanOp>, y: seq<PlanOp>, t: string)
    requires MergesOf(a, b, x, y) && FirstRowOp(x, t).Some? && !Closes(a + b, t, FirstRowOp(x, t).value.lamport)
    ensures Decider(x, t).Some?
    ensures RowShowsAlike(x, y, t)
            <==> OpenersAlike(a, b, t, FirstRowOp(x, t).value.lamport) && ClosersAlike(a, b, t, Decider(x, t).value.lamport)
  {
    OpenerOfMerges(a, b, x, y, t);
    CloserOfMerges(a, b, x, y, t);
    PicksOfMerges(a, b, FirstRowOp(x, t).value.lamport, RowOn(t));
    PicksOfMerges(a, b, Decider(x, t).value.lamport, StateOn(t));
  }

  lemma WritersReduce(a: seq<PlanOp>, b: seq<PlanOp>, x: seq<PlanOp>, y: seq<PlanOp>, t: string, key: string)
    requires MergesOf(a, b, x, y)
    ensures NoteGroupsAlike(a, b, t, key)
            <==> (Writer(x, t, key).Some? ==> WritersAlike(a, b, t, key, Writer(x, t, key).value.lamport))
  {
    forall lamport
      ensures (Writer(x, t, key).Some? && Writer(x, t, key).value.lamport == lamport) || WritersAlike(a, b, t, key, lamport)
    {
      OneWriting(a, b, x, y, t, key, lamport);
    }
  }

  lemma NoteGroupsIff(a: seq<PlanOp>, b: seq<PlanOp>, x: seq<PlanOp>, y: seq<PlanOp>, t: string, key: string)
    requires MergesOf(a, b, x, y)
    ensures NoteShowsAlike(x, y, t, key) <==> NoteGroupsAlike(a, b, t, key)
  {
    WritersReduce(a, b, x, y, t, key);
    if Writer(x, t, key).Some? {
      var lamport := Writer(x, t, key).value.lamport;
      WritersTie(x, y, t, key);
      WriterIsFirst(x, t, key);
      WriterIsFirst(y, t, key);
      PicksOfMerges(a, b, lamport, NoteOn(t, key));
      assert WrittenLast(a + b, t, key, lamport);
      NoteDecided(x, t, key);
      NoteDecided(y, t, key);
    }
  }

  lemma OneWriting(a: seq<PlanOp>, b: seq<PlanOp>, x: seq<PlanOp>, y: seq<PlanOp>, t: string, key: string, lamport: int)
    requires MergesOf(a, b, x, y)
    ensures (Writer(x, t, key).Some? && Writer(x, t, key).value.lamport == lamport) || WritersAlike(a, b, t, key, lamport)
  {
    FirstAtNone(a, lamport, NoteOn(t, key));
    if FirstAt(a, lamport, NoteOn(t, key)).Some? && WrittenLast(a + b, t, key, lamport) {
      var op :| op in a && op.lamport == lamport && WritesNote(op, t, key);
      assert op in x;
      if Writer(x, t, key).None? {
        NoWriterYet(x, t, key);
      }
      WriterIsFirst(x, t, key);
      NoteDecided(x, t, key);
      assert Writer(x, t, key).value in a + b;
    }
  }

  /**
   * The derived state alone comes out the same on both replicas exactly when, in the tie groups that decide
   * what is shown, the first operations of the two logs say the same.
   */
  lemma StatesAgreeIff(a: seq<PlanOp>, b: seq<PlanOp>)
    requires Consistent(a, b)
    ensures SameState(Merged(a, b).views, Merged(b, a).views) <==> GroupsAlike(a, b)
  {
    var x, y := MergeLogs(a, b), MergeLogs(b, a);
    TheMerges(a, b);
    StatesAlikeIff(x, y);
    forall t ensures RowShowsAlike(x, y, t) <==> RowGroupsAlike(a, b, t) {
      RowGroupsIff(a, b, x, y, t);
    }
    forall t, key ensures NoteShowsAlike(x, y, t, key) <==> NoteGroupsAlike(a, b, t, key) {
      NoteGroupsIff(a, b, x, y, t, key);
    }
  }
}
