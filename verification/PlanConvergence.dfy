/** What merging op logs guarantees across replicas. */
module PlanConvergence {
  import opened Collections
  import opened PlanOps
  import opened StableSort
  import opened AutomergeStore

  /** The shared part of a store: its log and the views replayed from it (the version counter is local). */
  datatype Document = Document(ops: seq<PlanOp>, views: Derived)

  function DocumentOf(ops: seq<PlanOp>): Document
  {
    Document(ops, Replay(ops))
  }

  /** The document after `MergeWithPeer`. */
  function Merged(ours: seq<PlanOp>, theirs: seq<PlanOp>): Document
  {
    DocumentOf(MergeLogs(ours, theirs))
  }

  /** An id names one operation, wherever it is found. */
  ghost predicate Consistent(a: seq<PlanOp>, b: seq<PlanOp>)
  {
    forall x, y :: x in a && y in b && x.opId == y.opId ==> x == y
  }

  ghost predicate DistinctLamports(ops: seq<PlanOp>)
  {
    forall x, y :: x in ops && y in ops && x.lamport == y.lamport ==> x == y
  }

  /** The operations with one lamport value, in log order. */
  function At(ops: seq<PlanOp>, lamport: int): seq<PlanOp>
  {
    if ops == [] then []
    else At(ops[..|ops| - 1], lamport) + (if ops[|ops| - 1].lamport == lamport then [ops[|ops| - 1]] else [])
  }

  // ---------- lists of operations ----------

  lemma {:induction false} AtMembers(ops: seq<PlanOp>, lamport: int)
    ensures forall op :: op in At(ops, lamport) <==> op in ops && op.lamport == lamport
    ensures UniqueIds(ops) ==> UniqueIds(At(ops, lamport))
  {
    if ops != [] {
      AtMembers(ops[..|ops| - 1], lamport);
      assert ops == ops[..|ops| - 1] + [ops[|ops| - 1]];
    }
  }

  lemma {:induction false} AtConcat(a: seq<PlanOp>, b: seq<PlanOp>, lamport: int)
    ensures At(a + b, lamport) == At(a, lamport) + At(b, lamport)
  {
    if b == [] {
      assert a + b == a;
    } else {
      assert (a + b)[..|a + b| - 1] == a + b[..|b| - 1];
      AtConcat(a, b[..|b| - 1], lamport);
    }
  }

  lemma {:induction false} TiesAreAt(ops: seq<PlanOp>, x: PlanOp)
    ensures Ties(ops, x, EarlierLamport) == At(ops, x.lamport)
  {
    if ops != [] {
      TiesAreAt(ops[..|ops| - 1], x);
    }
  }

  lemma {:induction false} UnknownMembers(known: set<string>, ops: seq<PlanOp>)
    ensures forall op :: op in Unknown(known, ops) <==> op in ops && op.opId !in known
    ensures UniqueIds(ops) ==> UniqueIds(Unknown(known, ops))
  {
    if ops != [] {
      UnknownMembers(known, ops[..|ops| - 1]);
      assert ops == ops[..|ops| - 1] + [ops[|ops| - 1]];
    }
  }

  lemma {:induction false} UnknownConcat(known: set<string>, a: seq<PlanOp>, b: seq<PlanOp>)
    ensures Unknown(known, a + b) == Unknown(known, a) + Unknown(known, b)
  {
    if b == [] {
      assert a + b == a;
    } else {
      assert (a + b)[..|a + b| - 1] == a + b[..|b| - 1];
      UnknownConcat(known, a, b[..|b| - 1]);
    }
  }

  lemma {:induction false} UnknownTwice(known: set<string>, more: set<string>, ops: seq<PlanOp>)
    ensures Unknown(known, Unknown(more, ops)) == Unknown(known + more, ops)
  {
    if ops != [] {
      var last := ops[|ops| - 1];
      UnknownTwice(known, more, ops[..|ops| - 1]);
      UnknownConcat(known, Unknown(more, ops[..|ops| - 1]), if last.opId in more then [] else [last]);
    }
  }

  lemma {:induction false} UnknownAt(known: set<string>, ops: seq<PlanOp>, lamport: int)
    ensures At(Unknown(known, ops), lamport) == Unknown(known, At(ops, lamport))
  {
    if ops != [] {
      var front, last := ops[..|ops| - 1], ops[|ops| - 1];
      UnknownAt(known, front, lamport);
      AtConcat(Unknown(known, front), if last.opId in known then [] else [last], lamport);
      UnknownConcat(known, At(front, lamport), if last.lamport == lamport then [last] else []);
    }
  }

  /** Ids that agree on the ids of `ops` hide the same operations. */
  lemma {:induction false} UnknownCongruent(known: set<string>, other: set<string>, ops: seq<PlanOp>)
    requires forall op :: op in ops ==> (op.opId in known <==> op.opId in other)
    ensures Unknown(known, ops) == Unknown(other, ops)
  {
    if ops != [] {
      UnknownCongruent(known, other, ops[..|ops| - 1]);
    }
  }

  lemma {:induction false} UnknownAll(known: set<string>, ops: seq<PlanOp>)
    requires Ids(ops) <= known
    ensures Unknown(known, ops) == []
  {
    if ops != [] {
      assert ops[|ops| - 1].opId in Ids(ops);
      assert Ids(ops[..|ops| - 1]) <= Ids(ops);
      UnknownAll(known, ops[..|ops| - 1]);
    }
  }

  lemma {:induction false} UnknownNone(known: set<string>, ops: seq<PlanOp>)
    requires Ids(ops) !! known
    ensures Unknown(known, ops) == ops
  {
    if ops != [] {
      FrontDisjoint(known, ops);
      UnknownNone(known, ops[..|ops| - 1]);
      FrontAndLast(ops);
    }
  }

  lemma FrontDisjoint(known: set<string>, ops: seq<PlanOp>)
    requires Ids(ops) !! known && ops != []
    ensures Ids(ops[..|ops| - 1]) !! known && ops[|ops| - 1].opId !in known
  {
    assert ops[|ops| - 1].opId in Ids(ops);
    forall op | op in ops[..|ops| - 1] ensures op.opId !in known {
      assert op in ops && op.opId in Ids(ops);
    }
  }

  // ---------- the merged log ----------

  /** Sorting by lamport keeps every tie group, and sorted logs with equal tie groups are equal. */
  lemma SortKeepsGroups(ops: seq<PlanOp>)
    ensures Sorted(Sort(ops, EarlierLamport), EarlierLamport)
    ensures forall op :: op in Sort(ops, EarlierLamport) <==> op in ops
    ensures Ids(Sort(ops, EarlierLamport)) == Ids(ops)
    ensures forall lamport :: At(Sort(ops, EarlierLamport), lamport) == At(ops, lamport)
  {
    SortFacts(ops, EarlierLamport);
    SortMembers(ops, EarlierLamport);
    forall lamport ensures At(Sort(ops, EarlierLamport), lamport) == At(ops, lamport) {
      var x := PlanOp("", "", lamport, "", "", Requires, 0);
      TiesAreAt(ops, x);
      TiesAreAt(Sort(ops, EarlierLamport), x);
    }
  }

  lemma SameGroupsSameLog(a: seq<PlanOp>, b: seq<PlanOp>)
    requires Sorted(a, EarlierLamport) && Sorted(b, EarlierLamport)
    requires forall lamport :: At(a, lamport) == At(b, lamport)
    ensures a == b
  {
    forall x ensures Ties(a, x, EarlierLamport) == Ties(b, x, EarlierLamport) {
      TiesAreAt(a, x);
      TiesAreAt(b, x);
    }
    SortedUnique(a, b, EarlierLamport);
  }

  lemma MergeContents(a: seq<PlanOp>, b: seq<PlanOp>)
    ensures Sorted(MergeLogs(a, b), EarlierLamport)
    ensures forall op :: op in MergeLogs(a, b) <==> op in a || (op in b && op.opId !in Ids(a))
    ensures Ids(MergeLogs(a, b)) == Ids(a) + Ids(b)
  {
    var all := a + Unknown(Ids(a), b);
    SortKeepsGroups(all);
    UnknownMembers(Ids(a), b);
    forall op | op in b ensures op.opId in Ids(a) + Ids(all) {
      assert op.opId in Ids(a) || op in all;
    }
  }

  /** A tie group of a merge: ours in our order, then theirs that we lack in their order. */
  lemma MergeGroup(a: seq<PlanOp>, b: seq<PlanOp>, lamport: int)
    ensures At(MergeLogs(a, b), lamport) == At(a, lamport) + Unknown(Ids(a), At(b, lamport))
  {
    SortKeepsGroups(a + Unknown(Ids(a), b));
    AtConcat(a, Unknown(Ids(a), b), lamport);
    UnknownAt(Ids(a), b, lamport);
  }

  lemma MergeKeepsIds(a: seq<PlanOp>, b: seq<PlanOp>)
    requires UniqueIds(a) && UniqueIds(b)
    ensures UniqueIds(MergeLogs(a, b))
  {
    var all := a + Unknown(Ids(a), b);
    UnknownMembers(Ids(a), b);
    assert UniqueIds(all) by {
      forall i, j | 0 <= i < |a| <= j < |all| ensures all[i].opId != all[j].opId {
        assert all[j] in Unknown(Ids(a), b);
        assert all[i].opId in Ids(a);
      }
    }
    SortFacts(all, EarlierLamport);
    UniqueIdsByCount(all, MergeLogs(a, b));
  }

  /** Unique ids survive a permutation. */
  lemma UniqueIdsByCount(s: seq<PlanOp>, t: seq<PlanOp>)
    requires UniqueIds(s) && multiset(t) == multiset(s)
    ensures UniqueIds(t)
  {
    forall i, j | 0 <= i < j < |t| ensures t[i].opId != t[j].opId {
      if t[i].opId == t[j].opId {
        assert t[i] in multiset(t) && t[j] in multiset(t);
        assert t[i] in s && t[j] in s;
        assert t[i] == t[j];
        assert t == t[..j] + [t[j]] + t[j + 1..];
        assert t[i] in t[..j];
        assert multiset(t)[t[i]] >= 2;
        OnceOnly(s, t[i]);
        assert false;
      }
    }
  }

  lemma {:induction false} OnceOnly(s: seq<PlanOp>, x: PlanOp)
    requires UniqueIds(s)
    ensures multiset(s)[x] <= 1
  {
    if s != [] {
      var front := s[..|s| - 1];
      assert s == front + [s[|s| - 1]];
      OnceOnly(front, x);
      if s[|s| - 1] == x {
        assert x !in front;
      }
    }
  }

  // ---------- the merge laws ----------

  lemma LeftGrouping(a: seq<PlanOp>, b: seq<PlanOp>, c: seq<PlanOp>, lamport: int)
    ensures At(MergeLogs(MergeLogs(a, b), c), lamport)
            == At(a, lamport) + Unknown(Ids(a), At(b, lamport)) + Unknown(Ids(a) + Ids(b), At(c, lamport))
  {
    MergeGroup(MergeLogs(a, b), c, lamport);
    MergeGroup(a, b, lamport);
    MergeContents(a, b);
  }

  lemma RightGrouping(a: seq<PlanOp>, b: seq<PlanOp>, c: seq<PlanOp>, lamport: int)
    ensures At(MergeLogs(a, MergeLogs(b, c)), lamport)
            == At(a, lamport) + Unknown(Ids(a), At(b, lamport) + Unknown(Ids(b), At(c, lamport)))
  {
    MergeGroup(a, MergeLogs(b, c), lamport);
    MergeGroup(b, c, lamport);
  }

  lemma RegroupedGroup(a: seq<PlanOp>, b: seq<PlanOp>, c: seq<PlanOp>, lamport: int)
    ensures At(MergeLogs(MergeLogs(a, b), c), lamport) == At(MergeLogs(a, MergeLogs(b, c)), lamport)
  {
    var x, y, z := At(a, lamport), At(b, lamport), At(c, lamport);
    calc {
      At(MergeLogs(MergeLogs(a, b), c), lamport);
      { LeftGrouping(a, b, c, lamport); }
      x + Unknown(Ids(a), y) + Unknown(Ids(a) + Ids(b), z);
      { UnknownTwice(Ids(a), Ids(b), z); }
      x + Unknown(Ids(a), y) + Unknown(Ids(a), Unknown(Ids(b), z));
      { UnknownConcat(Ids(a), y, Unknown(Ids(b), z)); }
      x + Unknown(Ids(a), y + Unknown(Ids(b), z));
      { RightGrouping(a, b, c, lamport); }
      At(MergeLogs(a, MergeLogs(b, c)), lamport);
    }
  }

  /** Regrouping merges never matters: neither ties nor clashing ids get in the way. */
  lemma MergeAssociative(a: seq<PlanOp>, b: seq<PlanOp>, c: seq<PlanOp>)
    ensures Merged(MergeLogs(a, b), c) == Merged(a, MergeLogs(b, c))
  {
    MergeContents(MergeLogs(a, b), c);
    MergeContents(a, MergeLogs(b, c));
    forall lamport {
      RegroupedGroup(a, b, c, lamport);
    }
    SameGroupsSameLog(MergeLogs(MergeLogs(a, b), c), MergeLogs(a, MergeLogs(b, c)));
  }

  /** Merging something twice, or merging back, changes nothing once the log is a merge result. */
  lemma MergeIdempotent(a: seq<PlanOp>, b: seq<PlanOp>)
    ensures Merged(MergeLogs(a, b), b) == Merged(a, b)
    ensures Merged(MergeLogs(a, b), a) == Merged(a, b)
    ensures Merged(a, a) == DocumentOf(Sort(a, EarlierLamport))
  {
    MergeContents(a, b);
    var m := MergeLogs(a, b);
    UnknownAll(Ids(m), b);
    UnknownAll(Ids(m), a);
    UnknownAll(Ids(a), a);
    assert m + [] == m && a + [] == a;
    SortOfSorted(m, EarlierLamport);
  }

  /** In every tie group, one log's operations are the beginning of the other's. */
  ghost predicate TiesAgree(a: seq<PlanOp>, b: seq<PlanOp>)
  {
    forall lamport :: At(a, lamport) <= At(b, lamport) || At(b, lamport) <= At(a, lamport)
  }

  lemma UniqueIdsSplit(x: seq<PlanOp>, rest: seq<PlanOp>)
    requires UniqueIds(x + rest)
    ensures Ids(rest) !! Ids(x)
  {
    var y := x + rest;
    forall p, q | p in x && q in rest ensures p.opId != q.opId {
      var i :| 0 <= i < |x| && x[i] == p;
      var j :| 0 <= j < |rest| && rest[j] == q;
      assert y[i] == p && y[|x| + j] == q;
    }
  }

  lemma IdsGrow(x: seq<PlanOp>, rest: seq<PlanOp>)
    ensures Ids(x) <= Ids(x + rest)
  {
    assert forall op :: op in x ==> op in x + rest;
  }

  lemma GroupUnion(x: seq<PlanOp>, rest: seq<PlanOp>)
    requires UniqueIds(x + rest)
    ensures Unknown(Ids(x), x + rest) == rest
    ensures Unknown(Ids(x + rest), x) == []
  {
    UnknownConcat(Ids(x), x, rest);
    UnknownAll(Ids(x), x);
    UniqueIdsSplit(x, rest);
    UnknownNone(Ids(x), rest);
    IdsGrow(x, rest);
    UnknownAll(Ids(x + rest), x);
  }

  /** A tie group of a merge mentions only the two tie groups it came from. */
  lemma LocalGroup(a: seq<PlanOp>, b: seq<PlanOp>, lamport: int)
    requires UniqueIds(a) && UniqueIds(b) && Consistent(a, b)
    ensures At(MergeLogs(a, b), lamport) == At(a, lamport) + Unknown(Ids(At(a, lamport)), At(b, lamport))
    ensures UniqueIds(At(a, lamport)) && UniqueIds(At(b, lamport))
  {
    MergeGroup(a, b, lamport);
    AtMembers(a, lamport);
    AtMembers(b, lamport);
    UnknownCongruent(Ids(a), Ids(At(a, lamport)), At(b, lamport));
  }

  lemma UnionCommutesIff(x: seq<PlanOp>, y: seq<PlanOp>)
    requires UniqueIds(x) && UniqueIds(y)
    ensures x + Unknown(Ids(x), y) == y + Unknown(Ids(y), x) <==> x <= y || y <= x
  {
    if x <= y {
      UnionWithLonger(x, y);
    } else if y <= x {
      UnionWithLonger(y, x);
    } else if x + Unknown(Ids(x), y) == y + Unknown(Ids(y), x) {
      PrefixesOfOne(x, Unknown(Ids(x), y), y, Unknown(Ids(y), x));
      assert false;
    }
  }

  /** Two beginnings of one list. */
  lemma PrefixesOfOne(x: seq<PlanOp>, more: seq<PlanOp>, y: seq<PlanOp>, rest: seq<PlanOp>)
    requires x + more == y + rest
    ensures x <= y || y <= x
  {
    var all := x + more;
    assert x == all[..|x|] && y == all[..|y|];
    if |x| <= |y| {
      assert all[..|y|][..|x|] == all[..|x|];
    } else {
      assert all[..|x|][..|y|] == all[..|y|];
    }
  }

  /** A list that goes on from the other is the union of both, from either side. */
  lemma UnionWithLonger(x: seq<PlanOp>, y: seq<PlanOp>)
    requires UniqueIds(y) && x <= y
    ensures x + Unknown(Ids(x), y) == y && y + Unknown(Ids(y), x) == y
  {
    assert y == x + y[|x|..];
    GroupUnion(x, y[|x|..]);
    assert y + [] == y;
  }

  lemma GroupCommutesIff(a: seq<PlanOp>, b: seq<PlanOp>, lamport: int)
    requires UniqueIds(a) && UniqueIds(b) && Consistent(a, b)
    ensures At(MergeLogs(a, b), lamport) == At(MergeLogs(b, a), lamport)
            <==> At(a, lamport) <= At(b, lamport) || At(b, lamport) <= At(a, lamport)
  {
    LocalGroup(a, b, lamport);
    LocalGroup(b, a, lamport);
    UnionCommutesIff(At(a, lamport), At(b, lamport));
  }

  /** Two replicas that merge each other's logs hold the same document exactly when ties agree. */
  lemma MergeCommutesIff(a: seq<PlanOp>, b: seq<PlanOp>)
    requires UniqueIds(a) && UniqueIds(b) && Consistent(a, b)
    ensures Merged(a, b) == Merged(b, a) <==> TiesAgree(a, b)
  {
    forall lamport {
      GroupCommutesIff(a, b, lamport);
    }
    if TiesAgree(a, b) {
      MergeContents(a, b);
      MergeContents(b, a);
      SameGroupsSameLog(MergeLogs(a, b), MergeLogs(b, a));
    }
  }

  lemma {:induction false} DistinctGroup(ops: seq<PlanOp>, lamport: int)
    requires UniqueIds(ops) && DistinctLamports(ops)
    ensures |At(ops, lamport)| <= 1
  {
    AtMembers(ops, lamport);
    var g := At(ops, lamport);
    if g != [] {
      var last := |g| - 1;
      assert g[0] in g && g[last] in g;
      assert g[0].opId == g[last].opId;
    }
  }

  /** Logs with the same operations, both in merged order, are the same document. */
  lemma SameOpsSameDocument(a: seq<PlanOp>, b: seq<PlanOp>)
    requires UniqueIds(a) && UniqueIds(b) && DistinctLamports(a)
    requires Sorted(a, EarlierLamport) && Sorted(b, EarlierLamport)
    requires forall op :: op in a <==> op in b
    ensures DocumentOf(a) == DocumentOf(b)
  {
    forall lamport ensures At(a, lamport) == At(b, lamport) {
      DistinctGroup(a, lamport);
      DistinctGroup(b, lamport);
      AtMembers(a, lamport);
      AtMembers(b, lamport);
      var x, y := At(a, lamport), At(b, lamport);
      if x != [] { assert x[0] in y; }
      if y != [] { assert y[0] in x; }
    }
    SameGroupsSameLog(a, b);
  }

  /** With lamports that never tie, merging is commutative. */
  lemma MergeCommutes(a: seq<PlanOp>, b: seq<PlanOp>)
    requires UniqueIds(a) && UniqueIds(b) && Consistent(a, b) && DistinctLamports(a + b)
    ensures Merged(a, b) == Merged(b, a)
  {
    MergeContents(a, b);
    MergeContents(b, a);
    MergeKeepsIds(a, b);
    MergeKeepsIds(b, a);
    SameOpsSameDocument(MergeLogs(a, b), MergeLogs(b, a));
  }

  /** Two concurrent writes with one lamport leave the replicas with different task states. */
  lemma TiedReplicasDisagree(x: PlanOp, y: PlanOp)
    requires x.opId != y.opId && x.lamport == y.lamport && x.taskId == y.taskId
    requires x.body.SetState? && y.body.SetState? && x.body.state != y.body.state
    ensures Merged([x], [y]).views.tasks != Merged([y], [x]).views.tasks
  {
    TiedMerge(x, y);
    TiedMerge(y, x);
    assert Merged([x], [y]).views.tasks[x.taskId].state != Merged([y], [x]).views.tasks[x.taskId].state;
  }

  lemma TiedMerge(x: PlanOp, y: PlanOp)
    requires x.opId != y.opId && x.lamport == y.lamport && x.taskId == y.taskId
    requires x.body.SetState? && y.body.SetState?
    ensures Merged([x], [y]).views.tasks
            == map[x.taskId := TaskRow(x.threadId, None, x.body.state, x.lamport)]
  {
    UnknownNone(Ids([x]), [y]);
    SortOfSorted([x] + [y], EarlierLamport);
    TwoStates(x, y);
  }

  lemma TwoStates(x: PlanOp, y: PlanOp)
    requires x.lamport == y.lamport && x.taskId == y.taskId && x.body.SetState? && y.body.SetState?
    ensures Replay([x] + [y]).tasks == map[x.taskId := TaskRow(x.threadId, None, x.body.state, x.lamport)]
  {
    var both := [x] + [y];
    assert both[..1] == [x] && [x][..0] == [];
    assert Replay([x]).tasks == ApplyTasks(map[], x);
    assert Replay(both).tasks == ApplyTasks(Replay([x]).tasks, y);
  }
}
