/** Which operations survive the merge of patches, and what replaying the survivors shows. */
module PatchWinners {
  import opened Collections
  import opened StableSort
  import opened Patches
  import opened CycleDetection
  import opened PatchMerge

  // ---------- the insertion-ordered dictionaries ----------

  ghost predicate DistinctKeys(d: seq<Entry>)
  {
    forall i, j :: 0 <= i < j < |d| ==> !SameKey(d[i], d[j])
  }

  lemma PutFacts(d: seq<Entry>, e: Entry, taskId: string, kind: Kind)
    requires DistinctKeys(d)
    ensures DistinctKeys(Put(d, e))
    ensures Lookup(Put(d, e), taskId, kind) == if HasKey(e, taskId, kind) then Some(e) else Lookup(d, taskId, kind)
  {
    var d' := Put(d, e);
    var i := IndexOf(d', taskId, kind);
    if HasKey(e, taskId, kind) {
      assert HasKey(d'[IndexOf(d, taskId, kind)], taskId, kind);
    } else if IndexOf(d, taskId, kind) < |d| {
      assert d'[IndexOf(d, taskId, kind)] == d[IndexOf(d, taskId, kind)];
    }
  }

  lemma LookupMember(d: seq<Entry>, e: Entry)
    requires DistinctKeys(d) && e in d
    ensures Lookup(d, e.taskId, KindOf(e.body)) == Some(e)
  {
    var j :| 0 <= j < |d| && d[j] == e;
    var i := IndexOf(d, e.taskId, KindOf(e.body));
    assert i <= j;
    assert i < j ==> SameKey(d[i], d[j]);
  }

  // ---------- who wins ----------

  /** What is held under a key after `e` arrives: the first entry with the highest base lamport. */
  function Better(held: Option<Entry>, e: Entry, taskId: string, kind: Kind): Option<Entry>
  {
    if HasKey(e, taskId, kind) && (held.None? || e.base > held.value.base) then Some(e) else held
  }

  function Best(entries: seq<Entry>, taskId: string, kind: Kind): Option<Entry>
  {
    if entries == [] then None
    else Better(Best(entries[..|entries| - 1], taskId, kind), entries[|entries| - 1], taskId, kind)
  }

  lemma PutIfNewerFacts(d: seq<Entry>, e: Entry, taskId: string, kind: Kind)
    requires DistinctKeys(d)
    ensures DistinctKeys(PutIfNewer(d, e))
    ensures Lookup(PutIfNewer(d, e), taskId, kind) == Better(Lookup(d, taskId, kind), e, taskId, kind)
  {
    PutFacts(d, e, taskId, kind);
  }

  ghost predicate TrackerInvariant(t: Tracker)
  {
    && DistinctKeys(t.adds) && DistinctKeys(t.others)
    && (forall e :: e in t.adds ==> e.body.AddTask?)
    && (forall e :: e in t.others ==> !e.body.AddTask?)
  }

  lemma PutMembers(d: seq<Entry>, e: Entry)
    ensures forall x :: x in Put(d, e) ==> x == e || x in d
    ensures forall x :: x in PutIfNewer(d, e) ==> x == e || x in d
  {
  }

  lemma TakeKeepsInvariant(t: Tracker, e: Entry)
    requires TrackerInvariant(t)
    ensures TrackerInvariant(Take(t, e))
  {
    var d := if e.body.AddTask? then t.adds else t.others;
    PutMembers(d, e);
    PutFacts(d, e, e.taskId, KindOf(e.body));
  }

  lemma {:induction false} TrackerHolds(entries: seq<Entry>)
    ensures TrackerInvariant(TakeAll(entries))
  {
    if entries != [] {
      TrackerHolds(entries[..|entries| - 1]);
      TakeKeepsInvariant(TakeAll(entries[..|entries| - 1]), entries[|entries| - 1]);
    }
  }

  lemma AddSlot(t: Tracker, e: Entry, taskId: string)
    requires TrackerInvariant(t)
    ensures Lookup(Take(t, e).adds, taskId, KAddTask) == Better(Lookup(t.adds, taskId, KAddTask), e, taskId, KAddTask)
  {
    if e.body.AddTask? {
      PutIfNewerFacts(t.adds, e, taskId, KAddTask);
    } else {
      assert Take(t, e).adds == t.adds;
    }
  }

  lemma StateSlot(t: Tracker, e: Entry, taskId: string)
    requires TrackerInvariant(t)
    ensures Lookup(Take(t, e).others, taskId, KState) == Better(Lookup(t.others, taskId, KState), e, taskId, KState)
  {
    if e.body.SetState? {
      PutIfNewerFacts(t.others, e, taskId, KState);
    } else {
      PutFacts(t.others, e, taskId, KState);
    }
  }

  /** The merge keeps, per task, the best ADD_TASK. */
  lemma {:induction false} BestAddKept(entries: seq<Entry>, taskId: string)
    ensures Lookup(TakeAll(entries).adds, taskId, KAddTask) == Best(entries, taskId, KAddTask)
  {
    if entries != [] {
      var before, e := entries[..|entries| - 1], entries[|entries| - 1];
      BestAddKept(before, taskId);
      TrackerHolds(before);
      AddSlot(TakeAll(before), e, taskId);
    }
  }

  /** The merge keeps, per task, the best STATE. */
  lemma {:induction false} BestStateKept(entries: seq<Entry>, taskId: string)
    ensures Lookup(TakeAll(entries).others, taskId, KState) == Best(entries, taskId, KState)
  {
    if entries != [] {
      var before, e := entries[..|entries| - 1], entries[|entries| - 1];
      BestStateKept(before, taskId);
      TrackerHolds(before);
      StateSlot(TakeAll(before), e, taskId);
    }
  }

  /** Entries in (base lamport, actor) order. */
  ghost predicate InMergeOrder(entries: seq<Entry>)
  {
    forall i, j :: 0 <= i <= j < |entries| ==>
      entries[i].base < entries[j].base
      || (entries[i].base == entries[j].base && !LexLess(entries[j].actor, entries[i].actor))
  }

  /** The entry at `i` has the highest base lamport under its key, and is the first that has it. */
  ghost predicate FirstHighest(entries: seq<Entry>, taskId: string, kind: Kind, i: int)
  {
    && 0 <= i < |entries| && HasKey(entries[i], taskId, kind)
    && forall j :: 0 <= j < |entries| && HasKey(entries[j], taskId, kind) ==>
         entries[j].base < entries[i].base || (entries[j].base == entries[i].base && i <= j)
  }

  lemma {:induction false} BestIsFirstHighest(entries: seq<Entry>, taskId: string, kind: Kind)
    ensures match Best(entries, taskId, kind)
            case Some(w) => exists i :: FirstHighest(entries, taskId, kind, i) && entries[i] == w
            case None => forall j :: 0 <= j < |entries| ==> !HasKey(entries[j], taskId, kind)
  {
    if entries != [] {
      var n := |entries| - 1;
      var before := entries[..n];
      BestIsFirstHighest(before, taskId, kind);
      var held, e := Best(before, taskId, kind), entries[n];
      assert Best(entries, taskId, kind) == Better(held, e, taskId, kind);
      match held
      case None =>
        assert HasKey(e, taskId, kind) ==> FirstHighest(entries, taskId, kind, n);
      case Some(w) =>
        var i :| FirstHighest(before, taskId, kind, i) && before[i] == w;
        if HasKey(e, taskId, kind) && e.base > w.base {
          assert FirstHighest(entries, taskId, kind, n);
        } else {
          FirstHighestStays(entries, taskId, kind, i);
        }
    }
  }

  lemma FirstHighestStays(entries: seq<Entry>, taskId: string, kind: Kind, i: int)
    requires entries != [] && FirstHighest(entries[..|entries| - 1], taskId, kind, i)
    requires var e := entries[|entries| - 1]; HasKey(e, taskId, kind) ==> e.base <= entries[i].base
    ensures FirstHighest(entries, taskId, kind, i)
  {
  }

  /** `w` has the highest base lamport; among equals the smallest actor. */
  ghost predicate Wins(entries: seq<Entry>, taskId: string, kind: Kind, w: Entry)
  {
    && w in entries && HasKey(w, taskId, kind)
    && forall e :: e in entries && HasKey(e, taskId, kind) ==>
         e.base < w.base || (e.base == w.base && !LexLess(e.actor, w.actor))
  }

  lemma BestWins(entries: seq<Entry>, taskId: string, kind: Kind)
    requires InMergeOrder(entries)
    ensures match Best(entries, taskId, kind)
            case Some(w) => Wins(entries, taskId, kind, w)
            case None => forall e :: e in entries ==> !HasKey(e, taskId, kind)
  {
    BestIsFirstHighest(entries, taskId, kind);
  }

  // ---------- the order the patches are taken in ----------

  lemma {:induction false} TagOpsFacts(p: PlanPatch, n: nat)
    requires MergeablePatch(p) && n <= |p.ops|
    ensures |TagOps(p, n)| == n
    ensures forall k :: 0 <= k < n ==> TagOps(p, n)[k] == TagOp(p.ops[k], p)
    ensures forall e :: e in TagOps(p, n) ==> e.base == p.baseLamport && e.actor == p.actorId
  {
    if n > 0 {
      TagOpsFacts(p, n - 1);
    }
  }

  /** `e` is operation `k` of patch `p`. */
  ghost predicate IsEntryOf(e: Entry, p: PlanPatch, k: int)
  {
    MergeablePatch(p) && 0 <= k < |p.ops| && e == TagOp(p.ops[k], p)
  }

  lemma EntriesFacts(p: PlanPatch)
    ensures forall e :: e in EntriesOf(p) <==> exists k :: IsEntryOf(e, p, k)
    ensures forall e :: e in EntriesOf(p) ==> e.base == p.baseLamport && e.actor == p.actorId
  {
    if MergeablePatch(p) {
      TagOpsFacts(p, |p.ops|);
      forall k | 0 <= k < |p.ops| ensures TagOp(p.ops[k], p) in EntriesOf(p) {
        assert EntriesOf(p)[k] == TagOp(p.ops[k], p);
      }
      forall e | e in EntriesOf(p) ensures exists k :: IsEntryOf(e, p, k) {
        var k :| 0 <= k < |p.ops| && EntriesOf(p)[k] == e;
        assert IsEntryOf(e, p, k);
      }
    }
  }

  lemma {:induction false} FlattenMembers(patches: seq<PlanPatch>, e: Entry)
    ensures e in Flatten(patches) <==> exists p, k :: p in patches && IsEntryOf(e, p, k)
  {
    if patches != [] {
      var front, last := patches[..|patches| - 1], patches[|patches| - 1];
      FlattenMembers(front, e);
      EntriesFacts(last);
      FrontAndLast(patches);
      if e in EntriesOf(last) {
        var k :| IsEntryOf(e, last, k);
        assert last in patches;
      }
    }
  }

  /** No entry of the earlier patches ranks after the last patch. */
  lemma EarlierEntries(patches: seq<PlanPatch>, e: Entry)
    requires patches != [] && Sorted(patches, PatchBefore) && e in Flatten(patches[..|patches| - 1])
    ensures
      var last := patches[|patches| - 1];
      e.base < last.baseLamport || (e.base == last.baseLamport && !LexLess(last.actorId, e.actor))
  {
    var front := patches[..|patches| - 1];
    FlattenMembers(front, e);
    var p, k :| p in front && IsEntryOf(e, p, k);
    var i :| 0 <= i < |front| && front[i] == p;
    assert !PatchBefore(patches[|patches| - 1], patches[i]);
  }

  lemma {:induction false} FlattenOrdered(patches: seq<PlanPatch>)
    requires Sorted(patches, PatchBefore)
    ensures InMergeOrder(Flatten(patches))
  {
    if patches != [] {
      var front, last := patches[..|patches| - 1], patches[|patches| - 1];
      FlattenOrdered(front);
      EntriesFacts(last);
      LexTotal(last.actorId, last.actorId);
      forall e | e in Flatten(front)
        ensures e.base < last.baseLamport || (e.base == last.baseLamport && !LexLess(last.actorId, e.actor))
      {
        EarlierEntries(patches, e);
      }
      OrderedConcat(Flatten(front), EntriesOf(last), last.baseLamport, last.actorId);
    }
  }

  lemma OrderedConcat(older: seq<Entry>, newer: seq<Entry>, base: int, actor: string)
    requires InMergeOrder(older) && !LexLess(actor, actor)
    requires forall e :: e in newer ==> e.base == base && e.actor == actor
    requires forall e :: e in older ==> e.base < base || (e.base == base && !LexLess(actor, e.actor))
    ensures InMergeOrder(older + newer)
  {
    var all := older + newer;
    forall i, j | 0 <= i <= j < |all|
      ensures all[i].base < all[j].base || (all[i].base == all[j].base && !LexLess(all[j].actor, all[i].actor))
    {
      if j >= |older| {
        assert all[j] in newer;
        assert i < |older| ==> all[i] in older;
        assert i >= |older| ==> all[i] in newer;
      }
    }
  }

  lemma MergeOrderFacts(patches: seq<PlanPatch>)
    ensures InMergeOrder(MergeOrder(patches))
    ensures forall e :: e in MergeOrder(patches) <==> exists p, k :: p in patches && IsEntryOf(e, p, k)
  {
    var sorted := Sort(patches, PatchBefore);
    PatchOrder();
    SortFacts(patches, PatchBefore);
    SortMembers(patches, PatchBefore);
    FlattenOrdered(sorted);
    forall e ensures e in MergeOrder(patches) <==> exists p, k :: p in sorted && IsEntryOf(e, p, k) {
      FlattenMembers(sorted, e);
    }
  }

  /** Entry `i` of the flattened patches is operation `k` of `p`, right after the earlier operations of `p`. */
  ghost predicate ComesFrom(entries: seq<Entry>, i: int, p: PlanPatch, k: int)
  {
    && MergeablePatch(p) && 0 <= k < |p.ops| && k <= i < |entries|
    && forall j :: 0 <= j <= k ==> entries[i - k + j] == TagOp(p.ops[j], p)
  }

  lemma ComesFromLast(older: seq<Entry>, p: PlanPatch, k: nat)
    requires k < |EntriesOf(p)|
    ensures ComesFrom(older + EntriesOf(p), |older| + k, p, k)
  {
    TagOpsFacts(p, |p.ops|);
    forall j | 0 <= j <= k ensures (older + EntriesOf(p))[|older| + j] == TagOp(p.ops[j], p) {
      assert EntriesOf(p)[j] == TagOp(p.ops[j], p);
    }
  }

  lemma {:induction false} Locate(patches: seq<PlanPatch>, i: nat) returns (p: PlanPatch, k: nat)
    requires i < |Flatten(patches)|
    ensures p in patches && ComesFrom(Flatten(patches), i, p, k)
  {
    var front, last := patches[..|patches| - 1], patches[|patches| - 1];
    FrontAndLast(patches);
    var older := Flatten(front);
    if i < |older| {
      p, k := Locate(front, i);
    } else {
      p, k := last, i - |older|;
      ComesFromLast(older, last, k);
    }
  }

  ghost predicate OpHasKey(p: PlanPatch, k: int, taskId: string, kind: Kind)
  {
    MergeablePatch(p) && 0 <= k < |p.ops| && HasKey(TagOp(p.ops[k], p), taskId, kind)
  }

  /** The first operation on the key in a patch that no patch with such an operation outranks. */
  ghost predicate WinningOp(patches: seq<PlanPatch>, p: PlanPatch, k: int, taskId: string, kind: Kind)
  {
    && p in patches && OpHasKey(p, k, taskId, kind)
    && (forall j :: 0 <= j < k ==> !OpHasKey(p, j, taskId, kind))
    && (forall q, j :: q in patches && OpHasKey(q, j, taskId, kind) ==>
          q.baseLamport < p.baseLamport || (q.baseLamport == p.baseLamport && !LexLess(q.actorId, p.actorId)))
  }

  lemma OpInOrder(patches: seq<PlanPatch>, p: PlanPatch, k: int)
    requires p in patches && MergeablePatch(p) && 0 <= k < |p.ops|
    ensures TagOp(p.ops[k], p) in MergeOrder(patches)
  {
    MergeOrderFacts(patches);
    assert IsEntryOf(TagOp(p.ops[k], p), p, k);
  }

  lemma WinnerOutranks(patches: seq<PlanPatch>, p: PlanPatch, k: int, q: PlanPatch, j: int, taskId: string, kind: Kind)
    requires OpHasKey(p, k, taskId, kind) && q in patches && OpHasKey(q, j, taskId, kind)
    requires Best(MergeOrder(patches), taskId, kind) == Some(TagOp(p.ops[k], p))
    ensures q.baseLamport < p.baseLamport || (q.baseLamport == p.baseLamport && !LexLess(q.actorId, p.actorId))
  {
    OpInOrder(patches, q, j);
    MergeOrderFacts(patches);
    BestWins(MergeOrder(patches), taskId, kind);
  }

  lemma LocateWinner(patches: seq<PlanPatch>, taskId: string, kind: Kind) returns (p: PlanPatch, k: nat)
    requires Best(MergeOrder(patches), taskId, kind).Some?
    ensures p in patches && OpHasKey(p, k, taskId, kind)
    ensures Best(MergeOrder(patches), taskId, kind) == Some(TagOp(p.ops[k], p))
    ensures forall j :: 0 <= j < k ==> !OpHasKey(p, j, taskId, kind)
  {
    var order := MergeOrder(patches);
    BestIsFirstHighest(order, taskId, kind);
    var i :| FirstHighest(order, taskId, kind, i) && order[i] == Best(order, taskId, kind).value;
    PatchOrder();
    SortMembers(patches, PatchBefore);
    p, k := Locate(Sort(patches, PatchBefore), i);
    FirstInPatch(order, i, p, k, taskId, kind);
  }

  /** The winner, told from the patches: highest base lamport, then smallest actor, then first in its patch. */
  lemma WinnerAmongPatches(patches: seq<PlanPatch>, taskId: string, kind: Kind)
    ensures match Best(MergeOrder(patches), taskId, kind)
            case Some(w) => exists p, k :: WinningOp(patches, p, k, taskId, kind) && w == TagOp(p.ops[k], p)
            case None => forall p, k :: p in patches ==> !OpHasKey(p, k, taskId, kind)
  {
    var order := MergeOrder(patches);
    match Best(order, taskId, kind)
    case Some(w) =>
      var p, k := LocateWinner(patches, taskId, kind);
      forall q, j | q in patches && OpHasKey(q, j, taskId, kind)
        ensures q.baseLamport < p.baseLamport || (q.baseLamport == p.baseLamport && !LexLess(q.actorId, p.actorId))
      {
        WinnerOutranks(patches, p, k, q, j, taskId, kind);
      }
      assert WinningOp(patches, p, k, taskId, kind);
    case None =>
      forall p, k | p in patches ensures !OpHasKey(p, k, taskId, kind) {
        if OpHasKey(p, k, taskId, kind) {
          NoneBest(patches, p, k, taskId, kind);
          assert false;
        }
      }
  }

  lemma NoneBest(patches: seq<PlanPatch>, p: PlanPatch, k: int, taskId: string, kind: Kind)
    requires p in patches && OpHasKey(p, k, taskId, kind)
    ensures Best(MergeOrder(patches), taskId, kind).Some?
  {
    OpInOrder(patches, p, k);
    MergeOrderFacts(patches);
    BestWins(MergeOrder(patches), taskId, kind);
  }

  lemma FirstInPatch(entries: seq<Entry>, i: nat, p: PlanPatch, k: nat, taskId: string, kind: Kind)
    requires ComesFrom(entries, i, p, k) && FirstHighest(entries, taskId, kind, i)
    ensures entries[i] == TagOp(p.ops[k], p) && OpHasKey(p, k, taskId, kind)
    ensures forall j :: 0 <= j < k ==> !OpHasKey(p, j, taskId, kind)
  {
    assert entries[i - k + k] == TagOp(p.ops[k], p);
    forall j | 0 <= j < k ensures !OpHasKey(p, j, taskId, kind) {
      assert entries[i - k + j] == TagOp(p.ops[j], p);
    }
  }

  ghost predicate PatchKeysDistinct(patches: seq<PlanPatch>)
  {
    forall p, q :: p in patches && q in patches && p.baseLamport == q.baseLamport && p.actorId == q.actorId ==> p == q
  }

  lemma SortForgetsOrder(patches: seq<PlanPatch>, shuffled: seq<PlanPatch>)
    requires multiset(patches) == multiset(shuffled) && PatchKeysDistinct(patches)
    ensures Sort(patches, PatchBefore) == Sort(shuffled, PatchBefore)
  {
    PatchOrder();
    SortFacts(patches, PatchBefore);
    SortFacts(shuffled, PatchBefore);
    SortMembers(patches, PatchBefore);
    var s := Sort(patches, PatchBefore);
    forall p, q | p in s && q in s && !PatchBefore(p, q) && !PatchBefore(q, p) ensures p == q {
      LexTotal(p.actorId, q.actorId);
    }
    SortedPermutationUnique(s, Sort(shuffled, PatchBefore), PatchBefore);
  }

  /** Input order is forgotten when (base lamport, actor) identifies a patch. */
  lemma MergeOrderFree(patches: seq<PlanPatch>, shuffled: seq<PlanPatch>, newId: nat -> string)
    requires multiset(patches) == multiset(shuffled) && PatchKeysDistinct(patches)
    ensures MergeResult(patches, newId) == MergeResult(shuffled, newId)
  {
    SortForgetsOrder(patches, shuffled);
    assert MaxBase(patches) == MaxBase(shuffled) by {
      SortedMaxBase(patches);
      SortedMaxBase(shuffled);
    }
    assert MergeOrder(patches) == MergeOrder(shuffled);
  }

  // ---------- links ----------

  ghost predicate LinksInvariant(t: Tracker)
  {
    && !Cyclic(EdgeSet(t.links))
    && forall e :: e in t.others && e.body.Link? ==> (e.body.parent, e.body.child) in t.links
  }

  lemma EmptyIsAcyclic()
    ensures !Cyclic({})
  {
    forall p | |p| >= 2 ensures !IsPath({}, p) {
      var none: set<Edge> := {};
      assert (p[0], p[0 + 1]) !in none;
    }
  }

  /** The accepted links are acyclic, whatever the patches say. */
  lemma {:induction false} LinksStayAcyclic(entries: seq<Entry>)
    ensures LinksInvariant(TakeAll(entries))
  {
    if entries == [] {
      EmptyIsAcyclic();
      assert EdgeSet([]) == {};
    } else {
      var before, e := entries[..|entries| - 1], entries[|entries| - 1];
      LinksStayAcyclic(before);
    }
  }

  lemma AcceptedGrow(t: Tracker, e: Entry)
    ensures EdgeSet(t.links) <= EdgeSet(Take(t, e).links)
  {
  }

  /** No link is dropped without need: each one left out would close a cycle with those accepted. */
  lemma {:induction false} DroppedLinksCloseCycles(entries: seq<Entry>, e: Entry)
    requires e in entries && e.body.Link?
    ensures
      var accepted := EdgeSet(TakeAll(entries).links);
      var edge := (e.body.parent, e.body.child);
      edge in accepted || Cyclic(accepted + {edge})
  {
    var before, last := entries[..|entries| - 1], entries[|entries| - 1];
    var edge := (e.body.parent, e.body.child);
    var t, t' := TakeAll(before), TakeAll(entries);
    assert entries == before + [last];
    AcceptedGrow(t, last);
    if e in before {
      DroppedLinksCloseCycles(before, e);
      if edge !in EdgeSet(t.links) && !Cyclic(EdgeSet(t'.links) + {edge}) {
        FewerEdgesStayAcyclic(EdgeSet(t'.links) + {edge}, EdgeSet(t.links) + {edge});
        assert false;
      }
    } else {
      assert EdgeSet(t.links + [edge]) == EdgeSet(t.links) + {edge};
    }
  }

  /** The LINK at position `i` passed the cycle test. */
  ghost predicate Accepted(entries: seq<Entry>, i: int)
  {
    0 <= i < |entries| && entries[i].body.Link? && !ClosesCycle(TakeAll(entries[..i]).links, entries[i].body)
  }

  ghost predicate LastAccepted(entries: seq<Entry>, taskId: string, i: int)
  {
    && Accepted(entries, i) && entries[i].taskId == taskId
    && forall j :: i < j < |entries| && Accepted(entries, j) ==> entries[j].taskId != taskId
  }

  lemma AcceptedPrefix(entries: seq<Entry>, i: int)
    requires entries != [] && i < |entries| - 1
    ensures Accepted(entries, i) <==> Accepted(entries[..|entries| - 1], i)
  {
    if i >= 0 {
      assert entries[..i] == entries[..|entries| - 1][..i];
    }
  }

  lemma LinkSlot(t: Tracker, e: Entry, taskId: string)
    requires TrackerInvariant(t)
    ensures Lookup(Take(t, e).others, taskId, KLink)
            == if e.body.Link? && !ClosesCycle(t.links, e.body) && e.taskId == taskId then Some(e)
               else Lookup(t.others, taskId, KLink)
  {
    if e.body.AddTask? {
      assert Take(t, e).others == t.others;
    } else if e.body.SetState? {
      PutIfNewerFacts(t.others, e, taskId, KLink);
    } else if !e.body.Link? {
      PutFacts(t.others, e, taskId, KLink);
    } else if !ClosesCycle(t.links, e.body) {
      PutFacts(t.others, e, taskId, KLink);
    }
  }

  lemma KeepLastAccepted(entries: seq<Entry>, taskId: string, i: int)
    requires entries != [] && LastAccepted(entries[..|entries| - 1], taskId, i)
    requires Accepted(entries, |entries| - 1) ==> entries[|entries| - 1].taskId != taskId
    ensures LastAccepted(entries, taskId, i)
  {
    AcceptedPrefix(entries, i);
    forall j | i < j < |entries| && Accepted(entries, j) ensures entries[j].taskId != taskId {
      if j < |entries| - 1 {
        AcceptedPrefix(entries, j);
      }
    }
  }

  /** Links are emitted under (task, LINK): of the accepted links of a task only the last survives. */
  lemma {:induction false} LastLinkKept(entries: seq<Entry>, taskId: string)
    ensures match Lookup(TakeAll(entries).others, taskId, KLink)
            case Some(e) => exists i :: LastAccepted(entries, taskId, i) && entries[i] == e
            case None => forall i :: Accepted(entries, i) ==> entries[i].taskId != taskId
  {
    if entries != [] {
      var n := |entries| - 1;
      var before, e := entries[..n], entries[n];
      LastLinkKept(before, taskId);
      TrackerHolds(before);
      LinkSlot(TakeAll(before), e, taskId);
      forall i | i < n {
        AcceptedPrefix(entries, i);
      }
      if Accepted(entries, n) && e.taskId == taskId {
        assert LastAccepted(entries, taskId, n);
      } else {
        match Lookup(TakeAll(before).others, taskId, KLink)
        case Some(kept) =>
          var i :| LastAccepted(before, taskId, i) && before[i] == kept;
          KeepLastAccepted(entries, taskId, i);
        case None =>
          forall i | Accepted(entries, i) ensures entries[i].taskId != taskId {
            assert i < n ==> Accepted(before, i);
          }
      }
    }
  }

  ghost predicate AllLinksEmitted(entries: seq<Entry>)
  {
    forall i :: Accepted(entries, i) ==> entries[i] in TakeAll(entries).others
  }

  ghost predicate OneLinkPerTask(entries: seq<Entry>)
  {
    forall i, j :: Accepted(entries, i) && Accepted(entries, j) && entries[i].taskId == entries[j].taskId
      ==> entries[i] == entries[j]
  }

  /** Every accepted link is emitted exactly when no task carries two different accepted links. */
  lemma AllLinksEmittedIff(entries: seq<Entry>)
    ensures AllLinksEmitted(entries) <==> OneLinkPerTask(entries)
  {
    var others := TakeAll(entries).others;
    TrackerHolds(entries);
    if AllLinksEmitted(entries) {
      forall i, j | Accepted(entries, i) && Accepted(entries, j) && entries[i].taskId == entries[j].taskId
        ensures entries[i] == entries[j]
      {
        LookupMember(others, entries[i]);
        LookupMember(others, entries[j]);
      }
    }
    if OneLinkPerTask(entries) {
      forall i | Accepted(entries, i) ensures entries[i] in others {
        LastLinkKept(entries, entries[i].taskId);
        var e := Lookup(others, entries[i].taskId, KLink).value;
        var k :| LastAccepted(entries, entries[i].taskId, k) && entries[k] == e;
      }
    }
  }

  /** A task with two links loses the first of them. */
  lemma TwoLinksOneTask(t: string, a: string, b: string, c: string, base: int, actor: string)
    requires a != b && a != c && b != c
    ensures
      var first, second := Entry(t, Link(a, b), base, actor), Entry(t, Link(a, c), base, actor);
      Accepted([first, second], 0) && first !in TakeAll([first, second]).others
  {
    var first, second := Entry(t, Link(a, b), base, actor), Entry(t, Link(a, c), base, actor);
    var entries := [first, second];
    FanOutIsAcyclic(EdgeSet([(a, b)]), a);
    FanOutIsAcyclic(EdgeSet([(a, b), (a, c)]), a);
    assert entries[..0] == [] && entries[..1] == [first] && [first][..0] == [];
    assert [] + [(a, b)] == [(a, b)] && [(a, b)] + [(a, c)] == [(a, b), (a, c)];
    assert Take(Tracker([], [], []), first) == Tracker([], [first], [(a, b)]);
    assert TakeAll([first]).links == [(a, b)];
    assert Accepted(entries, 0) && Accepted(entries, 1);
    TrackerHolds(entries);
    LastLinkKept(entries, t);
    var kept := Lookup(TakeAll(entries).others, t, KLink).value;
    var i :| LastAccepted(entries, t, i) && entries[i] == kept;
    assert kept == second;
    if first in TakeAll(entries).others {
      LookupMember(TakeAll(entries).others, first);
    }
  }

  lemma FanOutIsAcyclic(edges: set<Edge>, a: string)
    requires forall e :: e in edges ==> e.0 == a && e.1 != a
    ensures !Cyclic(edges)
  {
    forall p | |p| >= 2 && IsPath(edges, p) ensures p[0] != p[|p| - 1] {
      assert (p[0], p[0 + 1]) in edges;
      assert (p[|p| - 2], p[|p| - 2 + 1]) in edges;
    }
  }

  // ---------- the other operations ----------

  predicate IsOther(kind: Kind)
  {
    kind in {KAnnotate, KRequires, KProduces}
  }

  function LastOf(entries: seq<Entry>, taskId: string, kind: Kind): Option<Entry>
  {
    if entries == [] then None
    else if HasKey(entries[|entries| - 1], taskId, kind) then Some(entries[|entries| - 1])
    else LastOf(entries[..|entries| - 1], taskId, kind)
  }

  lemma OtherSlot(t: Tracker, e: Entry, taskId: string, kind: Kind)
    requires TrackerInvariant(t) && IsOther(kind)
    ensures Lookup(Take(t, e).others, taskId, kind)
            == if HasKey(e, taskId, kind) then Some(e) else Lookup(t.others, taskId, kind)
  {
    if e.body.SetState? {
      PutIfNewerFacts(t.others, e, taskId, kind);
    } else {
      PutFacts(t.others, e, taskId, kind);
    }
  }

  /** Of the ANNOTATEs of a task only the last in merge order survives; so of its REQUIRES and of its PRODUCES. */
  lemma {:induction false} LastOtherKept(entries: seq<Entry>, taskId: string, kind: Kind)
    requires IsOther(kind)
    ensures Lookup(TakeAll(entries).others, taskId, kind) == LastOf(entries, taskId, kind)
  {
    if entries != [] {
      var before, e := entries[..|entries| - 1], entries[|entries| - 1];
      LastOtherKept(before, taskId, kind);
      TrackerHolds(before);
      OtherSlot(TakeAll(before), e, taskId, kind);
    }
  }

  lemma {:induction false} LastOfMember(entries: seq<Entry>, taskId: string, kind: Kind)
    ensures match LastOf(entries, taskId, kind)
            case Some(w) => w in entries && HasKey(w, taskId, kind)
            case None => forall e :: e in entries ==> !HasKey(e, taskId, kind)
  {
    if entries != [] {
      assert entries == entries[..|entries| - 1] + [entries[|entries| - 1]];
      LastOfMember(entries[..|entries| - 1], taskId, kind);
    }
  }

  ghost predicate AllOthersEmitted(entries: seq<Entry>)
  {
    forall e :: e in entries && IsOther(KindOf(e.body)) ==> e in TakeAll(entries).others
  }

  ghost predicate OneOtherPerKey(entries: seq<Entry>)
  {
    forall e, f :: e in entries && f in entries && IsOther(KindOf(e.body)) && SameKey(e, f) ==> e == f
  }

  /** All of them are kept exactly when no task carries two different ones of one type. */
  lemma AllOthersEmittedIff(entries: seq<Entry>)
    ensures AllOthersEmitted(entries) <==> OneOtherPerKey(entries)
  {
    var others := TakeAll(entries).others;
    TrackerHolds(entries);
    if AllOthersEmitted(entries) {
      forall e, f | e in entries && f in entries && IsOther(KindOf(e.body)) && SameKey(e, f) ensures e == f {
        LookupMember(others, e);
        LookupMember(others, f);
      }
    }
    if OneOtherPerKey(entries) {
      forall e | e in entries && IsOther(KindOf(e.body)) ensures e in others {
        LastOtherKept(entries, e.taskId, KindOf(e.body));
        LastOfMember(entries, e.taskId, KindOf(e.body));
        assert SameKey(e, LastOf(entries, e.taskId, KindOf(e.body)).value);
      }
    }
  }

  /** Two annotations of one task by one patch: the first is not emitted. */
  lemma TwoNotesOneTask(t: string, a: map<string, string>, b: map<string, string>, base: int, actor: string)
    requires a != b
    ensures
      var first, second := Entry(t, Annotate(a), base, actor), Entry(t, Annotate(b), base, actor);
      var others := TakeAll([first, second]).others;
      second in others && first !in others
  {
    var first, second := Entry(t, Annotate(a), base, actor), Entry(t, Annotate(b), base, actor);
    var entries := [first, second];
    TrackerHolds(entries);
    LastOtherKept(entries, t, KAnnotate);
    if first in TakeAll(entries).others {
      LookupMember(TakeAll(entries).others, first);
    }
  }

  // ---------- the emitted operations ----------

  /** Consecutive lamports, in the order of the entries. */
  lemma {:induction false} EmitFacts(entries: seq<Entry>, start: int, newId: nat -> string)
    ensures forall i :: 0 <= i < |entries| ==>
              Emit(entries, start, newId)[i] == ToOp(entries[i], start + i, newId(i))
  {
    if entries != [] {
      EmitFacts(entries[..|entries| - 1], start, newId);
    }
  }

  /** All ADD_TASKs come before everything else, one per key. */
  lemma SurvivorsOrder(patches: seq<PlanPatch>)
    ensures forall i, j :: 0 <= i < j < |Survivors(patches)| && Survivors(patches)[j].body.AddTask? ==>
              Survivors(patches)[i].body.AddTask?
    ensures DistinctKeys(Survivors(patches))
  {
    var t := TakeAll(MergeOrder(patches));
    TrackerHolds(MergeOrder(patches));
    forall i | 0 <= i < |t.adds + t.others|
      ensures (t.adds + t.others)[i].body.AddTask? <==> i < |t.adds|
    {
      assert i < |t.adds| ==> (t.adds + t.others)[i] in t.adds;
      assert i >= |t.adds| ==> (t.adds + t.others)[i] in t.others;
    }
  }
}
