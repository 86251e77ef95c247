/** The deterministic merge of concurrent patches. */
module PatchMerge {
  import opened Collections
  import opened StableSort
  import opened Patches
  import opened CycleDetection

  /** An operation together with the base lamport and the actor of the patch it came in. */
  datatype Entry = Entry(taskId: string, body: PatchBody, base: int, actor: string)

  datatype Kind = KAddTask | KState | KLink | KAnnotate | KRequires | KProduces

  function KindOf(body: PatchBody): Kind
  {
    match body
    case AddTask(_) => KAddTask
    case SetState(_) => KState
    case Link(_, _) => KLink
    case Annotate(_) => KAnnotate
    case Requires => KRequires
    case Produces => KProduces
  }

  predicate HasKey(e: Entry, taskId: string, kind: Kind)
  {
    e.taskId == taskId && KindOf(e.body) == kind
  }

  predicate SameKey(e: Entry, f: Entry)
  {
    HasKey(e, f.taskId, KindOf(f.body))
  }

  /** Position of the entry under a key of an insertion-ordered dictionary, or its size. */
  function IndexOf(d: seq<Entry>, taskId: string, kind: Kind): (i: nat)
    ensures i <= |d|
    ensures i < |d| ==> HasKey(d[i], taskId, kind)
    ensures forall j :: 0 <= j < i ==> !HasKey(d[j], taskId, kind)
  {
    if d == [] then 0
    else
      var i := IndexOf(d[..|d| - 1], taskId, kind);
      if i < |d| - 1 || HasKey(d[|d| - 1], taskId, kind) then i else |d|
  }

  /** `d[key] = e`: an existing key keeps its place, a new one goes last. */
  function Put(d: seq<Entry>, e: Entry): seq<Entry>
  {
    var i := IndexOf(d, e.taskId, KindOf(e.body));
    if i < |d| then d[i := e] else d + [e]
  }

  function Lookup(d: seq<Entry>, taskId: string, kind: Kind): Option<Entry>
  {
    var i := IndexOf(d, taskId, kind);
    if i < |d| then Some(d[i]) else None
  }

  /** Keep the entry already there unless the new one has a strictly higher base lamport. */
  function PutIfNewer(d: seq<Entry>, e: Entry): seq<Entry>
  {
    match Lookup(d, e.taskId, KindOf(e.body))
    case Some(held) => if e.base > held.base then Put(d, e) else d
    case None => Put(d, e)
  }

  datatype Tracker = Tracker(adds: seq<Entry>, others: seq<Entry>, links: seq<Edge>)

  ghost predicate ClosesCycle(links: seq<Edge>, body: PatchBody)
  {
    body.Link? && Cyclic(EdgeSet(links + [(body.parent, body.child)]))
  }

  ghost function Take(t: Tracker, e: Entry): Tracker
  {
    match e.body
    case AddTask(_) => t.(adds := PutIfNewer(t.adds, e))
    case SetState(_) => t.(others := PutIfNewer(t.others, e))
    case Link(parent, child) =>
      if ClosesCycle(t.links, e.body) then t
      else t.(links := t.links + [(parent, child)], others := Put(t.others, e))
    case _ => t.(others := Put(t.others, e))
  }

  ghost function TakeAll(entries: seq<Entry>): Tracker
  {
    if entries == [] then Tracker([], [], [])
    else Take(TakeAll(entries[..|entries| - 1]), entries[|entries| - 1])
  }

  function TagOp(op: OpData, p: PlanPatch): Entry
    requires Mergeable(op)
  {
    Entry(op.taskId.value, BodyOf(op), p.baseLamport, p.actorId)
  }

  function TagOps(p: PlanPatch, n: nat): seq<Entry>
    requires n <= |p.ops| && MergeableUpTo(p, n)
  {
    if n == 0 then [] else TagOps(p, n - 1) + [TagOp(p.ops[n - 1], p)]
  }

  /** A patch's operations as the merge takes them; with a patch it cannot read it fails as a whole. */
  ghost function EntriesOf(p: PlanPatch): seq<Entry>
  {
    if MergeablePatch(p) then TagOps(p, |p.ops|) else []
  }

  /** All operations of the patches, patch by patch. */
  ghost function Flatten(patches: seq<PlanPatch>): seq<Entry>
  {
    if patches == [] then []
    else Flatten(patches[..|patches| - 1]) + EntriesOf(patches[|patches| - 1])
  }

  /** `sorted(patches, key=lambda p: (p.base_lamport, p.actor_id))`. */
  predicate PatchBefore(p: PlanPatch, q: PlanPatch)
  {
    p.baseLamport < q.baseLamport || (p.baseLamport == q.baseLamport && LexLess(p.actorId, q.actorId))
  }

  /** The highest base lamport; without patches nothing is numbered from it. */
  function MaxBase(patches: seq<PlanPatch>): int
  {
    if patches == [] then 0
    else if |patches| == 1 then patches[0].baseLamport
    else
      var m, last := MaxBase(patches[..|patches| - 1]), patches[|patches| - 1].baseLamport;
      if last > m then last else m
  }

  const MERGED_THREAD := "merged"

  datatype MergedOp = MergedOp(
    opId: string,
    threadId: string,
    lamport: int,
    actorId: string,
    taskId: string,
    body: PatchBody,
    timestampNs: int)

  function ToOp(e: Entry, lamport: int, opId: string): MergedOp
  {
    MergedOp(opId, MERGED_THREAD, lamport, e.actor, e.taskId, e.body, 0)
  }

  /** Entries numbered from `start` on; `newId` stands for the uuid drawn for each position. */
  function Emit(entries: seq<Entry>, start: int, newId: nat -> string): (ops: seq<MergedOp>)
    ensures |ops| == |entries|
  {
    if entries == [] then []
    else
      var n := |entries| - 1;
      Emit(entries[..n], start, newId) + [ToOp(entries[n], start + n, newId(n))]
  }

  /** All operations of the patches in the order the merge takes them. */
  ghost function MergeOrder(patches: seq<PlanPatch>): seq<Entry>
  {
    Flatten(Sort(patches, PatchBefore))
  }

  /** The entries the merge emits, in emission order. */
  ghost function Survivors(patches: seq<PlanPatch>): seq<Entry>
  {
    Kept(MergeOrder(patches))
  }

  /** What the tracker holds in the end, ADD_TASKs first. */
  ghost function Kept(order: seq<Entry>): seq<Entry>
  {
    TakeAll(order).adds + TakeAll(order).others
  }

  /** What `MergePatches` returns. */
  ghost function MergeResult(patches: seq<PlanPatch>, newId: nat -> string): seq<MergedOp>
  {
    EmitFrom(MergeOrder(patches), MaxBase(patches), newId)
  }

  ghost function EmitFrom(order: seq<Entry>, maxBase: int, newId: nat -> string): seq<MergedOp>
  {
    Emit(Kept(order), maxBase + 1, newId)
  }

  lemma PatchOrder()
    ensures WeakOrder(PatchBefore)
  {
    forall p, q, r | PatchBefore(p, q) && PatchBefore(q, r) ensures PatchBefore(p, r) {
      if p.baseLamport == q.baseLamport == r.baseLamport {
        LexTransitive(p.actorId, q.actorId, r.actorId);
      }
    }
    forall p ensures !PatchBefore(p, p) {
      LexTotal(p.actorId, p.actorId);
    }
    forall p, q, r | PatchBefore(p, r) ensures PatchBefore(p, q) || PatchBefore(q, r) {
      LexTotal(p.actorId, q.actorId);
      LexTotal(q.actorId, r.actorId);
    }
  }

  lemma FlattenOneMore(patches: seq<PlanPatch>, i: nat)
    requires i < |patches|
    ensures Flatten(patches[..i + 1]) == Flatten(patches[..i]) + EntriesOf(patches[i])
  {
    assert patches[..i + 1][..i] == patches[..i];
  }

  lemma {:induction false} MaxBaseBounds(patches: seq<PlanPatch>)
    requires patches != []
    ensures forall p :: p in patches ==> p.baseLamport <= MaxBase(patches)
    ensures exists p :: p in patches && p.baseLamport == MaxBase(patches)
  {
    assert patches[|patches| - 1] in patches;
    if |patches| > 1 {
      MaxBaseBounds(patches[..|patches| - 1]);
      assert patches == patches[..|patches| - 1] + [patches[|patches| - 1]];
    }
  }

  lemma SortedMaxBase(patches: seq<PlanPatch>)
    ensures MaxBase(Sort(patches, PatchBefore)) == MaxBase(patches)
  {
    PatchOrder();
    SortMembers(patches, PatchBefore);
    if patches != [] {
      assert patches[0] in Sort(patches, PatchBefore);
      MaxBaseBounds(Sort(patches, PatchBefore));
      MaxBaseBounds(patches);
    }
  }

  lemma NothingMerged(newId: nat -> string)
    ensures MergeResult([], newId) == [] && AllReadable([]) && AllMergeable([])
  {
    assert Flatten(Sort([], PatchBefore)) == [];
  }

  datatype MergeError = MissingField | UnknownOpType

  ghost predicate AllReadable(patches: seq<PlanPatch>)
  {
    forall p :: p in patches ==> ReadablePatch(p)
  }

  ghost predicate AllMergeable(patches: seq<PlanPatch>)
  {
    forall p :: p in patches ==> MergeablePatch(p)
  }

  /** What the merge returns or raises: a missing field stops it at once, an unknown type only at the end. */
  function Outcome(readable: bool, mergeable: bool, ops: seq<MergedOp>): Result<seq<MergedOp>, MergeError>
  {
    if !readable then Err(MissingField) else if !mergeable then Err(UnknownOpType) else Ok(ops)
  }

  method MergePatches(patches: seq<PlanPatch>, newId: nat -> string) returns (r: Result<seq<MergedOp>, MergeError>)
    ensures r == Outcome(AllReadable(patches), AllMergeable(patches), MergeResult(patches, newId))
  {
    if patches == [] {
      NothingMerged(newId);
      return Ok([]);
    }
    r := MergeSome(patches, newId);
  }

  method MergeSome(patches: seq<PlanPatch>, newId: nat -> string) returns (r: Result<seq<MergedOp>, MergeError>)
    ensures r == Outcome(AllReadable(patches), AllMergeable(patches),
                         EmitFrom(MergeOrder(patches), MaxBase(patches), newId))
  {
    var sorted := SortPatches(patches);
    r := MergeSorted(sorted, MergeOrder(patches), MaxBase(sorted), newId);
  }

  /** The patches in merge order: the same patches, so with the same faults and the same highest base. */
  method SortPatches(patches: seq<PlanPatch>) returns (sorted: seq<PlanPatch>)
    ensures Flatten(sorted) == MergeOrder(patches) && MaxBase(sorted) == MaxBase(patches)
    ensures AllReadable(sorted) == AllReadable(patches) && AllMergeable(sorted) == AllMergeable(patches)
  {
    SortedSame(patches);
    SortedMaxBase(patches);
    sorted := Sort(patches, PatchBefore);
  }

  lemma SortedSame(patches: seq<PlanPatch>)
    ensures AllReadable(Sort(patches, PatchBefore)) <==> AllReadable(patches)
    ensures AllMergeable(Sort(patches, PatchBefore)) <==> AllMergeable(patches)
  {
    PatchOrder();
    SortMembers(patches, PatchBefore);
    SamePatches(patches, Sort(patches, PatchBefore));
  }

  lemma SamePatches(a: seq<PlanPatch>, b: seq<PlanPatch>)
    requires forall p :: p in a <==> p in b
    ensures AllReadable(a) <==> AllReadable(b)
    ensures AllMergeable(a) <==> AllMergeable(b)
  {
  }

  /** The two phases: tracking, then emission. */
  method MergeSorted(sorted: seq<PlanPatch>, ghost order: seq<Entry>, maxBase: int, newId: nat -> string)
    returns (r: Result<seq<MergedOp>, MergeError>)
    requires order == Flatten(sorted)
    ensures r == Outcome(AllReadable(sorted), AllMergeable(sorted), EmitFrom(order, maxBase, newId))
  {
    var readable, known, t := TrackPatches(sorted);
    if !readable {
      return Err(MissingField);
    }
    if !known {
      return Err(UnknownOpType);
    }
    var result := EmitTracked(t, maxBase, newId);
    r := Ok(result);
  }

  lemma AllOneMore(patches: seq<PlanPatch>, i: nat)
    requires i < |patches|
    ensures AllReadable(patches[..i + 1]) <==> AllReadable(patches[..i]) && ReadablePatch(patches[i])
    ensures AllMergeable(patches[..i + 1]) <==> AllMergeable(patches[..i]) && MergeablePatch(patches[i])
  {
    assert patches[..i + 1] == patches[..i] + [patches[i]] && patches[i] in patches;
  }

  /**
   * The tracking loop over the patches in merge order. `known` says that no operation has a type that
   * emission would fail on; what is tracked after one that has no longer matters.
   */
  method TrackPatches(sorted: seq<PlanPatch>) returns (readable: bool, known: bool, t: Tracker)
    ensures readable <==> AllReadable(sorted)
    ensures readable ==> (known <==> AllMergeable(sorted))
    ensures readable && known ==> t == TakeAll(Flatten(sorted))
  {
    readable, known, t := true, true, Tracker([], [], []);
    for i := 0 to |sorted|
      invariant AllReadable(sorted[..i]) && (known <==> AllMergeable(sorted[..i]))
      invariant known ==> t == TakeAll(Flatten(sorted[..i]))
    {
      FlattenOneMore(sorted, i);
      AllOneMore(sorted, i);
      var allKnown;
      readable, allKnown, t := MergePatch(t, sorted[i], Flatten(sorted[..i]), known);
      if !readable {
        assert !ReadablePatch(sorted[i]) && sorted[i] in sorted;
        return;
      }
      known := known && allKnown;
    }
    assert sorted[..|sorted|] == sorted;
  }

  /** The two emission loops: ADD_TASKs first, lamports from one above the highest base. */
  method EmitTracked(t: Tracker, maxBase: int, newId: nat -> string) returns (result: seq<MergedOp>)
    ensures result == Emit(t.adds + t.others, maxBase + 1, newId)
  {
    var currentLamport := maxBase + 1;
    result, currentLamport := EmitEntries([], [], t.adds, maxBase + 1, currentLamport, newId);
    assert [] + t.adds == t.adds;
    result, currentLamport := EmitEntries(result, t.adds, t.others, maxBase + 1, currentLamport, newId);
  }

  /** One emission loop: `more` appended to what was emitted for `done`. */
  method EmitEntries(emitted: seq<MergedOp>, ghost done: seq<Entry>, more: seq<Entry>, ghost start: int,
                     lamport: int, newId: nat -> string)
    returns (result: seq<MergedOp>, lamport': int)
    requires emitted == Emit(done, start, newId) && lamport == start + |done|
    ensures result == Emit(done + more, start, newId)
    ensures lamport' == start + |done| + |more|
  {
    result, lamport' := emitted, lamport;
    assert done + more[..0] == done;
    for i := 0 to |more|
      invariant result == Emit(done + more[..i], start, newId) && lamport' == start + |done| + i
    {
      EmitOneMore(done, more, i, start, newId);
      result := result + [ToOp(more[i], lamport', newId(|result|))];
      lamport' := lamport' + 1;
    }
    assert more[..|more|] == more;
  }

  lemma EmitOneMore(done: seq<Entry>, more: seq<Entry>, i: nat, start: int, newId: nat -> string)
    requires i < |more|
    ensures Emit(done + more[..i + 1], start, newId)
            == Emit(done + more[..i], start, newId) + [ToOp(more[i], start + |done| + i, newId(|done| + i))]
  {
    var longer := done + more[..i + 1];
    assert longer[..|longer| - 1] == done + more[..i] && longer[|longer| - 1] == more[i];
  }

  /** The inner loop: one patch's operations taken into the tracker, in order. */
  method MergePatch(t0: Tracker, patch: PlanPatch, ghost before: seq<Entry>, ghost tracking: bool)
    returns (readable: bool, known: bool, t: Tracker)
    requires tracking ==> t0 == TakeAll(before)
    ensures readable <==> ReadablePatch(patch)
    ensures readable ==> (known <==> MergeablePatch(patch))
    ensures readable && known && tracking ==> t == TakeAll(before + EntriesOf(patch))
  {
    readable, known, t := true, true, t0;
    ghost var taken := before;
    assert before + [] == before;
    for j := 0 to |patch.ops|
      invariant forall i :: 0 <= i < j ==> Readable(patch.ops[i])
      invariant known <==> MergeableUpTo(patch, j)
      invariant known ==> taken == before + TagOps(patch, j)
      invariant known && tracking ==> t == TakeAll(taken)
    {
      var knownOp;
      readable, knownOp, t := MergeOp(t, patch.ops[j], patch, taken, known && tracking);
      if !readable {
        return;
      }
      OneMoreMergeable(patch, j);
      known := known && knownOp;
      if known {
        TagOneMore(before, patch, j);
        taken := taken + [TagOp(patch.ops[j], patch)];
      }
    }
  }

  /** One operation: a missing field raises; an unknown type is filed like any other and raises later. */
  method MergeOp(t0: Tracker, op: OpData, patch: PlanPatch, ghost taken: seq<Entry>, ghost tracking: bool)
    returns (readable: bool, known: bool, t: Tracker)
    requires tracking ==> t0 == TakeAll(taken)
    ensures readable <==> Readable(op)
    ensures readable ==> (known <==> Mergeable(op))
    ensures readable && known && tracking ==> t == TakeAll(taken + [TagOp(op, patch)])
  {
    readable, known, t := Readable(op), false, t0;
    if readable && op.opType.value in OP_TYPES {
      known := true;
      TakeOneMore(taken, TagOp(op, patch));
      t := TakeEntry(t, TagOp(op, patch));
    }
  }

  lemma OneMoreMergeable(patch: PlanPatch, j: nat)
    requires j < |patch.ops|
    ensures MergeableUpTo(patch, j + 1) <==> MergeableUpTo(patch, j) && Mergeable(patch.ops[j])
  {
  }

  lemma TagOneMore(before: seq<Entry>, patch: PlanPatch, j: nat)
    requires j < |patch.ops| && MergeableUpTo(patch, j + 1)
    ensures before + TagOps(patch, j + 1) == before + TagOps(patch, j) + [TagOp(patch.ops[j], patch)]
  {
  }

  lemma TakeOneMore(entries: seq<Entry>, e: Entry)
    ensures TakeAll(entries + [e]) == Take(TakeAll(entries), e)
  {
    assert (entries + [e])[..|entries|] == entries;
  }

  method TakeEntry(t0: Tracker, e: Entry) returns (t: Tracker)
    ensures t == Take(t0, e)
  {
    t := t0;
    match e.body
    case AddTask(_) =>
      t := t.(adds := PutIfNewer(t.adds, e));
    case SetState(_) =>
      t := t.(others := PutIfNewer(t.others, e));
    case Link(parent, child) =>
      var cyclic := DetectCycle(t.links, (parent, child));
      if !cyclic {
        t := t.(links := t.links + [(parent, child)], others := Put(t.others, e));
      }
    case _ =>
      t := t.(others := Put(t.others, e));
  }
}
