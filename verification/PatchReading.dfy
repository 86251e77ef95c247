/** The merge of patches in terms of the dictionaries they consist of. */
module PatchReading {
  import opened Collections
  import opened StableSort
  import opened PlanOps
  import opened Patches
  import opened CycleDetection
  import opened PatchMerge
  import opened PatchWinners
  import opened MergedPlan

  /** Entry `k` of the patch is a dictionary with this type and task. */
  ghost predicate IsRaw(p: PlanPatch, k: int, opType: string, t: string)
  {
    0 <= k < |p.ops| && p.ops[k].opType == Some(opType) && p.ops[k].taskId == Some(t)
  }

  ghost predicate HasRaw(p: PlanPatch, opType: string, t: string)
  {
    exists k :: IsRaw(p, k, opType, t)
  }

  /** Entry `k` is the patch's first of its type on the task. */
  ghost predicate FirstRaw(p: PlanPatch, k: int, opType: string, t: string)
  {
    IsRaw(p, k, opType, t) && forall j :: 0 <= j < k ==> !IsRaw(p, j, opType, t)
  }

  /** Entry `k` is the patch's last of its type on the task. */
  ghost predicate LastRaw(p: PlanPatch, k: int, opType: string, t: string)
  {
    IsRaw(p, k, opType, t) && forall j :: k < j < |p.ops| ==> !IsRaw(p, j, opType, t)
  }

  /** The higher base lamport; among equals the smaller actor; among equals the one given earlier. */
  ghost predicate Prevails(p: PlanPatch, i: int, q: PlanPatch, j: int)
  {
    || p.baseLamport > q.baseLamport
    || (p.baseLamport == q.baseLamport && (LexLess(p.actorId, q.actorId) || (p.actorId == q.actorId && i <= j)))
  }

  /** The higher base lamport; among equals the greater actor; among equals the one given later. */
  ghost predicate ComesLast(p: PlanPatch, i: int, q: PlanPatch, j: int)
  {
    || p.baseLamport > q.baseLamport
    || (p.baseLamport == q.baseLamport && (LexLess(q.actorId, p.actorId) || (p.actorId == q.actorId && i >= j)))
  }

  /** The first entry of this type on the task in the patch that prevails over all others with one. */
  ghost predicate TopEntry(patches: seq<PlanPatch>, i: int, k: int, opType: string, t: string)
  {
    && 0 <= i < |patches| && FirstRaw(patches[i], k, opType, t)
    && forall j :: 0 <= j < |patches| && HasRaw(patches[j], opType, t) ==> Prevails(patches[i], i, patches[j], j)
  }

  /** The last entry of this type on the task in the patch that comes after all others with one. */
  ghost predicate LatestEntry(patches: seq<PlanPatch>, i: int, k: int, opType: string, t: string)
  {
    && 0 <= i < |patches| && LastRaw(patches[i], k, opType, t)
    && forall j :: 0 <= j < |patches| && HasRaw(patches[j], opType, t) ==> ComesLast(patches[i], i, patches[j], j)
  }

  ghost predicate AnyRaw(patches: seq<PlanPatch>, opType: string, t: string)
  {
    exists i :: 0 <= i < |patches| && HasRaw(patches[i], opType, t)
  }

  // ---------- there is a top entry, and a latest ----------

  lemma PrevailsTotal(p: PlanPatch, i: int, q: PlanPatch, j: int, r: PlanPatch, l: int)
    ensures Prevails(p, i, q, j) || Prevails(q, j, p, i)
    ensures Prevails(p, i, q, j) && Prevails(q, j, r, l) ==> Prevails(p, i, r, l)
    ensures ComesLast(p, i, q, j) || ComesLast(q, j, p, i)
    ensures ComesLast(p, i, q, j) && ComesLast(q, j, r, l) ==> ComesLast(p, i, r, l)
  {
    LexTotal(p.actorId, q.actorId);
    if LexLess(p.actorId, q.actorId) && LexLess(q.actorId, r.actorId) {
      LexTransitive(p.actorId, q.actorId, r.actorId);
    }
    if LexLess(r.actorId, q.actorId) && LexLess(q.actorId, p.actorId) {
      LexTransitive(r.actorId, q.actorId, p.actorId);
    }
  }

  /** Of the first `n` patches, the one that prevails, and the one that comes last. */
  lemma {:induction false} BestPatch(patches: seq<PlanPatch>, n: nat, opType: string, t: string) returns (a: nat, b: nat)
    requires n <= |patches| && exists i :: 0 <= i < n && HasRaw(patches[i], opType, t)
    ensures a < n && HasRaw(patches[a], opType, t) && b < n && HasRaw(patches[b], opType, t)
    ensures forall j :: 0 <= j < n && HasRaw(patches[j], opType, t) ==> Prevails(patches[a], a, patches[j], j)
    ensures forall j :: 0 <= j < n && HasRaw(patches[j], opType, t) ==> ComesLast(patches[b], b, patches[j], j)
  {
    var m := n - 1;
    if exists i :: 0 <= i < m && HasRaw(patches[i], opType, t) {
      a, b := BestPatch(patches, m, opType, t);
      if HasRaw(patches[m], opType, t) {
        var a', b' := a, b;
        if !Prevails(patches[a], a, patches[m], m) {
          a' := m;
        }
        if !ComesLast(patches[b], b, patches[m], m) {
          b' := m;
        }
        forall j | 0 <= j < n && HasRaw(patches[j], opType, t)
          ensures Prevails(patches[a'], a', patches[j], j) && ComesLast(patches[b'], b', patches[j], j)
        {
          PrevailsTotal(patches[m], m, patches[a], a, patches[j], j);
          PrevailsTotal(patches[m], m, patches[b], b, patches[j], j);
        }
        a, b := a', b';
      }
    } else {
      a, b := m, m;
      PrevailsTotal(patches[m], m, patches[m], m, patches[m], m);
    }
  }

  lemma {:induction false} EndsRaw(p: PlanPatch, n: nat, opType: string, t: string) returns (first: nat, last: nat)
    requires n <= |p.ops| && exists k :: 0 <= k < n && IsRaw(p, k, opType, t)
    ensures first < n && FirstRaw(p, first, opType, t)
    ensures last < n && IsRaw(p, last, opType, t) && forall j :: last < j < n ==> !IsRaw(p, j, opType, t)
  {
    var m := n - 1;
    if exists k :: 0 <= k < m && IsRaw(p, k, opType, t) {
      first, last := EndsRaw(p, m, opType, t);
      if IsRaw(p, m, opType, t) {
        last := m;
      }
    } else {
      first, last := m, m;
    }
  }

  lemma EntriesExist(patches: seq<PlanPatch>, opType: string, t: string) returns (i: nat, k: nat, j: nat, l: nat)
    requires AnyRaw(patches, opType, t)
    ensures TopEntry(patches, i, k, opType, t) && LatestEntry(patches, j, l, opType, t)
  {
    i, j := BestPatch(patches, |patches|, opType, t);
    var skip;
    k, skip := EndsRaw(patches[i], |patches[i].ops|, opType, t);
    skip, l := EndsRaw(patches[j], |patches[j].ops|, opType, t);
  }

  // ---------- where the winners stand in the merge order ----------

  function KindNamed(opType: string): Kind
  {
    match opType
    case "ADD_TASK" => KAddTask
    case "STATE" => KState
    case "LINK" => KLink
    case "ANNOTATE" => KAnnotate
    case "REQUIRES" => KRequires
    case _ => KProduces
  }

  predicate Known(opType: string)
  {
    opType in {"ADD_TASK", "REQUIRES", "PRODUCES", "STATE", "LINK", "ANNOTATE"}
  }

  lemma KindReads(op: OpData, opType: string)
    requires Mergeable(op) && Known(opType)
    ensures KindOf(BodyOf(op)) == KindNamed(opType) <==> op.opType == Some(opType)
  {
  }

  lemma KeyReads(p: PlanPatch, k: int, opType: string, t: string)
    requires MergeablePatch(p) && Known(opType)
    ensures OpHasKey(p, k, t, KindNamed(opType)) <==> IsRaw(p, k, opType, t)
  {
    if 0 <= k < |p.ops| {
      KindReads(p.ops[k], opType);
    }
  }

  /** Where the entries of patch `a` begin. */
  ghost function StartOf(patches: seq<PlanPatch>, a: nat): nat
    requires a <= |patches|
  {
    |Flatten(patches[..a])|
  }

  lemma EntryAt(p: PlanPatch, k: nat)
    requires MergeablePatch(p) && k < |p.ops|
    ensures |EntriesOf(p)| == |p.ops| && EntriesOf(p)[k] == TagOp(p.ops[k], p)
  {
    TagOpsFacts(p, |p.ops|);
  }

  lemma NextStart(patches: seq<PlanPatch>, a: nat)
    requires a < |patches|
    ensures StartOf(patches, a) <= StartOf(patches, a + 1)
    ensures MergeablePatch(patches[a]) ==> StartOf(patches, a + 1) == StartOf(patches, a) + |patches[a].ops|
  {
    FlattenOneMore(patches, a);
    if MergeablePatch(patches[a]) {
      TagOpsFacts(patches[a], |patches[a].ops|);
    }
  }

  lemma {:induction false} StartsInOrder(patches: seq<PlanPatch>, a: nat, b: nat)
    requires a < b <= |patches| && MergeablePatch(patches[a])
    ensures StartOf(patches, a) + |patches[a].ops| <= StartOf(patches, b)
  {
    NextStart(patches, b - 1);
    if b > a + 1 {
      StartsInOrder(patches, a, b - 1);
    }
  }

  lemma {:induction false} FlattenPrefix(patches: seq<PlanPatch>, n: nat)
    requires n <= |patches|
    ensures Flatten(patches[..n]) <= Flatten(patches)
    decreases |patches| - n
  {
    if n == |patches| {
      assert patches[..n] == patches;
    } else {
      FlattenOneMore(patches, n);
      FlattenPrefix(patches, n + 1);
    }
  }

  lemma InPrefix(older: seq<Entry>, newer: seq<Entry>, all: seq<Entry>, k: nat)
    requires older + newer <= all && k < |newer|
    ensures |older| + k < |all| && all[|older| + k] == newer[k]
  {
    assert all[|older| + k] == (older + newer)[|older| + k];
  }

  /** Entry `k` of patch `a` stands `k` places after the patch's start. */
  lemma PlaceOf(patches: seq<PlanPatch>, a: nat, k: nat)
    requires a < |patches| && MergeablePatch(patches[a]) && k < |patches[a].ops|
    ensures StartOf(patches, a) + k < |Flatten(patches)|
    ensures Flatten(patches)[StartOf(patches, a) + k] == TagOp(patches[a].ops[k], patches[a])
  {
    FlattenOneMore(patches, a);
    FlattenPrefix(patches, a + 1);
    EntryAt(patches[a], k);
    InPrefix(Flatten(patches[..a]), EntriesOf(patches[a]), Flatten(patches), k);
  }

  lemma {:induction false} PatchAt(patches: seq<PlanPatch>, pos: nat) returns (a: nat, k: nat)
    requires pos < |Flatten(patches)|
    ensures a < |patches| && MergeablePatch(patches[a]) && k < |patches[a].ops| && pos == StartOf(patches, a) + k
  {
    var n := |patches| - 1;
    if pos < StartOf(patches, n) {
      a, k := PatchAt(patches[..n], pos);
      assert patches[..n][..a] == patches[..a];
    } else {
      a, k := n, pos - StartOf(patches, n);
      TagOpsFacts(patches[n], |patches[n].ops|);
    }
  }

  /** An entry with the key, and its place. */
  lemma RawPlace(s: seq<PlanPatch>, b: nat, j: nat, opType: string, t: string) returns (pos: nat)
    requires b < |s| && MergeablePatch(s[b]) && Known(opType) && IsRaw(s[b], j, opType, t)
    ensures pos == StartOf(s, b) + j < |Flatten(s)|
    ensures HasKey(Flatten(s)[pos], t, KindNamed(opType)) && Flatten(s)[pos].base == s[b].baseLamport
  {
    pos := StartOf(s, b) + j;
    PlaceOf(s, b, j);
    KeyReads(s[b], j, opType, t);
  }

  /** The entry at a place with the key. */
  lemma PlaceRaw(s: seq<PlanPatch>, pos: nat, opType: string, t: string) returns (a: nat, k: nat)
    requires Known(opType) && pos < |Flatten(s)| && HasKey(Flatten(s)[pos], t, KindNamed(opType))
    ensures a < |s| && MergeablePatch(s[a]) && IsRaw(s[a], k, opType, t) && pos == StartOf(s, a) + k
    ensures Flatten(s)[pos] == TagOp(s[a].ops[k], s[a])
  {
    a, k := PatchAt(s, pos);
    PlaceOf(s, a, k);
    KeyReads(s[a], k, opType, t);
  }

  /** The winner in merge order: its patch has the highest base and is the first that has, its entry the patch's first. */
  lemma TopInOrder(s: seq<PlanPatch>, pos: nat, opType: string, t: string) returns (a: nat, k: nat)
    requires AllMergeable(s) && Known(opType) && FirstHighest(Flatten(s), t, KindNamed(opType), pos)
    ensures a < |s| && MergeablePatch(s[a]) && FirstRaw(s[a], k, opType, t) && Flatten(s)[pos] == TagOp(s[a].ops[k], s[a])
    ensures forall b :: 0 <= b < |s| && HasRaw(s[b], opType, t) ==>
              s[b].baseLamport < s[a].baseLamport || (s[b].baseLamport == s[a].baseLamport && a <= b)
  {
    a, k := PlaceRaw(s, pos, opType, t);
    forall j | 0 <= j < k ensures !IsRaw(s[a], j, opType, t) {
      if IsRaw(s[a], j, opType, t) {
        var earlier := RawPlace(s, a, j, opType, t);
        assert false;
      }
    }
    forall b | 0 <= b < |s| && HasRaw(s[b], opType, t)
      ensures s[b].baseLamport < s[a].baseLamport || (s[b].baseLamport == s[a].baseLamport && a <= b)
    {
      var j :| IsRaw(s[b], j, opType, t);
      var other := RawPlace(s, b, j, opType, t);
      if b < a {
        StartsInOrder(s, b, a);
      }
    }
  }

  /** The entry at `pos` has the key, and none after it. */
  ghost predicate LastWithKey(entries: seq<Entry>, t: string, kind: Kind, pos: int)
  {
    && 0 <= pos < |entries| && HasKey(entries[pos], t, kind)
    && forall j :: pos < j < |entries| ==> !HasKey(entries[j], t, kind)
  }

  lemma {:induction false} LastOfPlace(entries: seq<Entry>, t: string, kind: Kind) returns (pos: nat)
    requires LastOf(entries, t, kind).Some?
    ensures LastWithKey(entries, t, kind, pos) && LastOf(entries, t, kind) == Some(entries[pos])
  {
    var n := |entries| - 1;
    if HasKey(entries[n], t, kind) {
      pos := n;
    } else {
      pos := LastOfPlace(entries[..n], t, kind);
    }
  }

  lemma LatestInOrder(s: seq<PlanPatch>, pos: nat, opType: string, t: string) returns (a: nat, k: nat)
    requires AllMergeable(s) && Known(opType) && LastWithKey(Flatten(s), t, KindNamed(opType), pos)
    ensures a < |s| && MergeablePatch(s[a]) && LastRaw(s[a], k, opType, t) && Flatten(s)[pos] == TagOp(s[a].ops[k], s[a])
    ensures forall b :: 0 <= b < |s| && HasRaw(s[b], opType, t) ==> b <= a
  {
    a, k := PlaceRaw(s, pos, opType, t);
    forall j | k < j < |s[a].ops| ensures !IsRaw(s[a], j, opType, t) {
      if IsRaw(s[a], j, opType, t) {
        var later := RawPlace(s, a, j, opType, t);
        assert false;
      }
    }
    forall b | 0 <= b < |s| && HasRaw(s[b], opType, t) ensures b <= a {
      var j :| IsRaw(s[b], j, opType, t);
      var other := RawPlace(s, b, j, opType, t);
      if a < b {
        StartsInOrder(s, a, b);
      }
    }
  }

  // ---------- the sorted patches and the patches as given ----------

  /** Neither is before the other. */
  ghost predicate Tie(p: PlanPatch, q: PlanPatch)
  {
    !PatchBefore(p, q) && !PatchBefore(q, p)
  }

  lemma TieMeans(p: PlanPatch, q: PlanPatch)
    ensures Tie(p, q) <==> p.baseLamport == q.baseLamport && p.actorId == q.actorId
  {
    LexTotal(p.actorId, q.actorId);
    LexTotal(p.actorId, p.actorId);
  }

  ghost function FirstHaving(s: seq<PlanPatch>, opType: string, t: string): Option<PlanPatch>
  {
    if s == [] then None
    else
      match FirstHaving(s[..|s| - 1], opType, t)
      case Some(p) => Some(p)
      case None => if HasRaw(s[|s| - 1], opType, t) then Some(s[|s| - 1]) else None
  }

  ghost function LastHaving(s: seq<PlanPatch>, opType: string, t: string): Option<PlanPatch>
  {
    if s == [] then None
    else if HasRaw(s[|s| - 1], opType, t) then Some(s[|s| - 1])
    else LastHaving(s[..|s| - 1], opType, t)
  }

  lemma HavingAppend(s: seq<PlanPatch>, p: PlanPatch, opType: string, t: string)
    ensures FirstHaving(s + [p], opType, t)
            == match FirstHaving(s, opType, t) case Some(q) => Some(q) case None => if HasRaw(p, opType, t) then Some(p) else None
    ensures LastHaving(s + [p], opType, t) == if HasRaw(p, opType, t) then Some(p) else LastHaving(s, opType, t)
  {
    assert (s + [p])[..|s|] == s;
  }

  lemma {:induction false} NoneHaving(s: seq<PlanPatch>, x: PlanPatch, opType: string, t: string)
    requires forall b :: 0 <= b < |s| && Tie(x, s[b]) ==> !HasRaw(s[b], opType, t)
    ensures FirstHaving(Ties(s, x, PatchBefore), opType, t) == None
  {
    if s != [] {
      var front, last := s[..|s| - 1], s[|s| - 1];
      NoneHaving(front, x, opType, t);
      assert Tie(x, s[|s| - 1]) ==> !HasRaw(last, opType, t);
      HavingAppend(Ties(front, x, PatchBefore), last, opType, t);
      assert Ties(front, x, PatchBefore) + [] == Ties(front, x, PatchBefore);
    }
  }

  /** The first patch of a run of ties with such an entry is told from the run alone. */
  lemma {:induction false} FirstOfTies(s: seq<PlanPatch>, a: nat, x: PlanPatch, opType: string, t: string)
    requires a < |s| && Tie(x, s[a]) && HasRaw(s[a], opType, t)
    requires forall b :: 0 <= b < a && Tie(x, s[b]) ==> !HasRaw(s[b], opType, t)
    ensures FirstHaving(Ties(s, x, PatchBefore), opType, t) == Some(s[a])
  {
    var front, last := s[..|s| - 1], s[|s| - 1];
    HavingAppend(Ties(front, x, PatchBefore), last, opType, t);
    assert Ties(front, x, PatchBefore) + [] == Ties(front, x, PatchBefore);
    if a == |s| - 1 {
      NoneHaving(front, x, opType, t);
    } else {
      FirstOfTies(front, a, x, opType, t);
    }
  }

  lemma {:induction false} LastOfTies(s: seq<PlanPatch>, a: nat, x: PlanPatch, opType: string, t: string)
    requires a < |s| && Tie(x, s[a]) && HasRaw(s[a], opType, t)
    requires forall b :: a < b < |s| && Tie(x, s[b]) ==> !HasRaw(s[b], opType, t)
    ensures LastHaving(Ties(s, x, PatchBefore), opType, t) == Some(s[a])
  {
    var front, last := s[..|s| - 1], s[|s| - 1];
    HavingAppend(Ties(front, x, PatchBefore), last, opType, t);
    assert Ties(front, x, PatchBefore) + [] == Ties(front, x, PatchBefore);
    if a < |s| - 1 {
      assert Tie(x, s[|s| - 1]) ==> !HasRaw(last, opType, t);
      LastOfTies(front, a, x, opType, t);
    }
  }

  lemma IndexOfPatch(s: seq<PlanPatch>, p: PlanPatch) returns (i: nat)
    requires p in s
    ensures i < |s| && s[i] == p
  {
    i :| 0 <= i < |s| && s[i] == p;
  }

  /** The patches in merge order: the same ones, sorted, with the same runs of ties. */
  ghost predicate InOrderOf(s: seq<PlanPatch>, patches: seq<PlanPatch>)
  {
    && Sorted(s, PatchBefore) && (forall p :: p in s <==> p in patches)
    && forall x :: Ties(s, x, PatchBefore) == Ties(patches, x, PatchBefore)
  }

  lemma SortInOrder(patches: seq<PlanPatch>)
    ensures InOrderOf(Sort(patches, PatchBefore), patches)
  {
    PatchOrder();
    SortFacts(patches, PatchBefore);
    SortMembers(patches, PatchBefore);
  }

  /** Two patches that each rank no lower than the other tie. */
  lemma TopsTie(patches: seq<PlanPatch>, s: seq<PlanPatch>, i: nat, k: int, a: nat, opType: string, t: string)
    requires InOrderOf(s, patches) && TopEntry(patches, i, k, opType, t)
    requires a < |s| && HasRaw(s[a], opType, t)
    requires forall b :: 0 <= b < |s| && HasRaw(s[b], opType, t) ==>
               s[b].baseLamport < s[a].baseLamport || (s[b].baseLamport == s[a].baseLamport && a <= b)
    ensures Tie(patches[i], s[a])
  {
    var x, y := patches[i], s[a];
    assert x in patches && y in s;
    var c := IndexOfPatch(patches, y);
    var b := IndexOfPatch(s, x);
    assert HasRaw(s[b], opType, t) && Prevails(x, i, patches[c], c);
    assert a < b ==> !PatchBefore(s[b], s[a]);
    LexTotal(x.actorId, y.actorId);
    TieMeans(x, y);
  }

  lemma SameTop(patches: seq<PlanPatch>, s: seq<PlanPatch>, i: nat, k: int, a: nat, opType: string, t: string)
    requires InOrderOf(s, patches) && TopEntry(patches, i, k, opType, t)
    requires a < |s| && HasRaw(s[a], opType, t)
    requires forall b :: 0 <= b < |s| && HasRaw(s[b], opType, t) ==>
               s[b].baseLamport < s[a].baseLamport || (s[b].baseLamport == s[a].baseLamport && a <= b)
    ensures s[a] == patches[i]
  {
    var x := patches[i];
    TopsTie(patches, s, i, k, a, opType, t);
    TieMeans(x, s[a]);
    TieMeans(x, x);
    forall b | 0 <= b < i && Tie(x, patches[b]) ensures !HasRaw(patches[b], opType, t) {
      TieMeans(x, patches[b]);
      LexTotal(x.actorId, x.actorId);
    }
    FirstOfTies(patches, i, x, opType, t);
    forall b | 0 <= b < a && Tie(x, s[b]) ensures !HasRaw(s[b], opType, t) {
      TieMeans(x, s[b]);
    }
    FirstOfTies(s, a, x, opType, t);
  }

  lemma LatestTie(patches: seq<PlanPatch>, s: seq<PlanPatch>, i: nat, k: int, a: nat, opType: string, t: string)
    requires InOrderOf(s, patches) && LatestEntry(patches, i, k, opType, t)
    requires a < |s| && HasRaw(s[a], opType, t) && forall b :: 0 <= b < |s| && HasRaw(s[b], opType, t) ==> b <= a
    ensures Tie(patches[i], s[a])
  {
    var x, y := patches[i], s[a];
    assert x in patches && y in s;
    var c := IndexOfPatch(patches, y);
    var b := IndexOfPatch(s, x);
    assert HasRaw(s[b], opType, t) && ComesLast(x, i, patches[c], c);
    assert b < a ==> !PatchBefore(s[a], s[b]);
    LexTotal(x.actorId, y.actorId);
    TieMeans(x, y);
  }

  lemma SameLatest(patches: seq<PlanPatch>, s: seq<PlanPatch>, i: nat, k: int, a: nat, opType: string, t: string)
    requires InOrderOf(s, patches) && LatestEntry(patches, i, k, opType, t)
    requires a < |s| && HasRaw(s[a], opType, t) && forall b :: 0 <= b < |s| && HasRaw(s[b], opType, t) ==> b <= a
    ensures s[a] == patches[i]
  {
    var x := patches[i];
    LatestTie(patches, s, i, k, a, opType, t);
    TieMeans(x, x);
    forall b | i < b < |patches| && Tie(x, patches[b]) ensures !HasRaw(patches[b], opType, t) {
      TieMeans(x, patches[b]);
      LexTotal(x.actorId, x.actorId);
    }
    LastOfTies(patches, i, x, opType, t);
    LastOfTies(s, a, x, opType, t);
  }

  lemma RawOfEntry(patches: seq<PlanPatch>, i: int, k: int, opType: string, t: string)
    requires AllMergeable(patches) && Known(opType) && 0 <= i < |patches| && IsRaw(patches[i], k, opType, t)
    ensures MergeablePatch(patches[i]) && HasRaw(patches[i], opType, t)
    ensures TagOp(patches[i].ops[k], patches[i]) in MergeOrder(patches)
    ensures HasKey(TagOp(patches[i].ops[k], patches[i]), t, KindNamed(opType))
  {
    assert patches[i] in patches;
    OpInOrder(patches, patches[i], k);
    KeyReads(patches[i], k, opType, t);
  }

  /** The merge's winner, found among the sorted patches. */
  lemma BestInSorted(s: seq<PlanPatch>, opType: string, t: string) returns (a: nat, k: nat)
    requires AllMergeable(s) && Known(opType) && Best(Flatten(s), t, KindNamed(opType)).Some?
    ensures a < |s| && MergeablePatch(s[a]) && FirstRaw(s[a], k, opType, t)
    ensures Best(Flatten(s), t, KindNamed(opType)) == Some(TagOp(s[a].ops[k], s[a]))
    ensures forall b :: 0 <= b < |s| && HasRaw(s[b], opType, t) ==>
              s[b].baseLamport < s[a].baseLamport || (s[b].baseLamport == s[a].baseLamport && a <= b)
  {
    var order, kind := Flatten(s), KindNamed(opType);
    BestIsFirstHighest(order, t, kind);
    var pos :| FirstHighest(order, t, kind, pos) && order[pos] == Best(order, t, kind).value;
    a, k := TopInOrder(s, pos, opType, t);
  }

  lemma LastInSorted(s: seq<PlanPatch>, opType: string, t: string) returns (a: nat, k: nat)
    requires AllMergeable(s) && Known(opType) && LastOf(Flatten(s), t, KindNamed(opType)).Some?
    ensures a < |s| && MergeablePatch(s[a]) && LastRaw(s[a], k, opType, t)
    ensures LastOf(Flatten(s), t, KindNamed(opType)) == Some(TagOp(s[a].ops[k], s[a]))
    ensures forall b :: 0 <= b < |s| && HasRaw(s[b], opType, t) ==> b <= a
  {
    var pos := LastOfPlace(Flatten(s), t, KindNamed(opType));
    a, k := LatestInOrder(s, pos, opType, t);
  }

  lemma SameFirst(p: PlanPatch, k: int, l: int, opType: string, t: string)
    requires FirstRaw(p, k, opType, t) && FirstRaw(p, l, opType, t)
    ensures k == l
  {
  }

  lemma SameLast(p: PlanPatch, k: int, l: int, opType: string, t: string)
    requires LastRaw(p, k, opType, t) && LastRaw(p, l, opType, t)
    ensures k == l
  {
  }

  /** The merge's winner is the top entry. */
  lemma TopIsBest(patches: seq<PlanPatch>, i: int, k: int, opType: string, t: string)
    requires AllMergeable(patches) && Known(opType) && TopEntry(patches, i, k, opType, t)
    ensures MergeablePatch(patches[i])
    ensures Best(MergeOrder(patches), t, KindNamed(opType)) == Some(TagOp(patches[i].ops[k], patches[i]))
  {
    var s := Sort(patches, PatchBefore);
    RawOfEntry(patches, i, k, opType, t);
    NoneBest(patches, patches[i], k, t, KindNamed(opType));
    SortInOrder(patches);
    SortedSame(patches);
    var a, l := BestInSorted(s, opType, t);
    SameTop(patches, s, i, k, a, opType, t);
    SameFirst(patches[i], k, l, opType, t);
  }

  /** The last of the operations kept by their order is the latest entry. */
  lemma LatestIsLast(patches: seq<PlanPatch>, i: int, k: int, opType: string, t: string)
    requires AllMergeable(patches) && Known(opType) && LatestEntry(patches, i, k, opType, t)
    ensures MergeablePatch(patches[i])
    ensures LastOf(MergeOrder(patches), t, KindNamed(opType)) == Some(TagOp(patches[i].ops[k], patches[i]))
  {
    var s := Sort(patches, PatchBefore);
    RawOfEntry(patches, i, k, opType, t);
    LastOfMember(MergeOrder(patches), t, KindNamed(opType));
    SortInOrder(patches);
    SortedSame(patches);
    var a, l := LastInSorted(s, opType, t);
    SameLatest(patches, s, i, k, a, opType, t);
    SameLast(patches[i], k, l, opType, t);
  }

  // ---------- what the merge returns ----------

  ghost predicate AllValid(patches: seq<PlanPatch>)
  {
    forall p :: p in patches ==> ValidPatch(p)
  }

  /** A field that the merge looks up is not there. */
  ghost predicate LacksField(op: OpData)
  {
    || op.opType == None || op.taskId == None
    || (op.opType == Some("LINK") && ("parent" !in PayloadOf(op) || "child" !in PayloadOf(op)))
  }

  /** The merge fails on a missing field if there is one, otherwise on an unknown type; valid patches have neither. */
  lemma MergeFailsIff(patches: seq<PlanPatch>, newId: nat -> string)
    ensures
      var r := Outcome(AllReadable(patches), AllMergeable(patches), MergeResult(patches, newId));
      && (r == Err(MissingField) <==> exists p, op :: p in patches && op in p.ops && LacksField(op))
      && (r == Err(UnknownOpType) <==>
            && (forall p, op :: p in patches && op in p.ops ==> !LacksField(op))
            && exists p, op :: p in patches && op in p.ops && !Known(op.opType.value))
      && (AllValid(patches) ==> r == Ok(MergeResult(patches, newId)))
  {
    forall p | p in patches ensures ReadablePatch(p) <==> forall op :: op in p.ops ==> !LacksField(op) {
      assert forall i :: 0 <= i < |p.ops| ==> p.ops[i] in p.ops;
    }
    forall p | p in patches
      ensures MergeablePatch(p) <==> forall op :: op in p.ops ==> !LacksField(op) && Known(op.opType.value)
    {
      assert forall i :: 0 <= i < |p.ops| ==> p.ops[i] in p.ops;
    }
    if AllValid(patches) {
      ValidEntries(patches);
    }
  }

  /** An operation says what a dictionary says: its type, and of its payload what a plan reads. */
  ghost predicate Says(body: OpBody, op: OpData)
  {
    var payload := PayloadOf(op);
    match body
    case AddTask(taskType) =>
      op.opType == Some("ADD_TASK") && taskType == if "type" in payload then Some(payload["type"]) else None
    case SetState(state) => op.opType == Some("STATE") && "state" in payload && state == payload["state"]
    case Link(parent, child) =>
      && op.opType == Some("LINK") && "parent" in payload && "child" in payload
      && parent == payload["parent"] && child == payload["child"]
    case Annotate(entries) => op.opType == Some("ANNOTATE") && entries == payload
    case Requires => op.opType == Some("REQUIRES")
    case Produces => op.opType == Some("PRODUCES")
  }

  lemma BodyReads(op: OpData)
    requires ValidOp(op)
    ensures Mergeable(op) && Storable(BodyOf(op)) && Says(StoredBody(BodyOf(op)), op)
  {
  }

  lemma ValidEntries(patches: seq<PlanPatch>)
    requires AllValid(patches)
    ensures AllMergeable(patches)
    ensures forall e :: e in MergeOrder(patches) ==> Storable(e.body)
  {
    forall p | p in patches ensures MergeablePatch(p) {
      ValidIsMergeable(p);
    }
    MergeOrderFacts(patches);
    forall e | e in MergeOrder(patches) ensures Storable(e.body) {
      var p, k :| p in patches && IsEntryOf(e, p, k);
      BodyReads(p.ops[k]);
    }
  }

  /** What the merge makes of valid patches can be replayed. */
  lemma ValidIsStorable(patches: seq<PlanPatch>, newId: nat -> string)
    requires AllValid(patches)
    ensures AllMergeable(patches) && AllStorable(MergeResult(patches, newId))
  {
    ValidEntries(patches);
    ReplayableIff(patches, newId);
    forall t ensures WinnerSaysState(MergeOrder(patches), t) {
      BestMember(MergeOrder(patches), t, KState);
    }
  }

  lemma BestMember(entries: seq<Entry>, t: string, kind: Kind)
    ensures match Best(entries, t, kind)
            case Some(w) => w in entries && HasKey(w, t, kind)
            case None => forall e :: e in entries ==> !HasKey(e, t, kind)
  {
    BestIsFirstHighest(entries, t, kind);
  }

  /** There is a winner of a type exactly if a patch has an entry of the type on the task. */
  lemma BestIff(patches: seq<PlanPatch>, opType: string, t: string)
    requires AllMergeable(patches) && Known(opType)
    ensures Best(MergeOrder(patches), t, KindNamed(opType)).Some? <==> AnyRaw(patches, opType, t)
  {
    var order, kind := MergeOrder(patches), KindNamed(opType);
    BestMember(order, t, kind);
    if AnyRaw(patches, opType, t) {
      var i, k, j, l := EntriesExist(patches, opType, t);
      TopIsBest(patches, i, k, opType, t);
    }
    if Best(order, t, kind).Some? {
      MergeOrderFacts(patches);
      var p, k :| p in patches && IsEntryOf(Best(order, t, kind).value, p, k);
      var i := IndexOfPatch(patches, p);
      KeyReads(patches[i], k, opType, t);
      assert HasRaw(patches[i], opType, t);
    }
  }

  /** The state that the STATE entry which prevails gives the task. */
  lemma StateRead(patches: seq<PlanPatch>, i: int, k: int, t: string)
    requires AllValid(patches) && TopEntry(patches, i, k, "STATE", t)
    ensures
      var payload := PayloadOf(patches[i].ops[k]);
      "state" in payload && StateShown(Best(MergeOrder(patches), t, KState)) == payload["state"]
  {
    ValidEntries(patches);
    TopIsBest(patches, i, k, "STATE", t);
    assert patches[i] in patches;
    BodyReads(patches[i].ops[k]);
  }

  lemma TypeRead(patches: seq<PlanPatch>, i: int, k: int, t: string)
    requires AllValid(patches) && TopEntry(patches, i, k, "ADD_TASK", t)
    ensures
      var payload := PayloadOf(patches[i].ops[k]);
      TypeShown(Best(MergeOrder(patches), t, KAddTask)) == if "type" in payload then Some(payload["type"]) else None
  {
    ValidEntries(patches);
    TopIsBest(patches, i, k, "ADD_TASK", t);
    assert patches[i] in patches;
    BodyReads(patches[i].ops[k]);
  }

  /**
   * Valid patches, merged and replayed: a task exists exactly if some patch adds it or sets its state; it is
   * in the state that the prevailing STATE entry's payload names, or a draft; its type is the one that the
   * prevailing ADD_TASK entry's payload names, if any.
   */
  lemma MergedTaskReads(patches: seq<PlanPatch>, newId: nat -> string, t: string)
    requires AllValid(patches)
    ensures AllStorable(MergeResult(patches, newId))
    ensures
      var tasks := Replay(StoredOps(MergeResult(patches, newId))).tasks;
      t in tasks <==> AnyRaw(patches, "ADD_TASK", t) || AnyRaw(patches, "STATE", t)
    ensures
      var tasks := Replay(StoredOps(MergeResult(patches, newId))).tasks;
      t in tasks ==>
        && (!AnyRaw(patches, "STATE", t) ==> tasks[t].state == "DRAFT")
        && (forall i, k :: TopEntry(patches, i, k, "STATE", t) ==>
              var payload := PayloadOf(patches[i].ops[k]);
              "state" in payload && tasks[t].state == payload["state"])
    ensures
      var tasks := Replay(StoredOps(MergeResult(patches, newId))).tasks;
      t in tasks ==>
        && (!AnyRaw(patches, "ADD_TASK", t) ==> tasks[t].taskType == None)
        && (forall i, k :: TopEntry(patches, i, k, "ADD_TASK", t) ==>
              var payload := PayloadOf(patches[i].ops[k]);
              tasks[t].taskType == if "type" in payload then Some(payload["type"]) else None)
  {
    ValidIsStorable(patches, newId);
    MergedTasks(patches, newId, t);
    BestIff(patches, "ADD_TASK", t);
    BestIff(patches, "STATE", t);
    forall i, k | TopEntry(patches, i, k, "STATE", t)
      ensures
        var payload := PayloadOf(patches[i].ops[k]);
        "state" in payload && StateShown(Best(MergeOrder(patches), t, KState)) == payload["state"]
    {
      StateRead(patches, i, k, t);
    }
    forall i, k | TopEntry(patches, i, k, "ADD_TASK", t)
      ensures
        var payload := PayloadOf(patches[i].ops[k]);
        TypeShown(Best(MergeOrder(patches), t, KAddTask)) == if "type" in payload then Some(payload["type"]) else None
    {
      TypeRead(patches, i, k, t);
    }
  }

  // ---------- the emitted operations, one by one ----------

  lemma {:induction false} KeptMembers(entries: seq<Entry>)
    ensures forall e :: e in Kept(entries) ==> e in entries
  {
    if entries != [] {
      var before, last := entries[..|entries| - 1], entries[|entries| - 1];
      KeptMembers(before);
      FrontAndLast(entries);
      var t, t' := TakeAll(before), TakeAll(entries);
      PutMembers(t.adds, last);
      PutMembers(t.others, last);
      forall e | e in Kept(entries) ensures e in entries {
        assert e in t'.adds || e in t'.others;
        assert e == last || e in t.adds + t.others;
      }
    }
  }

  lemma EmittedAt(entries: seq<Entry>, start: int, newId: nat -> string, n: nat)
    requires AllStorable(Emit(entries, start, newId)) && n < |entries|
    ensures Storable(entries[n].body)
    ensures StoredOps(Emit(entries, start, newId))[n]
            == PlanOp(newId(n), "merged", start + n, entries[n].actor, entries[n].taskId, StoredBody(entries[n].body), 0)
  {
    EmitFacts(entries, start, newId);
    var op := Emit(entries, start, newId)[n];
    assert op == ToOp(entries[n], start + n, newId(n)) && Storable(op.body);
  }

  /** The operation emitted for the `n`-th survivor. */
  lemma EmittedIs(patches: seq<PlanPatch>, newId: nat -> string, n: nat)
    requires AllStorable(MergeResult(patches, newId)) && n < |Survivors(patches)|
    ensures |StoredOps(MergeResult(patches, newId))| == |Survivors(patches)|
    ensures
      var e := Survivors(patches)[n];
      && Storable(e.body)
      && StoredOps(MergeResult(patches, newId))[n]
         == PlanOp(newId(n), "merged", MaxBase(patches) + 1 + n, e.actor, e.taskId, StoredBody(e.body), 0)
  {
    EmittedAt(Survivors(patches), MaxBase(patches) + 1, newId, n);
  }

  /**
   * Every operation that comes out says what an entry of a patch says, on the same task, under the patch's actor;
   * the lamports are consecutive from one above the highest base.
   */
  lemma EmittedReads(patches: seq<PlanPatch>, newId: nat -> string, n: nat) returns (i: nat, k: nat)
    requires AllValid(patches) && AllStorable(MergeResult(patches, newId)) && n < |StoredOps(MergeResult(patches, newId))|
    ensures i < |patches| && k < |patches[i].ops|
    ensures
      var op := StoredOps(MergeResult(patches, newId))[n];
      && patches[i].ops[k].taskId == Some(op.taskId) && Says(op.body, patches[i].ops[k])
      && op.actorId == patches[i].actorId && op.opId == newId(n) && op.threadId == "merged" && op.timestampNs == 0
      && (exists p :: p in patches && op.lamport == p.baseLamport + 1 + n)
      && (forall p :: p in patches ==> op.lamport >= p.baseLamport + 1 + n)
  {
    var e := Survivors(patches)[n];
    KeptMembers(MergeOrder(patches));
    MergeOrderFacts(patches);
    assert e in Survivors(patches);
    var p, l :| p in patches && IsEntryOf(e, p, l);
    i := IndexOfPatch(patches, p);
    k := l;
    EmittedIs(patches, newId, n);
    BodyReads(p.ops[k]);
    MaxBaseBounds(patches);
  }

  predicate SameType(a: OpBody, b: OpBody)
  {
    && a.AddTask? == b.AddTask? && a.SetState? == b.SetState? && a.Link? == b.Link?
    && a.Annotate? == b.Annotate? && a.Requires? == b.Requires? && a.Produces? == b.Produces?
  }

  lemma SameTypeReads(a: PatchBody, b: PatchBody)
    requires Storable(a) && Storable(b)
    ensures SameType(StoredBody(a), StoredBody(b)) <==> KindOf(a) == KindOf(b)
  {
  }

  /** A surviving entry is emitted, and nothing else of its type on its task. */
  lemma SurvivorEmitted(patches: seq<PlanPatch>, newId: nat -> string, e: Entry) returns (n: nat)
    requires AllStorable(MergeResult(patches, newId)) && e in Survivors(patches)
    ensures Storable(e.body) && n < |StoredOps(MergeResult(patches, newId))|
    ensures
      var ops := StoredOps(MergeResult(patches, newId));
      && ops[n].body == StoredBody(e.body) && ops[n].taskId == e.taskId && ops[n].actorId == e.actor
      && forall m :: 0 <= m < |ops| && ops[m].taskId == e.taskId && SameType(ops[m].body, ops[n].body) ==> m == n
  {
    var ops, survivors := StoredOps(MergeResult(patches, newId)), Survivors(patches);
    n :| 0 <= n < |survivors| && survivors[n] == e;
    EmittedIs(patches, newId, n);
    SurvivorsOrder(patches);
    forall m | 0 <= m < |ops| && ops[m].taskId == e.taskId && SameType(ops[m].body, ops[n].body) ensures m == n {
      EmittedIs(patches, newId, m);
      SameTypeReads(survivors[m].body, e.body);
      assert SameKey(survivors[m], survivors[n]) && SameKey(survivors[n], survivors[m]);
    }
  }

  lemma LookedUp(d: seq<Entry>, t: string, kind: Kind, e: Entry)
    requires Lookup(d, t, kind) == Some(e)
    ensures e in d
  {
  }

  /** The entry that prevails, or that comes last, survives; a LINK may not. */
  lemma ReadSurvives(patches: seq<PlanPatch>, i: int, k: int, opType: string, t: string)
    requires AllValid(patches) && Known(opType) && opType != "LINK"
    requires if opType in {"ADD_TASK", "STATE"} then TopEntry(patches, i, k, opType, t) else LatestEntry(patches, i, k, opType, t)
    ensures MergeablePatch(patches[i]) && TagOp(patches[i].ops[k], patches[i]) in Survivors(patches)
  {
    ValidEntries(patches);
    var order := MergeOrder(patches);
    if opType == "ADD_TASK" {
      TopIsBest(patches, i, k, opType, t);
      BestAddKept(order, t);
      LookedUp(TakeAll(order).adds, t, KAddTask, TagOp(patches[i].ops[k], patches[i]));
    } else if opType == "STATE" {
      TopIsBest(patches, i, k, opType, t);
      BestStateKept(order, t);
      LookedUp(TakeAll(order).others, t, KState, TagOp(patches[i].ops[k], patches[i]));
    } else {
      LatestIsLast(patches, i, k, opType, t);
      LastOtherKept(order, t, KindNamed(opType));
      LookedUp(TakeAll(order).others, t, KindNamed(opType), TagOp(patches[i].ops[k], patches[i]));
    }
  }

  /**
   * Of the ADD_TASKs of a task, and of its STATEs, the entry that prevails comes out and no other; of its
   * ANNOTATEs, its REQUIRES and its PRODUCES, the one that comes last.
   */
  lemma EntryEmitted(patches: seq<PlanPatch>, newId: nat -> string, i: int, k: int, opType: string, t: string)
    returns (n: nat)
    requires AllValid(patches) && AllStorable(MergeResult(patches, newId)) && Known(opType) && opType != "LINK"
    requires if opType in {"ADD_TASK", "STATE"} then TopEntry(patches, i, k, opType, t) else LatestEntry(patches, i, k, opType, t)
    ensures n < |StoredOps(MergeResult(patches, newId))|
    ensures
      var ops := StoredOps(MergeResult(patches, newId));
      && ops[n].taskId == t && Says(ops[n].body, patches[i].ops[k]) && ops[n].actorId == patches[i].actorId
      && forall m :: 0 <= m < |ops| && ops[m].taskId == t && SameType(ops[m].body, ops[n].body) ==> m == n
  {
    ReadSurvives(patches, i, k, opType, t);
    assert patches[i] in patches;
    BodyReads(patches[i].ops[k]);
    n := SurvivorEmitted(patches, newId, TagOp(patches[i].ops[k], patches[i]));
  }

  // ---------- links ----------

  /** The edges that the LINK entries of the patches name. */
  ghost function NamedEdges(patches: seq<PlanPatch>): set<Edge>
  {
    set p, op | p in patches && op in p.ops && op.opType == Some("LINK")
                && "parent" in PayloadOf(op) && "child" in PayloadOf(op)
      :: (PayloadOf(op)["parent"], PayloadOf(op)["child"])
  }

  lemma EdgesNamed(patches: seq<PlanPatch>)
    requires AllValid(patches)
    ensures LinkEdges(MergeOrder(patches)) <= NamedEdges(patches)
  {
    MergeOrderFacts(patches);
    forall e | e in MergeOrder(patches) && e.body.Link? ensures (e.body.parent, e.body.child) in NamedEdges(patches) {
      var p, k :| p in patches && IsEntryOf(e, p, k);
      BodyReads(p.ops[k]);
      assert p.ops[k] in p.ops;
    }
  }

  lemma {:induction false} LinksWithin(entries: seq<Entry>)
    ensures EdgeSet(TakeAll(entries).links) <= LinkEdges(entries)
  {
    if entries != [] {
      LinksWithin(entries[..|entries| - 1]);
      FrontAndLast(entries);
      assert LinkEdges(entries[..|entries| - 1]) <= LinkEdges(entries);
    }
  }

  lemma AcceptedIfAcyclic(entries: seq<Entry>, i: nat)
    requires !Cyclic(LinkEdges(entries)) && i < |entries| && entries[i].body.Link?
    ensures Accepted(entries, i)
  {
    var links, edge := TakeAll(entries[..i]).links, (entries[i].body.parent, entries[i].body.child);
    LinksWithin(entries[..i]);
    assert LinkEdges(entries[..i]) <= LinkEdges(entries);
    assert EdgeSet(links + [edge]) == EdgeSet(links) + {edge};
    FewerEdgesStayAcyclic(LinkEdges(entries), EdgeSet(links + [edge]));
  }

  lemma {:induction false} LastOfIs(entries: seq<Entry>, t: string, kind: Kind, pos: int)
    requires LastWithKey(entries, t, kind, pos)
    ensures LastOf(entries, t, kind) == Some(entries[pos])
  {
    if pos < |entries| - 1 {
      LastOfIs(entries[..|entries| - 1], t, kind, pos);
    }
  }

  /** Without cycles the last LINK of a task is kept. */
  lemma LastLinkStays(entries: seq<Entry>, t: string)
    requires !Cyclic(LinkEdges(entries))
    ensures Lookup(TakeAll(entries).others, t, KLink) == LastOf(entries, t, KLink)
  {
    LastLinkKept(entries, t);
    LastOfMember(entries, t, KLink);
    forall i | 0 <= i < |entries| && HasKey(entries[i], t, KLink) ensures Accepted(entries, i) {
      AcceptedIfAcyclic(entries, i);
    }
    match Lookup(TakeAll(entries).others, t, KLink)
    case Some(e) =>
      var i :| LastAccepted(entries, t, i) && entries[i] == e;
      assert LastWithKey(entries, t, KLink, i);
      LastOfIs(entries, t, KLink, i);
    case None =>
      assert forall e :: e in entries ==> !HasKey(e, t, KLink);
  }

  /** If the edges that the patches name form no cycle, the last LINK entry of each task comes out. */
  lemma LinkEmitted(patches: seq<PlanPatch>, newId: nat -> string, i: int, k: int, t: string) returns (n: nat)
    requires AllValid(patches) && AllStorable(MergeResult(patches, newId))
    requires !Cyclic(NamedEdges(patches)) && LatestEntry(patches, i, k, "LINK", t)
    ensures n < |StoredOps(MergeResult(patches, newId))|
    ensures
      var ops := StoredOps(MergeResult(patches, newId));
      && ops[n].taskId == t && Says(ops[n].body, patches[i].ops[k]) && ops[n].actorId == patches[i].actorId
      && forall m :: 0 <= m < |ops| && ops[m].taskId == t && SameType(ops[m].body, ops[n].body) ==> m == n
  {
    var order := MergeOrder(patches);
    ValidEntries(patches);
    EdgesNamed(patches);
    FewerEdgesStayAcyclic(NamedEdges(patches), LinkEdges(order));
    LatestIsLast(patches, i, k, "LINK", t);
    LastLinkStays(order, t);
    LookedUp(TakeAll(order).others, t, KLink, TagOp(patches[i].ops[k], patches[i]));
    assert patches[i] in patches;
    BodyReads(patches[i].ops[k]);
    n := SurvivorEmitted(patches, newId, TagOp(patches[i].ops[k], patches[i]));
  }
}
