/** A merged patch set, applied to a plan that has links already. */
module PatchedPlan {
  import opened Collections
  import opened PlanOps
  import opened StableSort
  import opened Patches
  import opened CycleDetection
  import opened PatchMerge
  import opened PatchWinners
  import opened PlanMeaning
  import opened MergedPlan

  // ---------- cycles through two sets of edges ----------

  lemma ReachBoth(edges: set<Edge>, a: string, b: string, c: string)
    requires Reaches(edges, a, b) && Reaches(edges, b, c)
    ensures Reaches(edges, a, c)
  {
    var p :| IsPath(edges, p) && p[0] == a && p[|p| - 1] == b;
    var q :| IsPath(edges, q) && q[0] == b && q[|q| - 1] == c;
    var r := p + q[1..];
    forall i | 0 <= i < |r| - 1 ensures (r[i], r[i + 1]) in edges {
      if i < |p| - 1 {
        assert (p[i], p[i + 1]) in edges;
      } else {
        var k := i - (|p| - 1);
        assert (q[k], q[k + 1]) in edges;
      }
    }
    assert IsPath(edges, r) && r[0] == a && r[|r| - 1] == c;
  }

  lemma ReachMore(edges: set<Edge>, more: set<Edge>, a: string, b: string)
    requires Reaches(edges, a, b) && edges <= more
    ensures Reaches(more, a, b)
  {
    var p :| IsPath(edges, p) && p[0] == a && p[|p| - 1] == b;
    assert IsPath(more, p);
  }

  lemma ReachSelf(edges: set<Edge>, a: string)
    ensures Reaches(edges, a, a)
  {
    assert IsPath(edges, [a]);
  }

  /** From one task to another along paths of the plan, with new links between them. */
  ghost predicate Leads(plan: set<Edge>, added: set<Edge>, from: string, links: seq<Edge>, to: string)
  {
    if links == [] then Reaches(plan, from, to)
    else
      var last := links[|links| - 1];
      last in added && Leads(plan, added, from, links[..|links| - 1], last.0) && Reaches(plan, last.1, to)
  }

  /** New links that lead round to each other through the plan. */
  ghost predicate ClosesRing(plan: set<Edge>, added: set<Edge>)
  {
    exists e: Edge, links :: e in added && Leads(plan, added, e.1, links, e.0)
  }

  lemma {:induction false} LeadsReaches(plan: set<Edge>, added: set<Edge>, from: string, links: seq<Edge>, to: string)
    requires Leads(plan, added, from, links, to)
    ensures Reaches(plan + added, from, to)
  {
    if links == [] {
      ReachMore(plan, plan + added, from, to);
    } else {
      var last := links[|links| - 1];
      LeadsReaches(plan, added, from, links[..|links| - 1], last.0);
      ExtendReach(plan + added, from, last.0, last.1);
      ReachMore(plan, plan + added, last.1, to);
      ReachBoth(plan + added, from, last.1, to);
    }
  }

  lemma LeadsOn(plan: set<Edge>, added: set<Edge>, from: string, links: seq<Edge>, via: string, to: string)
    requires Leads(plan, added, from, links, via) && (via, to) in plan
    ensures Leads(plan, added, from, links, to)
  {
    if links == [] {
      ExtendReach(plan, from, via, to);
    } else {
      ExtendReach(plan, links[|links| - 1].1, via, to);
    }
  }

  lemma LeadsByLink(plan: set<Edge>, added: set<Edge>, from: string, links: seq<Edge>, e: Edge)
    requires Leads(plan, added, from, links, e.0) && e in added
    ensures Leads(plan, added, from, links + [e], e.1)
  {
    var more := links + [e];
    assert more[..|more| - 1] == links && more[|more| - 1] == e;
    ReachSelf(plan, e.1);
  }

  lemma {:induction false} PathLeads(plan: set<Edge>, added: set<Edge>, p: seq<string>) returns (links: seq<Edge>)
    requires IsPath(plan + added, p)
    ensures Leads(plan, added, p[0], links, p[|p| - 1])
  {
    if |p| == 1 {
      links := [];
      ReachSelf(plan, p[0]);
    } else {
      var front, n := p[..|p| - 1], |p| - 2;
      assert (p[n], p[n + 1]) in plan + added;
      assert IsPath(plan + added, front) by {
        forall i | 0 <= i < |front| - 1 ensures (front[i], front[i + 1]) in plan + added {
          assert (p[i], p[i + 1]) in plan + added;
        }
      }
      links := PathLeads(plan, added, front);
      if (p[n], p[n + 1]) in plan {
        LeadsOn(plan, added, p[0], links, p[n], p[n + 1]);
      } else {
        LeadsByLink(plan, added, p[0], links, (p[n], p[n + 1]));
        links := links + [(p[n], p[n + 1])];
      }
    }
  }

  lemma PartReaches(edges: set<Edge>, p: seq<string>, i: nat, j: nat)
    requires IsPath(edges, p) && i <= j < |p|
    ensures Reaches(edges, p[i], p[j])
  {
    var q := p[i..j + 1];
    forall k | 0 <= k < |q| - 1 ensures (q[k], q[k + 1]) in edges {
      assert (p[i + k], p[i + k + 1]) in edges;
    }
    assert IsPath(edges, q) && q[0] == p[i] && q[|q| - 1] == p[j];
  }

  /** Walking on round a cycle leads from the end of each edge back to its start. */
  lemma CycleReturns(edges: set<Edge>, p: seq<string>, k: nat)
    requires IsCycle(edges, p) && k < |p| - 1
    ensures Reaches(edges, p[k + 1], p[k])
  {
    PartReaches(edges, p, k + 1, |p| - 1);
    PartReaches(edges, p, 0, k);
    ReachBoth(edges, p[k + 1], p[0], p[k]);
  }

  lemma RingFromCycle(plan: set<Edge>, added: set<Edge>, p: seq<string>)
    requires IsCycle(plan + added, p) && !Cyclic(plan)
    ensures ClosesRing(plan, added)
  {
    if k :| 0 <= k < |p| - 1 && (p[k], p[k + 1]) in added {
      CycleReturns(plan + added, p, k);
      var q :| IsPath(plan + added, q) && q[0] == p[k + 1] && q[|q| - 1] == p[k];
      var links := PathLeads(plan, added, q);
      var e: Edge := (p[k], p[k + 1]);
      assert e in added && Leads(plan, added, e.1, links, e.0);
    } else {
      forall i | 0 <= i < |p| - 1 ensures (p[i], p[i + 1]) in plan {
        assert (p[i], p[i + 1]) in plan + added;
      }
      assert IsCycle(plan, p);
      assert false;
    }
  }

  /** Two sets of edges together have a cycle exactly if the first has one or the second closes a ring over it. */
  lemma CyclicUnionIff(plan: set<Edge>, added: set<Edge>)
    ensures Cyclic(plan + added) <==> Cyclic(plan) || ClosesRing(plan, added)
  {
    if Cyclic(plan) {
      var p :| IsCycle(plan, p);
      assert IsCycle(plan + added, p);
    } else if Cyclic(plan + added) {
      var p :| IsCycle(plan + added, p);
      RingFromCycle(plan, added, p);
    }
    if ClosesRing(plan, added) {
      var e: Edge, links :| e in added && Leads(plan, added, e.1, links, e.0);
      LeadsReaches(plan, added, e.1, links, e.0);
      CloseCycle(plan + added, e.1, e.0);
    }
  }

  // ---------- the patched plan ----------

  lemma AppendedEdges(log: seq<PlanOp>, more: seq<PlanOp>)
    ensures ViewEdges(Replay(log + more)) == ViewEdges(Replay(log)) + ViewEdges(Replay(more))
  {
    forall e: Edge
      ensures e in ViewEdges(Replay(log + more)) <==> e in ViewEdges(Replay(log)) || e in ViewEdges(Replay(more))
    {
      InViewEdges(log + more, e);
      InViewEdges(log, e);
      InViewEdges(more, e);
      LinkedIn(log, more, e);
    }
  }

  lemma LinkedIn(log: seq<PlanOp>, more: seq<PlanOp>, e: Edge)
    ensures Linked(log + more, e.0, e.1) <==> Linked(log, e.0, e.1) || Linked(more, e.0, e.1)
  {
    assert forall op :: op in log + more <==> op in log || op in more;
  }

  /**
   * The merge knows the links of the patches alone. A plan with links of its own, once the output is applied,
   * is free of cycles exactly if it was so before and the links kept close no ring over it.
   */
  lemma PatchedPlanAcyclicIff(log: seq<PlanOp>, patches: seq<PlanPatch>, newId: nat -> string)
    requires AllStorable(MergeResult(patches, newId))
    ensures
      var plan := ViewEdges(Replay(log));
      !Cyclic(ViewEdges(Replay(log + StoredOps(MergeResult(patches, newId)))))
      <==> !Cyclic(plan) && !ClosesRing(plan, LinkEdges(Survivors(patches)))
  {
    var out := StoredOps(MergeResult(patches, newId));
    OutputShape(patches, newId);
    ViewEdgesCome(out, Survivors(patches));
    AppendedEdges(log, out);
    CyclicUnionIff(ViewEdges(Replay(log)), LinkEdges(Survivors(patches)));
  }

  // ---------- a plan that a patch makes cyclic ----------

  /** A patch with one LINK from `parent` to `child`. */
  function OneLink(parent: string, child: string): PlanPatch
  {
    PlanPatch("p", "q", 0, [OpData(Some("LINK"), Some(child), Some(map["parent" := parent, "child" := child]))])
  }

  function LinkEntry(parent: string, child: string): Entry
  {
    Entry(child, PatchBody.Link(parent, child), 0, "q")
  }

  lemma OneLinkEntries(parent: string, child: string)
    ensures child != "" ==> ValidPatch(OneLink(parent, child))
    ensures EntriesOf(OneLink(parent, child)) == [LinkEntry(parent, child)]
  {
    var patch := OneLink(parent, child);
    var op := patch.ops[0];
    assert "parent" in PayloadOf(op) && "child" in PayloadOf(op);
    assert op.opType.value == "LINK" && "LINK" in OP_TYPES;
    assert TagOps(patch, 0) == [];
    assert TagOps(patch, 1) == [TagOp(op, patch)];
    assert BodyOf(op) == PatchBody.Link(parent, child) by {
      assert |"LINK"| == 4 && |"ADD_TASK"| == 8 && |"STATE"| == 5;
    }
  }

  lemma OneLinkOrder(parent: string, child: string)
    ensures MergeOrder([OneLink(parent, child)]) == [LinkEntry(parent, child)]
  {
    var patches := [OneLink(parent, child)];
    PatchOrder();
    SortOfSorted(patches, PatchBefore);
    OneLinkEntries(parent, child);
    assert patches[..0] == [] && Flatten([]) == [];
    assert Flatten(patches) == [] + EntriesOf(patches[0]);
  }

  lemma OneLinkSurvives(parent: string, child: string)
    requires parent != child
    ensures Survivors([OneLink(parent, child)]) == [LinkEntry(parent, child)]
  {
    var e := LinkEntry(parent, child);
    OneLinkOrder(parent, child);
    assert [e][..0] == [] && [] + [(parent, child)] == [(parent, child)];
    FanOutIsAcyclic(EdgeSet([(parent, child)]), parent);
    assert TakeAll([e]) == Take(Tracker([], [], []), e);
  }

  /** A plan in which b depends on a, and a valid patch by which a depends on b: the patched plan is cyclic. */
  lemma PatchClosesCycle(a: string, b: string, first: PlanOp, newId: nat -> string)
    requires a != "" && a != b && first.body == OpBody.Link(a, b)
    ensures
      var out := MergeResult([OneLink(b, a)], newId);
      && ValidPatch(OneLink(b, a)) && AllStorable(out) && !Cyclic(ViewEdges(Replay([first])))
      && Cyclic(ViewEdges(Replay([first] + StoredOps(out))))
  {
    var patches := [OneLink(b, a)];
    OneLinkEntries(b, a);
    OneLinkSurvives(b, a);
    EmitStorable(Survivors(patches), MaxBase(patches) + 1, newId);
    PatchedPlanAcyclicIff([first], patches, newId);
    OneEdge(first, a, b);
    assert Survivors(patches)[0] in Survivors(patches);
    RingOfTwo(ViewEdges(Replay([first])), LinkEdges(Survivors(patches)), a, b);
  }

  lemma OneEdge(first: PlanOp, a: string, b: string)
    requires a != b && first.body == OpBody.Link(a, b)
    ensures ViewEdges(Replay([first])) == {(a, b)} && !Cyclic({(a, b)})
  {
    forall e: Edge ensures e in ViewEdges(Replay([first])) <==> e == (a, b) {
      InViewEdges([first], e);
    }
    FanOutIsAcyclic({(a, b)}, a);
  }

  lemma RingOfTwo(plan: set<Edge>, added: set<Edge>, a: string, b: string)
    requires (a, b) in plan && (b, a) in added
    ensures ClosesRing(plan, added)
  {
    var e: Edge := (b, a);
    assert IsPath(plan, [a, b]);
    assert Leads(plan, added, e.1, [], e.0);
  }
}
