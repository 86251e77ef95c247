/** Depth-first cycle detection over the parent/child edges of a plan. */
module CycleDetection {

  type Edge = (string, string)

  /** `p` follows edges from its first node to its last. */
  ghost predicate IsPath(edges: set<Edge>, p: seq<string>)
  {
    p != [] && forall i :: 0 <= i < |p| - 1 ==> (p[i], p[i + 1]) in edges
  }

  ghost predicate Reaches(edges: set<Edge>, from: string, to: string)
  {
    exists p :: IsPath(edges, p) && p[0] == from && p[|p| - 1] == to
  }

  /** A closed walk of at least one edge; a self-loop counts. */
  ghost predicate IsCycle(edges: set<Edge>, p: seq<string>)
  {
    |p| >= 2 && IsPath(edges, p) && p[0] == p[|p| - 1]
  }

  ghost predicate Cyclic(edges: set<Edge>)
  {
    exists p :: IsCycle(edges, p)
  }

  ghost predicate OnCycle(edges: set<Edge>, v: string)
  {
    exists p :: IsCycle(edges, p) && p[0] == v
  }

  function EdgeSet(edges: seq<Edge>): set<Edge>
  {
    set e | e in edges
  }

  type Graph = map<string, set<string>>

  /** The adjacency map holds exactly the given edges. */
  ghost predicate Represents(g: Graph, edges: set<Edge>)
  {
    forall v, w :: (v, w) in edges <==> v in g && w in g[v]
  }

  function Neighbours(g: Graph, v: string): set<string>
  {
    if v in g then g[v] else {}
  }

  ghost function Nodes(g: Graph): set<string>
  {
    g.Keys + set v, w | v in g && w in g[v] :: w
  }

  /** Fully explored nodes: their edges stay among them and none lies on a cycle. */
  ghost predicate Finished(edges: set<Edge>, done: set<string>)
  {
    && (forall v, w :: v in done && (v, w) in edges ==> w in done)
    && (forall v :: v in done ==> !OnCycle(edges, v))
  }

  lemma ExtendReach(edges: set<Edge>, from: string, via: string, to: string)
    requires Reaches(edges, from, via) && (via, to) in edges
    ensures Reaches(edges, from, to)
  {
    var p :| IsPath(edges, p) && p[0] == from && p[|p| - 1] == via;
    var q := p + [to];
    assert IsPath(edges, q) && q[0] == from && q[|q| - 1] == to;
  }

  lemma CloseCycle(edges: set<Edge>, from: string, last: string)
    requires Reaches(edges, from, last) && (last, from) in edges
    ensures Cyclic(edges)
  {
    var p :| IsPath(edges, p) && p[0] == from && p[|p| - 1] == last;
    assert IsCycle(edges, p + [from]);
  }

  lemma {:induction false} PathStaysInside(edges: set<Edge>, done: set<string>, p: seq<string>, i: nat)
    requires IsPath(edges, p) && i < |p| && p[0] in done
    requires forall v, w :: v in done && (v, w) in edges ==> w in done
    ensures p[i] in done
  {
    if i > 0 {
      PathStaysInside(edges, done, p, i - 1);
      assert (p[i - 1], p[i]) in edges;
    }
  }

  /** A node whose successors are all finished, and which is not itself finished, closes no cycle. */
  lemma FinishNode(edges: set<Edge>, done: set<string>, node: string)
    requires Finished(edges, done) && node !in done
    requires forall w :: (node, w) in edges ==> w in done
    ensures Finished(edges, done + {node})
  {
    if OnCycle(edges, node) {
      var p :| IsCycle(edges, p) && p[0] == node;
      var tail := p[1..];
      assert (p[0], p[1]) in edges;
      assert IsPath(edges, tail) by {
        forall i | 0 <= i < |tail| - 1 ensures (tail[i], tail[i + 1]) in edges {
          assert (p[i + 1], p[i + 2]) in edges;
        }
      }
      PathStaysInside(edges, done, tail, |tail| - 1);
      assert false;
    }
  }

  /** Explores from `node`: `visited` grows along the search, `recStack` grows and shrinks with it. */
  method HasCycleFrom(g: Graph, node: string, visited: set<string>, recStack: set<string>, ghost edges: set<Edge>)
    returns (found: bool, visited': set<string>, recStack': set<string>)
    requires Represents(g, edges)
    requires node !in visited && recStack <= visited
    requires node in Nodes(g) && visited <= Nodes(g)
    requires forall s :: s in recStack ==> Reaches(edges, s, node)
    requires Finished(edges, visited - recStack)
    ensures found ==> Cyclic(edges)
    ensures !found ==> recStack' == recStack && visited + {node} <= visited' <= Nodes(g)
    ensures !found ==> Finished(edges, visited' - recStack)
    decreases Nodes(g) - visited
  {
    visited' := visited + {node};
    recStack' := recStack + {node};
    found := false;
    assert visited' - recStack' == visited - recStack;
    assert Reaches(edges, node, node) by { assert IsPath(edges, [node]); }
    var todo := Neighbours(g, node);
    while todo != {}
      invariant !found && todo <= Neighbours(g, node)
      invariant recStack' == recStack + {node} && visited + {node} <= visited' <= Nodes(g)
      invariant Finished(edges, visited' - recStack')
      invariant Neighbours(g, node) - todo <= visited' - recStack'
      decreases |todo|
    {
      var neighbour :| neighbour in todo;
      todo := todo - {neighbour};
      assert (node, neighbour) in edges;
      if neighbour !in visited' {
        forall s | s in recStack' ensures Reaches(edges, s, neighbour) {
          ExtendReach(edges, s, node, neighbour);
        }
        assert neighbour !in recStack';
        ghost var processed := Neighbours(g, node) - todo - {neighbour};
        assert processed <= visited' - recStack';
        found, visited', recStack' := HasCycleFrom(g, neighbour, visited', recStack', edges);
        if found {
          return;
        }
        assert Neighbours(g, node) - todo == processed + {neighbour};
      } else if neighbour in recStack' {
        CloseCycle(edges, neighbour, node);
        return true, visited', recStack';
      }
    }
    ghost var done := visited' - recStack';
    FinishNode(edges, done, node);
    recStack' := recStack' - {node};
    assert recStack' == recStack;
    assert visited' - recStack == done + {node};
  }

  method BuildGraph(allEdges: seq<Edge>) returns (g: Graph)
    ensures Represents(g, EdgeSet(allEdges))
  {
    g := map[];
    for i := 0 to |allEdges|
      invariant Represents(g, EdgeSet(allEdges[..i]))
    {
      var (parent, child) := allEdges[i];
      assert allEdges[..i + 1] == allEdges[..i] + [allEdges[i]];
      if parent !in g {
        g := g[parent := {}];
      }
      g := g[parent := g[parent] + {child}];
    }
    assert allEdges[..|allEdges|] == allEdges;
  }

  /** A graph none of whose source nodes is on a cycle is acyclic. */
  lemma AllFinished(g: Graph, edges: set<Edge>, done: set<string>)
    requires Represents(g, edges) && Finished(edges, done) && g.Keys <= done
    ensures !Cyclic(edges)
  {
    if Cyclic(edges) {
      var p :| IsCycle(edges, p);
      assert (p[0], p[1]) in edges;
      assert p[0] in g;
      assert OnCycle(edges, p[0]);
      assert false;
    }
  }

  /** True exactly when the existing edges together with the new one contain a directed cycle. */
  method DetectCycle(edges: seq<Edge>, newEdge: Edge) returns (cyclic: bool)
    ensures cyclic <==> Cyclic(EdgeSet(edges + [newEdge]))
  {
    var allEdges := edges + [newEdge];
    ghost var es := EdgeSet(allEdges);
    var g := BuildGraph(allEdges);
    var visited: set<string> := {};
    var todo := g.Keys;
    while todo != {}
      invariant todo <= g.Keys && visited <= Nodes(g)
      invariant Finished(es, visited)
      invariant g.Keys - todo <= visited
      decreases |todo|
    {
      var node :| node in todo;
      todo := todo - {node};
      if node !in visited {
        var found, visited', _ := HasCycleFrom(g, node, visited, {}, es);
        if found {
          return true;
        }
        visited := visited';
        assert visited - {} == visited;
      }
    }
    AllFinished(g, es, visited);
    cyclic := false;
  }

  /** Dropping edges cannot create a cycle. */
  lemma FewerEdgesStayAcyclic(edges: set<Edge>, fewer: set<Edge>)
    requires fewer <= edges && !Cyclic(edges)
    ensures !Cyclic(fewer)
  {
    if Cyclic(fewer) {
      var p :| IsCycle(fewer, p);
      assert IsCycle(edges, p);
      assert false;
    }
  }
}
