/** Paths of a workflow graph that leave no END node: the ways a run can go. */
module GraphPaths {
  import opened Collections
  import opened WorkflowGraphs

  /** A path is the list of the positions of its edges in the edge list. */
  type Path = seq<nat>

  /** The path starts at `id` and leaves no END node. */
  ghost predicate IsPath(g: Graph, id: string, p: Path)
    decreases |p|
  {
    p == [] ||
    (!IsEnd(g, id) && p[0] < |g.edges| && g.edges[p[0]].source == id && IsPath(g, g.edges[p[0]].target, p[1..]))
  }

  function PathEnd(g: Graph, id: string, p: Path): string
    decreases |p|
  {
    if p == [] || p[0] >= |g.edges| then id else PathEnd(g, g.edges[p[0]].target, p[1..])
  }

  lemma {:induction false} PathGoesOn(g: Graph, id: string, p: Path, i: nat)
    requires IsPath(g, id, p) && !IsEnd(g, PathEnd(g, id, p))
    requires i < |g.edges| && g.edges[i].source == PathEnd(g, id, p)
    ensures IsPath(g, id, p + [i]) && PathEnd(g, id, p + [i]) == g.edges[i].target
    decreases |p|
  {
    var q := p + [i];
    if p == [] {
      assert q[1..] == [];
    } else {
      assert q[1..] == p[1..] + [i];
      PathGoesOn(g, g.edges[p[0]].target, p[1..], i);
    }
  }

  /** Some path leads from `a` to the node, which is the one that its id finds. */
  ghost predicate Visitable(g: Graph, a: string, node: Node)
  {
    GetNode(g, node.id) == Some(node) && exists p :: IsPath(g, a, p) && PathEnd(g, a, p) == node.id
  }

  lemma FirstIsVisitable(g: Graph, node: Node)
    requires GetNode(g, node.id) == Some(node)
    ensures Visitable(g, node.id, node)
  {
    var none: Path := [];
    assert IsPath(g, node.id, none) && PathEnd(g, node.id, none) == node.id;
  }

  lemma NextIsVisitable(g: Graph, a: string, node: Node, e: Edge, next: Node)
    requires Visitable(g, a, node) && node.kind != END
    requires e in g.edges && e.source == node.id && GetNode(g, e.target) == Some(next)
    ensures Visitable(g, a, next)
  {
    var p :| IsPath(g, a, p) && PathEnd(g, a, p) == node.id;
    var i :| 0 <= i < |g.edges| && g.edges[i] == e;
    PathGoesOn(g, a, p, i);
  }
}
