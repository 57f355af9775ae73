/** What a run finds in a graph that passed validation. */
module ValidatedGraphs {
  import opened Collections
  import opened WorkflowGraphs
  import opened GraphValidation
  import opened WorkflowWalk
  import opened WorkflowRunner

  lemma {:induction false} FoundIsFirstTrigger(nodes: seq<Node>)
    requires |Filter(nodes, (n: Node) => n.kind == TRIGGER)| > 0
    ensures FindTrigger(nodes) == Some(Filter(nodes, (n: Node) => n.kind == TRIGGER)[0])
  {
    if nodes[0].kind != TRIGGER {
      FoundIsFirstTrigger(nodes[1..]);
    }
  }

  /** The world of a run: its snapshot, ranked by what each node can reach. */
  ghost function World(g: Graph, handler: Handler, test: Tester): Env
    requires WellFormed(g)
  {
    Env(g, ReachRanks(g, Root(g)), handler, test)
  }

  lemma {:induction false} FoundIsUnique(nodes: seq<Node>, n: Node)
    requires n in nodes && forall i, j :: 0 <= i < j < |nodes| ==> nodes[i].id != nodes[j].id
    ensures FindNode(nodes, n.id) == Some(n)
  {
    FoundIfPresent(nodes, n.id);
  }

  /** On a graph that passed validation the runner finds the trigger, every lookup of a node succeeds,
      and what the run can visit is acyclic. */
  lemma ValidatedGraphRuns(g: Graph, handler: Handler, test: Tester) returns (trigger: Node)
    requires WellFormed(g)
    ensures FindTrigger(g.nodes) == Some(trigger) && trigger in g.nodes && trigger.id == Root(g)
    ensures Acyclic(World(g, handler, test)) && trigger.id in World(g, handler, test).ranks
    ensures forall e :: e in g.edges ==> GetNode(g, e.target).Some?
    ensures forall n :: n in g.nodes ==> GetNode(g, n.id) == Some(n)
  {
    FoundIsFirstTrigger(g.nodes);
    trigger := FindTrigger(g.nodes).value;
    AcyclicIsLayered(g, trigger.id);
    forall n | n in g.nodes
      ensures GetNode(g, n.id) == Some(n)
    {
      FoundIsUnique(g.nodes, n);
    }
  }
}
