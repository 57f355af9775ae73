/** Workflow graphs: the stored definition, its lookups, and reachability. */
module WorkflowGraphs {
  import opened Collections

  /** A JSON value; the models never look inside one. */
  type Json = string

  /** A missing id, type or name is the empty string, which the code treats alike. */
  datatype Node = Node(id: string, kind: string, name: string, configuration: Json)

  datatype Condition = Always | Test(expression: string)

  datatype Edge = Edge(id: string, source: string, target: string, condition: Condition)

  datatype Graph = Graph(nodes: seq<Node>, edges: seq<Edge>)

  const TRIGGER := "TRIGGER"
  const PARALLEL := "PARALLEL"
  const END := "END"

  /** The node types that have a registered handler. */
  const HANDLED: set<string> :=
    {TRIGGER, END, "WAIT", "AGENT", "ACTION", "CONDITION", PARALLEL}

  function OutgoingEdges(g: Graph, id: string): seq<Edge>
  {
    Filter(g.edges, (e: Edge) => e.source == id)
  }

  lemma OutgoingMember(g: Graph, id: string, e: Edge)
    ensures e in OutgoingEdges(g, id) <==> e in g.edges && e.source == id
  {
    FilterMember(g.edges, (e: Edge) => e.source == id, e);
  }

  function FindNode(nodes: seq<Node>, id: string): (r: Option<Node>)
    ensures r.Some? ==> r.value in nodes && r.value.id == id
  {
    if nodes == [] then None
    else if nodes[0].id == id then Some(nodes[0])
    else FindNode(nodes[1..], id)
  }

  function GetNode(g: Graph, id: string): (r: Option<Node>)
    ensures r.Some? ==> r.value in g.nodes && r.value.id == id
  {
    FindNode(g.nodes, id)
  }

  predicate IsEnd(g: Graph, id: string)
  {
    var n := GetNode(g, id);
    n.Some? && n.value.kind == END
  }

  lemma {:induction false} FoundIfPresent(nodes: seq<Node>, id: string)
    ensures FindNode(nodes, id).Some? <==> exists n :: n in nodes && n.id == id
  {
    if nodes != [] {
      assert nodes == [nodes[0]] + nodes[1..];
      FoundIfPresent(nodes[1..], id);
    }
  }

  lemma FindCons(x: Node, rest: seq<Node>, id: string)
    ensures FindNode([x] + rest, id) == if x.id == id then Some(x) else FindNode(rest, id)
  {
    assert ([x] + rest)[1..] == rest;
  }

  // ---------- reachability ----------

  ghost predicate HasEdge(g: Graph, a: string, b: string)
  {
    exists e :: e in g.edges && e.source == a && e.target == b
  }

  /** There is a route of exactly `n` edges from `a` to `b`. */
  ghost predicate ReachesIn(g: Graph, a: string, b: string, n: nat)
    decreases n
  {
    if n == 0 then a == b else exists c :: HasEdge(g, a, c) && ReachesIn(g, c, b, n - 1)
  }

  ghost predicate Reaches(g: Graph, a: string, b: string)
  {
    exists n: nat :: ReachesIn(g, a, b, n)
  }

  /** `v` lies on a directed cycle. */
  ghost predicate OnCycle(g: Graph, v: string)
  {
    exists w :: HasEdge(g, v, w) && Reaches(g, w, v)
  }

  /** No node reachable from `root` lies on a cycle. */
  ghost predicate AcyclicFrom(g: Graph, root: string)
  {
    forall v :: Reaches(g, root, v) ==> !OnCycle(g, v)
  }

  lemma ReachesSelf(g: Graph, a: string)
    ensures Reaches(g, a, a)
  {
    assert ReachesIn(g, a, a, 0);
  }

  lemma ReachesFirst(g: Graph, a: string, b: string, c: string)
    requires HasEdge(g, a, b) && Reaches(g, b, c)
    ensures Reaches(g, a, c)
  {
    var n: nat :| ReachesIn(g, b, c, n);
    assert ReachesIn(g, a, c, n + 1);
  }

  lemma ReachesEdge(g: Graph, a: string, b: string)
    requires HasEdge(g, a, b)
    ensures Reaches(g, a, b)
  {
    ReachesSelf(g, b);
    ReachesFirst(g, a, b, b);
  }

  lemma ReachesTransitive(g: Graph, a: string, b: string, c: string)
    requires Reaches(g, a, b) && Reaches(g, b, c)
    ensures Reaches(g, a, c)
  {
    var n: nat :| ReachesIn(g, a, b, n);
    ReachesPrepend(g, a, b, c, n);
  }

  lemma {:induction false} ReachesPrepend(g: Graph, a: string, b: string, c: string, n: nat)
    requires ReachesIn(g, a, b, n) && Reaches(g, b, c)
    ensures Reaches(g, a, c)
    decreases n
  {
    if n > 0 {
      var d :| HasEdge(g, a, d) && ReachesIn(g, d, b, n - 1);
      ReachesPrepend(g, d, b, c, n - 1);
      ReachesFirst(g, a, d, c);
    }
  }

  /** A set that contains `a` and is closed under edges contains all that `a` reaches. */
  lemma ClosedContainsReachable(g: Graph, s: set<string>, a: string, b: string)
    requires a in s && Reaches(g, a, b)
    requires forall x, y :: x in s && HasEdge(g, x, y) ==> y in s
    ensures b in s
  {
    var n: nat :| ReachesIn(g, a, b, n);
    ClosedContainsRoute(g, s, a, b, n);
  }

  lemma {:induction false} ClosedContainsRoute(g: Graph, s: set<string>, a: string, b: string, n: nat)
    requires a in s && ReachesIn(g, a, b, n)
    requires forall x, y :: x in s && HasEdge(g, x, y) ==> y in s
    ensures b in s
    decreases n
  {
    if n > 0 {
      var d :| HasEdge(g, a, d) && ReachesIn(g, d, b, n - 1);
      ClosedContainsRoute(g, s, d, b, n - 1);
    }
  }

  /** An id reached from elsewhere is the target of an edge. */
  lemma {:induction false} ReachedIsTarget(g: Graph, a: string, b: string, n: nat)
    requires ReachesIn(g, a, b, n)
    ensures b == a || b in Universe(g)
    decreases n
  {
    if n > 0 {
      var d :| HasEdge(g, a, d) && ReachesIn(g, d, b, n - 1);
      ReachedIsTarget(g, d, b, n - 1);
    }
  }

  // ---------- a rank that decreases along edges ----------

  ghost function Universe(g: Graph): set<string>
  {
    set e | e in g.edges :: e.target
  }

  /** The ids with a rank are closed under edges, and the rank drops along every edge. */
  type Ranks = map<string, nat>

  ghost predicate Layered(g: Graph, ranks: Ranks)
  {
    forall e :: e in g.edges && e.source in ranks ==> e.target in ranks && ranks[e.target] < ranks[e.source]
  }

  ghost function ReachSet(g: Graph, a: string): set<string>
  {
    set x | x in Universe(g) + {a} && Reaches(g, a, x)
  }

  /** Rank each id that `root` reaches by how many ids it reaches itself. */
  ghost function ReachRanks(g: Graph, root: string): Ranks
  {
    map x | x in ReachSet(g, root) :: |ReachSet(g, x)|
  }

  /** Below an id from which no cycle is reachable, that rank drops along every edge. */
  lemma AcyclicIsLayered(g: Graph, root: string)
    requires AcyclicFrom(g, root)
    ensures Layered(g, ReachRanks(g, root)) && root in ReachRanks(g, root)
  {
    ReachesSelf(g, root);
    forall e | e in g.edges && Reaches(g, root, e.source)
      ensures e.target in ReachSet(g, root) && |ReachSet(g, e.target)| < |ReachSet(g, e.source)|
    {
      assert HasEdge(g, e.source, e.target);
      ReachesEdge(g, e.source, e.target);
      ReachesTransitive(g, root, e.source, e.target);
      assert e.target in Universe(g);
      assert !OnCycle(g, e.source);
      ReachSetShrinks(g, e.source, e.target);
    }
  }

  lemma ReachSetShrinks(g: Graph, a: string, b: string)
    requires HasEdge(g, a, b) && !OnCycle(g, a)
    ensures |ReachSet(g, b)| < |ReachSet(g, a)|
  {
    ReachesSelf(g, a);
    forall v | Reaches(g, b, v)
      ensures Reaches(g, a, v)
    {
      ReachesFirst(g, a, b, v);
    }
    assert b in Universe(g);
    assert !Reaches(g, b, a);
    assert a in ReachSet(g, a) && a !in ReachSet(g, b);
    assert ReachSet(g, a) == ReachSet(g, b) + (ReachSet(g, a) - ReachSet(g, b));
    assert a in ReachSet(g, a) - ReachSet(g, b);
  }
}
