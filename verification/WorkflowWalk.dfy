/** What executing a workflow graph means when branches are taken in declaration order. */
module WorkflowWalk {
  import opened Collections
  import opened WorkflowGraphs

  type Vars = map<string, Json>

  /** A handler that throws is one that answers `ok` false with no `setVars`. */
  datatype NodeResult = NodeResult(ok: bool, setVars: Vars, output: Option<Json>, error: Option<string>)

  datatype LogStatus = RowCompleted | RowFailed

  datatype LogRow = LogRow(nodeId: string, action: string, status: LogStatus, input: Json,
                           output: Option<Json>, error: Option<string>)

  type Handler = (nat, Node, Vars) -> NodeResult
  type Tester = (string, Vars) -> bool

  /** A snapshot together with the world it runs in: node handlers may answer anything,
      and may answer differently at each step; edge conditions may be any predicate on the variables.
      `ranks` shows that the part of the graph a run can visit is acyclic. */
  datatype Env = Env(graph: Graph, ranks: Ranks, handler: Handler, test: Tester)

  /** How many nodes were visited, the `setVars` merged, in order, the rows written, and the error thrown, if any. */
  datatype Outcome = Outcome(visits: nat, writes: seq<Vars>, log: seq<LogRow>, failure: Option<string>)
  {
    /** This execution and then, on the variables it leaves, `o`. */
    function Then(o: Outcome): Outcome
    {
      Outcome(visits + o.visits, writes + o.writes, log + o.log, if failure.Some? then failure else o.failure)
    }
  }

  const NOTHING := Outcome(0, [], [], None)

  /** `Object.assign` of each of the writes in turn. */
  function Merge(vars: Vars, writes: seq<Vars>): Vars
    decreases |writes|
  {
    if writes == [] then vars else Merge(vars + writes[0], writes[1..])
  }

  lemma {:induction false} MergeAppend(vars: Vars, a: seq<Vars>, b: seq<Vars>)
    ensures Merge(vars, a + b) == Merge(Merge(vars, a), b)
    decreases |a|
  {
    if a == [] {
      assert a + b == b;
    } else {
      assert (a + b)[1..] == a[1..] + b;
      MergeAppend(vars + a[0], a[1..], b);
    }
  }

  function Row(node: Node, res: NodeResult): LogRow
  {
    LogRow(node.id, node.kind, if res.ok then RowCompleted else RowFailed,
           node.configuration, res.output, res.error)
  }

  function NoHandler(node: Node): string
  {
    "No handler for node type " + node.kind
  }

  function HandlerError(node: Node, res: NodeResult): string
  {
    if res.error.Some? && res.error.value != "" then res.error.value else "Node " + node.name + " failed"
  }

  predicate Holds(test: (string, Vars) -> bool, c: Condition, vars: Vars)
  {
    match c
    case Always => true
    case Test(expression) => test(expression, vars)
  }

  function Matching(g: Graph, test: (string, Vars) -> bool, id: string, vars: Vars): seq<Edge>
  {
    Filter(OutgoingEdges(g, id), (e: Edge) => Holds(test, e.condition, vars))
  }

  /** The nodes that the edges lead to; an edge to a missing node is skipped. */
  function Successors(g: Graph, es: seq<Edge>): seq<Node>
  {
    if es == [] then []
    else
      var next := GetNode(g, es[0].target);
      if next.Some? then [next.value] + Successors(g, es[1..]) else Successors(g, es[1..])
  }

  predicate Forks(node: Node, matching: seq<Edge>)
  {
    node.kind == PARALLEL && |matching| > 1
  }

  // ---------- the nodes that come next ----------

  ghost predicate Acyclic(env: Env)
  {
    Layered(env.graph, env.ranks)
  }

  ghost predicate Listed(env: Env, nodes: seq<Node>)
  {
    forall x :: x in nodes ==> x in env.graph.nodes
  }

  ghost predicate AllRanked(env: Env, nodes: seq<Node>)
  {
    forall i :: 0 <= i < |nodes| ==> nodes[i].id in env.ranks
  }

  ghost function RankBound(env: Env, nodes: seq<Node>): nat
    requires AllRanked(env, nodes)
  {
    if nodes == [] then 0
    else
      var rest := RankBound(env, nodes[1..]);
      if env.ranks[nodes[0].id] < rest then rest else env.ranks[nodes[0].id] + 1
  }

  lemma {:induction false} RankBoundBelow(env: Env, nodes: seq<Node>, bound: nat)
    requires AllRanked(env, nodes)
    requires forall i :: 0 <= i < |nodes| ==> env.ranks[nodes[i].id] < bound
    ensures RankBound(env, nodes) <= bound
  {
    if nodes != [] {
      RankBoundBelow(env, nodes[1..], bound);
    }
  }

  lemma {:induction false} SuccessorIsTarget(g: Graph, es: seq<Edge>, x: Node)
    requires x in Successors(g, es)
    ensures GetNode(g, x.id) == Some(x) && exists e :: e in es && e.target == x.id
  {
    var next := GetNode(g, es[0].target);
    if next.Some? && x == next.value {
      assert es[0] in es;
    } else {
      SuccessorIsTarget(g, es[1..], x);
    }
  }

  /** All nodes that the edges lead to, in the order of the edges; only edges to missing nodes are passed over. */
  lemma {:induction false} SuccessorsAreTargets(g: Graph, es: seq<Edge>)
    ensures Map(Successors(g, es), (n: Node) => n.id) ==
            Map(Filter(es, (e: Edge) => exists n :: n in g.nodes && n.id == e.target), (e: Edge) => e.target)
  {
    if es != [] {
      SuccessorsAreTargets(g, es[1..]);
      FoundIfPresent(g.nodes, es[0].target);
      var known := (e: Edge) => exists n :: n in g.nodes && n.id == e.target;
      var next := GetNode(g, es[0].target);
      if next.Some? {
        MapFirst(next.value, Successors(g, es[1..]), (n: Node) => n.id);
        MapFirst(es[0], Filter(es[1..], known), (e: Edge) => e.target);
      }
    }
  }

  lemma MatchingIsEdge(g: Graph, test: (string, Vars) -> bool, id: string, vars: Vars, e: Edge)
    ensures e in Matching(g, test, id, vars) <==>
              e in g.edges && e.source == id && Holds(test, e.condition, vars)
  {
    FilterMember(OutgoingEdges(g, id), (e: Edge) => Holds(test, e.condition, vars), e);
    OutgoingMember(g, id, e);
  }

  /** The nodes that `walk` visits after a node of the given id. */
  function Next(env: Env, id: string, vars: Vars): seq<Node>
  {
    Successors(env.graph, Matching(env.graph, env.test, id, vars))
  }

  lemma NextAreBelow(env: Env, id: string, vars: Vars)
    requires Acyclic(env) && id in env.ranks
    ensures AllRanked(env, Next(env, id, vars)) && RankBound(env, Next(env, id, vars)) <= env.ranks[id]
    ensures forall x :: x in Next(env, id, vars) ==>
              x in env.graph.nodes && exists e :: e in env.graph.edges && e.source == id && e.target == x.id
  {
    var es := Matching(env.graph, env.test, id, vars);
    var next := Next(env, id, vars);
    forall x | x in next
      ensures x in env.graph.nodes && exists e :: e in env.graph.edges && e.source == id && e.target == x.id
      ensures x.id in env.ranks && env.ranks[x.id] < env.ranks[id]
    {
      SuccessorIsTarget(env.graph, es, x);
      var e :| e in es && e.target == x.id;
      MatchingIsEdge(env.graph, env.test, id, vars, e);
    }
    RankBoundBelow(env, next, env.ranks[id]);
  }

  // ---------- big-step execution ----------

  /** `walk`, entered with `ctx.step == n`. */
  ghost function Walk(env: Env, node: Node, n: nat, vars: Vars): Outcome
    requires Acyclic(env) && node.id in env.ranks
    decreases env.ranks[node.id], 2, 0
  {
    if node.kind !in HANDLED then
      Outcome(1, [], [], Some(NoHandler(node)))
    else
      var res := env.handler(n + 1, node, vars);
      Outcome(1, [res.setVars], [Row(node, res)], None).Then(Conclude(env, node, res, n + 1, vars + res.setVars))
  }

  /** What `walk` does once the row of `node` is written. */
  ghost function Conclude(env: Env, node: Node, res: NodeResult, n: nat, vars: Vars): Outcome
    requires Acyclic(env) && node.id in env.ranks
    decreases env.ranks[node.id], 1, 0
  {
    if !res.ok then
      Outcome(0, [], [], Some(HandlerError(node, res)))
    else if node.kind == END then
      NOTHING
    else
      NextAreBelow(env, node.id, vars);
      WalkAll(env, Forks(node, Matching(env.graph, env.test, node.id, vars)), Next(env, node.id, vars), n, vars)
  }

  /** Walks the nodes one after the other. In a flow the first failure stops the rest;
      in a fork the other branches still run. */
  ghost function WalkAll(env: Env, fork: bool, nodes: seq<Node>, n: nat, vars: Vars): Outcome
    requires Acyclic(env) && AllRanked(env, nodes)
    decreases RankBound(env, nodes), 0, |nodes|
  {
    if nodes == [] then
      NOTHING
    else
      var first := Walk(env, nodes[0], n, vars);
      if first.failure.Some? && !fork then first
      else first.Then(WalkAll(env, fork, nodes[1..], n + first.visits, Merge(vars, first.writes)))
  }

  lemma BothAssociative(a: Outcome, b: Outcome, c: Outcome)
    ensures a.Then(b).Then(c) == a.Then(b.Then(c))
  {
    assert a.log + b.log + c.log == a.log + (b.log + c.log);
    assert a.writes + b.writes + c.writes == a.writes + (b.writes + c.writes);
  }

  lemma WalkAllNone(env: Env, fork: bool, n: nat, vars: Vars)
    requires Acyclic(env)
    ensures WalkAll(env, fork, [], n, vars) == NOTHING
  {
  }

  lemma WalkAllUnfold(env: Env, fork: bool, nodes: seq<Node>, n: nat, vars: Vars)
    requires Acyclic(env) && AllRanked(env, nodes) && nodes != []
    ensures WalkAll(env, fork, nodes, n, vars) ==
            var one := Walk(env, nodes[0], n, vars);
            if one.failure.Some? && !fork then one
            else one.Then(WalkAll(env, fork, nodes[1..], n + one.visits, Merge(vars, one.writes)))
  {
    hide Walk, Conclude, Outcome.Then, Merge;
  }
}
