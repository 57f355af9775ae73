/** When the branches of a graph are independent, given which variables each node's own handler uses. */
module HandlerKeys {
  import opened Collections
  import opened WorkflowGraphs
  import opened WorkflowWalk
  import opened WorkflowMachine
  import opened BranchFootprints
  import Confluence

  /** The variables that the handler of a node and the conditions on its edges read, and those the handler writes. */
  datatype Keys = Keys(read: Node -> iset<string>, written: Node -> iset<string>)

  /** The footprint of one node alone. */
  function Own(keys: Keys, node: Node): Footprint
  {
    Footprint(_ => keys.read(node), _ => keys.written(node))
  }

  /** The handlers and the conditions of the graph use no other variables. */
  ghost predicate UsesOnly(env: Env, keys: Keys)
  {
    forall node :: node in env.graph.nodes ==> Local(env, Own(keys, node), node)
  }

  ghost function ReadAtOrBelow(g: Graph, keys: Keys, id: string): iset<string>
  {
    iset node, k | node in g.nodes && Reaches(g, id, node.id) && k in keys.read(node) :: k
  }

  ghost function WrittenAtOrBelow(g: Graph, keys: Keys, id: string): iset<string>
  {
    iset node, k | node in g.nodes && Reaches(g, id, node.id) && k in keys.written(node) :: k
  }

  /** What is used at a node or below it. */
  ghost function Gathered(g: Graph, keys: Keys): Footprint
  {
    Footprint(id => ReadAtOrBelow(g, keys, id), id => WrittenAtOrBelow(g, keys, id))
  }

  lemma LocalGrows(env: Env, small: Footprint, large: Footprint, node: Node)
    requires Local(env, small, node)
    requires small.reading(node.id) <= large.reading(node.id) && small.writing(node.id) <= large.writing(node.id)
    ensures Local(env, large, node)
  {
    hide Matching;
  }

  lemma GatheredIsLocal(env: Env, keys: Keys, node: Node)
    requires node in env.graph.nodes && Local(env, Own(keys, node), node)
    ensures Local(env, Gathered(env.graph, keys), node)
  {
    hide Local;
    ReachesSelf(env.graph, node.id);
    LocalGrows(env, Own(keys, node), Gathered(env.graph, keys), node);
  }

  lemma GatheredGrows(g: Graph, keys: Keys, e: Edge)
    requires e in g.edges
    ensures ReadAtOrBelow(g, keys, e.target) <= ReadAtOrBelow(g, keys, e.source)
    ensures WrittenAtOrBelow(g, keys, e.target) <= WrittenAtOrBelow(g, keys, e.source)
  {
    assert HasEdge(g, e.source, e.target);
    hide HasEdge, Reaches;
    forall x | Reaches(g, e.target, x)
      ensures Reaches(g, e.source, x)
    {
      ReachesFirst(g, e.source, e.target, x);
    }
  }

  lemma GatheredIsConfined(env: Env, keys: Keys)
    requires UsesOnly(env, keys)
    ensures Confined(env, Gathered(env.graph, keys))
  {
    hide Local, ReadAtOrBelow, WrittenAtOrBelow;
    forall node | node in env.graph.nodes
      ensures Local(env, Gathered(env.graph, keys), node)
    {
      GatheredIsLocal(env, keys, node);
    }
    forall e | e in env.graph.edges
      ensures ReadAtOrBelow(env.graph, keys, e.target) <= ReadAtOrBelow(env.graph, keys, e.source)
      ensures WrittenAtOrBelow(env.graph, keys, e.target) <= WrittenAtOrBelow(env.graph, keys, e.source)
    {
      GatheredGrows(env.graph, keys, e);
    }
  }

  // ---------- branches that share no variable ----------

  /** No variable that one of the nodes writes is used by the other. */
  ghost predicate NodesApart(keys: Keys, x: Node, y: Node)
  {
    Apart(keys.read(x), keys.written(x), keys.read(y), keys.written(y))
  }

  /** Nodes at or below the one id and nodes at or below the other share no variable. */
  ghost predicate IdsApart(g: Graph, keys: Keys, a: string, b: string)
  {
    forall x, y :: x in g.nodes && y in g.nodes && Reaches(g, a, x.id) && Reaches(g, b, y.id) ==> NodesApart(keys, x, y)
  }

  /** Different edges of a PARALLEL node lead to nodes that share no variable. */
  ghost predicate BranchesApart(g: Graph, keys: Keys)
  {
    forall node :: node in g.nodes && node.kind == PARALLEL ==> EdgesApart(g, keys, OutgoingEdges(g, node.id))
  }

  ghost predicate EdgesApart(g: Graph, keys: Keys, es: seq<Edge>)
  {
    forall i, j :: 0 <= i < j < |es| ==> IdsApart(g, keys, es[i].target, es[j].target)
  }

  lemma GatheredApart(g: Graph, keys: Keys, a: string, b: string)
    requires IdsApart(g, keys, a, b)
    ensures ApartIds(Gathered(g, keys), a, b)
  {
    hide Reaches;
  }

  lemma {:induction false} EdgesAreApart(g: Graph, keys: Keys, es: seq<Edge>)
    requires EdgesApart(g, keys, es)
    ensures PairwiseApart(Gathered(g, keys), es)
  {
    hide Gathered, IdsApart, ApartIds;
    if es != [] {
      assert EdgesApart(g, keys, es[1..]);
      EdgesAreApart(g, keys, es[1..]);
      forall e | e in es[1..]
        ensures ApartIds(Gathered(g, keys), es[0].target, e.target)
      {
        var j :| 0 <= j < |es[1..]| && es[1..][j] == e;
        GatheredApart(g, keys, es[0].target, es[j + 1].target);
      }
    }
  }

  lemma {:induction false} FilterKeepsApart(fp: Footprint, es: seq<Edge>, p: Edge -> bool)
    requires PairwiseApart(fp, es)
    ensures PairwiseApart(fp, Filter(es, p))
  {
    if es != [] {
      FilterKeepsApart(fp, es[1..], p);
      var kept := Filter(es[1..], p);
      if p(es[0]) {
        assert Filter(es, p) == [es[0]] + kept;
        assert Filter(es, p)[1..] == kept;
        forall e | e in kept
          ensures ApartIds(fp, es[0].target, e.target)
        {
          FilterMember(es[1..], p, e);
        }
      }
    }
  }

  lemma ApartIsIndependent(env: Env, keys: Keys)
    requires BranchesApart(env.graph, keys) && Timeless(env)
    ensures Independent(env, Gathered(env.graph, keys))
  {
    var fp := Gathered(env.graph, keys);
    hide Gathered, PairwiseApart;
    forall node, vars | node in env.graph.nodes && Forks(node, Matching(env.graph, env.test, node.id, vars))
      ensures PairwiseApart(fp, Matching(env.graph, env.test, node.id, vars))
    {
      EdgesAreApart(env.graph, keys, OutgoingEdges(env.graph, node.id));
      FilterKeepsApart(fp, OutgoingEdges(env.graph, node.id), (e: Edge) => Holds(env.test, e.condition, vars));
    }
  }

  /** Confluence, read off the graph: when nodes on different branches of a PARALLEL node share no variable,
      every finished schedule ends as walking the branches in declaration order does. */
  lemma ApartBranchesAgree(env: Env, keys: Keys, node: Node, vars: Vars, picks: seq<Pick>)
    requires Acyclic(env) && UsesOnly(env, keys) && BranchesApart(env.graph, keys) && Timeless(env)
    requires node.id in env.ranks && node in env.graph.nodes
    requires var t := Execute(env, Machine(Ready(node), 0, vars, []), picks);
             t.Some? && !CanStep(env, t.value.proc, t.value.step, t.value.vars)
    ensures var t := Execute(env, Machine(Ready(node), 0, vars, []), picks).value;
            var o := Walk(env, node, 0, vars);
            && t.vars == Merge(vars, o.writes)
            && multiset(t.log) == multiset(o.log)
            && t.step == o.visits
            && (o.failure.None? <==> Resolved(t.proc))
  {
    hide Execute, Walk, UsesOnly, BranchesApart;
    GatheredIsConfined(env, keys);
    ApartIsIndependent(env, keys);
    Confluence.EveryScheduleAgrees(env, Gathered(env.graph, keys), node, vars, picks);
  }

  // ---------- the handlers of the code ----------

  /** The variables that the handler of each node type stores its results under; `outputAs` reads the name
      from the configuration of an ACTION or AGENT node. */
  function StoredBy(outputAs: Json -> Option<string>, node: Node): set<string>
  {
    var name := outputAs(node.configuration);
    match node.kind
    case "TRIGGER" => {"trigger", "triggerName"}
    case "CONDITION" => {"_lastCondition", "_lastConditionValue"}
    case "WAIT" => {"lastWaitMs"}
    case "ACTION" => {if name.Some? then name.value else "actionResult"}
    case "AGENT" => {if name.Some? then name.value else "agentReply"}
    case _ => {}
  }

  /** Handlers that succeed and store something under those names. */
  function Storing(outputAs: Json -> Option<string>, output: Json): Handler
  {
    (n: nat, node: Node, vars: Vars) =>
      NodeResult(true, map k | k in StoredBy(outputAs, node) :: output, Some(output), None)
  }

  /** An expression that asks for one variable. */
  const IS_SET: Tester := (expression: string, vars: Vars) => expression in vars

  /** What such handlers and conditions use. */
  function KeysOf(g: Graph, outputAs: Json -> Option<string>): Keys
  {
    Keys((node: Node) => iset e | e in g.edges && e.source == node.id && e.condition.Test? :: e.condition.expression,
         (node: Node) => iset k | k in StoredBy(outputAs, node))
  }

  lemma {:induction false} SameConditions(es: seq<Edge>, a: Vars, b: Vars)
    requires forall e :: e in es && e.condition.Test? ==> (e.condition.expression in a <==> e.condition.expression in b)
    ensures Filter(es, (e: Edge) => Holds(IS_SET, e.condition, a))
            == Filter(es, (e: Edge) => Holds(IS_SET, e.condition, b))
  {
    if es != [] {
      SameConditions(es[1..], a, b);
    }
  }

  lemma StoringUsesOnly(env: Env, outputAs: Json -> Option<string>, output: Json)
    requires env.handler == Storing(outputAs, output) && env.test == IS_SET
    ensures UsesOnly(env, KeysOf(env.graph, outputAs)) && Timeless(env)
  {
    var keys := KeysOf(env.graph, outputAs);
    forall node, a, b | Agree(a, b, keys.read(node))
      ensures Matching(env.graph, env.test, node.id, a) == Matching(env.graph, env.test, node.id, b)
    {
      var es := OutgoingEdges(env.graph, node.id);
      forall e | e in es && e.condition.Test?
        ensures e.condition.expression in a <==> e.condition.expression in b
      {
        OutgoingMember(env.graph, node.id, e);
        assert e.condition.expression in keys.read(node);
      }
      SameConditions(es, a, b);
    }
  }

  // ---------- a concrete fork ----------

  const START := Node("t", TRIGGER, "start", "")
  const SPLIT := Node("p", PARALLEL, "split", "")
  const LEFT := Node("a", "ACTION", "left", "x")
  const RIGHT := Node("b", "ACTION", "right", "y")
  const STOP := Node("e", END, "stop", "")

  const ENTER := Edge("1", "t", "p", Always)
  const ONE := Edge("2", "p", "a", Always)
  const OTHER := Edge("3", "p", "b", Always)
  const DONE := Edge("4", "a", "e", Always)
  const LAST := Edge("5", "b", "e", Always)

  /** Two actions side by side, which store their results under the names in their configurations. */
  const DIAMOND := Graph([START, SPLIT, LEFT, RIGHT, STOP], [ENTER, ONE, OTHER, DONE, LAST])

  const RANKS: Ranks := map["t" := 3, "p" := 2, "a" := 1, "b" := 1, "e" := 0]

  const CONFIGURED: Json -> Option<string> := (c: Json) => if c == "" then None else Some(c)

  const STORED: Env := Env(DIAMOND, RANKS, Storing(CONFIGURED, "done"), IS_SET)

  lemma BelowBranch(a: string, x: string)
    requires a in {"a", "b"} && Reaches(DIAMOND, a, x)
    ensures x in {a, "e"}
  {
    ClosedContainsReachable(DIAMOND, {a, "e"}, a, x);
  }

  lemma SplitEdges()
    ensures OutgoingEdges(DIAMOND, "p") == [ONE, OTHER]
  {
    var p := (e: Edge) => e.source == "p";
    FilterCons(LAST, [], p);
    FilterCons(DONE, [LAST], p);
    FilterCons(OTHER, [DONE, LAST], p);
    FilterCons(ONE, [OTHER, DONE, LAST], p);
    FilterCons(ENTER, [ONE, OTHER, DONE, LAST], p);
    hide Filter;
    assert [LAST] + [] == [LAST] && [DONE] + [LAST] == [DONE, LAST];
    assert [OTHER] + [DONE, LAST] == [OTHER, DONE, LAST] && [ONE] + [OTHER, DONE, LAST] == [ONE, OTHER, DONE, LAST];
    assert [ENTER] + [ONE, OTHER, DONE, LAST] == DIAMOND.edges;
  }

  lemma NoKeys(x: Node)
    requires x in [LEFT, RIGHT, STOP]
    ensures KeysOf(DIAMOND, CONFIGURED).read(x) == iset{}
    ensures KeysOf(DIAMOND, CONFIGURED).written(x) == if x == STOP then iset{} else iset{x.configuration}
  {
  }

  lemma DiamondIsApart()
    ensures BranchesApart(DIAMOND, KeysOf(DIAMOND, CONFIGURED))
  {
    hide KeysOf, OutgoingEdges, Reaches;
    var keys := KeysOf(DIAMOND, CONFIGURED);
    SplitEdges();
    forall x, y | x in DIAMOND.nodes && y in DIAMOND.nodes && Reaches(DIAMOND, "a", x.id) && Reaches(DIAMOND, "b", y.id)
      ensures NodesApart(keys, x, y)
    {
      BelowBranch("a", x.id);
      BelowBranch("b", y.id);
      NoKeys(x);
      NoKeys(y);
    }
    assert IdsApart(DIAMOND, keys, "a", "b");
  }

  lemma DiamondForks(vars: Vars)
    ensures Acyclic(STORED) && Forks(SPLIT, Matching(DIAMOND, IS_SET, "p", vars))
  {
    hide OutgoingEdges;
    SplitEdges();
    var p := (e: Edge) => Holds(IS_SET, e.condition, vars);
    FilterCons(OTHER, [], p);
    FilterCons(ONE, [OTHER], p);
    assert [OTHER] + [] == [OTHER] && [ONE] + [OTHER] == [ONE, OTHER];
  }

  /** The conditions of confluence are met by a graph that does fork, under handlers that take the variable to
      write from the configuration of the node. */
  lemma DiamondIsCovered(vars: Vars)
    ensures Acyclic(STORED) && Forks(SPLIT, Matching(DIAMOND, IS_SET, SPLIT.id, vars))
    ensures var fp := Gathered(DIAMOND, KeysOf(DIAMOND, CONFIGURED));
            Confined(STORED, fp) && Independent(STORED, fp)
    ensures "x" in STORED.handler(0, LEFT, vars).setVars && "y" in STORED.handler(0, RIGHT, vars).setVars
  {
    hide Acyclic, Forks, Matching, Confined, Independent, BranchesApart, KeysOf, Gathered, UsesOnly;
    DiamondForks(vars);
    DiamondIsApart();
    StoringUsesOnly(STORED, CONFIGURED, "done");
    GatheredIsConfined(STORED, KeysOf(DIAMOND, CONFIGURED));
    ApartIsIndependent(STORED, KeysOf(DIAMOND, CONFIGURED));
  }
}
