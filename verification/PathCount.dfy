/** Whatever the interleaving, a run that nothing holds back writes one row per path of the graph. */
module PathCount {
  import opened Collections
  import opened WorkflowGraphs
  import opened GraphPaths
  import opened WorkflowWalk
  import opened WalkPaths
  import opened WorkflowMachine

  // ---------- every interleaving ----------

  /** The results in flight are successes. */
  ghost predicate InFlightOk(p: Proc)
  {
    match p
    case Executing(_, res) => res.ok
    case Merged(_, res) => res.ok
    case Logged(_, res) => res.ok
    case Flow(cur, _) => InFlightOk(cur)
    case Fork(head, tail) => InFlightOk(head) && InFlightOk(tail)
    case Rejected(_) => false
    case _ => true
  }

  /** The rows the process still has to write. */
  ghost function Expected(env: Env, p: Proc): multiset<string>
    requires Acyclic(env) && Ranked(env, p)
  {
    match p
    case Logged(node, _) => multiset(EndsAfter(env, node.id))
    case Flow(cur, rest) => Expected(env, cur) + multiset(EndsOfNodes(env, rest))
    case Fork(head, tail) => Expected(env, head) + Expected(env, tail)
    case Finished => multiset{}
    case Rejected(_) => multiset{}
    case _ => multiset(EndsFrom(env, p.node.id))
  }

  lemma ExpectedOfFlow(env: Env, cur: Proc, rest: seq<Node>)
    requires Acyclic(env) && Ranked(env, cur) && AllRanked(env, rest) && Listed(env, rest)
    ensures Ranked(env, Flow(cur, rest))
    ensures Expected(env, Flow(cur, rest)) == Expected(env, cur) + multiset(EndsOfNodes(env, rest))
  {
    hide EndsOfNodes;
    FlowRanked(env, cur, rest);
  }

  lemma ExpectedOfFork(env: Env, head: Proc, tail: Proc)
    requires Acyclic(env) && Ranked(env, head) && Ranked(env, tail)
    ensures Ranked(env, Fork(head, tail))
    ensures Expected(env, Fork(head, tail)) == Expected(env, head) + Expected(env, tail)
  {
    hide EndsOfNodes, EndsFrom, EndsAfter;
  }

  lemma {:induction false} ExpectedOfForkOf(env: Env, nodes: seq<Node>)
    requires Acyclic(env) && AllRanked(env, nodes) && Listed(env, nodes)
    ensures Ranked(env, ForkOf(nodes)) && InFlightOk(ForkOf(nodes))
    ensures Expected(env, ForkOf(nodes)) == multiset(EndsOfNodes(env, nodes))
  {
    hide EndsFrom;
    ForkOfRanked(env, nodes);
    if nodes != [] {
      assert nodes[0] in nodes;
      ExpectedOfForkOf(env, nodes[1..]);
      ExpectedOfFork(env, Ready(nodes[0]), ForkOf(nodes[1..]));
      assert Expected(env, Ready(nodes[0])) == multiset(EndsFrom(env, nodes[0].id));
    }
  }

  /** A step writes the rows it takes off the expected ones. */
  ghost predicate WritesExpected(env: Env, p: Proc, e: Effect)
    requires Acyclic(env) && Ranked(env, p)
  {
    Ranked(env, e.proc) && InFlightOk(e.proc) && multiset(Ids(e.rows)) + Expected(env, e.proc) == Expected(env, p)
  }

  lemma {:induction false} StepWritesExpected(env: Env, p: Proc, pick: Pick, n: nat, vars: Vars)
    requires Acyclic(env) && Unhindered(env) && Resolvable(env)
    requires Ranked(env, p) && InFlightOk(p) && Step(env, p, pick, n, vars).Some?
    ensures WritesExpected(env, p, Step(env, p, pick, n, vars).value)
  {
    hide Expected, EndsFrom, EndsAfter, EndsOfNodes, Next, Matching, Resolved, Unhindered, Resolvable, Resume, Acyclic,
         Ids;
    match p
    case Ready(node) => EnterWritesNothing(env, node, n, vars);
    case Executing(node, res) => MergeWritesNothing(env, node, res);
    case Merged(node, res) => LogWritesExpected(env, node, res);
    case Logged(node, res) => ResumeWritesNothing(env, node, res, vars);
    case Flow(cur, rest) =>
      if Resolved(cur) && rest != [] {
        AdvanceWritesNothing(env, cur, rest);
      } else {
        StepWritesExpected(env, cur, pick, n, vars);
        ExpectedOfFlow(env, cur, rest);
        ExpectedOfFlow(env, Step(env, cur, pick, n, vars).value.proc, rest);
      }
    case Fork(head, tail) =>
      ExpectedOfFork(env, head, tail);
      if pick.InHead? {
        StepWritesExpected(env, head, pick.pick, n, vars);
        ExpectedOfFork(env, Step(env, head, pick.pick, n, vars).value.proc, tail);
      } else {
        StepWritesExpected(env, tail, pick.pick, n, vars);
        ExpectedOfFork(env, head, Step(env, tail, pick.pick, n, vars).value.proc);
      }
    case Finished =>
    case Rejected(_) =>
  }

  lemma MergeWritesNothing(env: Env, node: Node, res: NodeResult)
    requires Acyclic(env) && Ranked(env, Executing(node, res)) && res.ok
    ensures WritesExpected(env, Executing(node, res), Effect(Merged(node, res), 0, [res.setVars], [], Some(node)))
  {
    hide EndsFrom;
    assert Ids([]) == [] && multiset(Ids([])) == multiset{};
  }

  lemma EnterWritesNothing(env: Env, node: Node, n: nat, vars: Vars)
    requires Acyclic(env) && Unhindered(env) && Resolvable(env) && Ranked(env, Ready(node))
    ensures WritesExpected(env, Ready(node), Step(env, Ready(node), Here, n, vars).value)
  {
    hide EndsFrom;
    assert node in Pending(Ready(node)) && node.kind in HANDLED;
  }

  lemma LogWritesExpected(env: Env, node: Node, res: NodeResult)
    requires Acyclic(env) && Ranked(env, Merged(node, res)) && res.ok
    ensures WritesExpected(env, Merged(node, res), Effect(Logged(node, res), 0, [], [Row(node, res)], None))
  {
    hide EndsAfter;
    assert node in Pending(Merged(node, res));
    assert Ids([Row(node, res)]) == [node.id];
    assert multiset([node.id] + EndsAfter(env, node.id)) == multiset([node.id]) + multiset(EndsAfter(env, node.id));
  }

  lemma ResumeWritesNothing(env: Env, node: Node, res: NodeResult, vars: Vars)
    requires Acyclic(env) && Unhindered(env) && Resolvable(env) && Ranked(env, Logged(node, res)) && res.ok
    ensures WritesExpected(env, Logged(node, res), Effect(Resume(env, node, res, vars), 0, [], [], None))
  {
    assert Ranked(env, Finished) && Expected(env, Finished) == multiset{};
    hide EndsAfter, EndsOfNodes, Next, Matching, Unhindered, Acyclic, Expected, Resolvable;
    assert node in Pending(Logged(node, res));
    LoggedExpects(env, node, res);
    assert Ids([]) == [] && multiset(Ids([])) == multiset{};
    if node.kind == END {
      EndStops(env, node);
    } else {
      var next := Next(env, node.id, vars);
      NextEnds(env, node, vars);
      if Forks(node, Matching(env.graph, env.test, node.id, vars)) {
        ExpectedOfForkOf(env, next);
      } else {
        ExpectedOfFlow(env, Finished, next);
        assert Resume(env, node, res, vars) == Flow(Finished, next);
        assert InFlightOk(Flow(Finished, next));
        assert multiset{} + multiset(EndsOfNodes(env, next)) == multiset(EndsOfNodes(env, next));
      }
    }
  }

  lemma LoggedExpects(env: Env, node: Node, res: NodeResult)
    requires Acyclic(env) && Ranked(env, Logged(node, res))
    ensures node.id in env.ranks && Expected(env, Logged(node, res)) == multiset(EndsAfter(env, node.id))
  {
    hide EndsAfter;
    assert node in Pending(Logged(node, res));
  }

  lemma ReadyExpects(env: Env, node: Node)
    requires Acyclic(env) && node in env.graph.nodes && node.id in env.ranks
    ensures Ranked(env, Ready(node)) && Expected(env, Ready(node)) == multiset(EndsFrom(env, node.id))
  {
    hide EndsFrom;
  }

  lemma AdvanceWritesNothing(env: Env, cur: Proc, rest: seq<Node>)
    requires Acyclic(env) && Ranked(env, Flow(cur, rest)) && Resolved(cur) && rest != []
    ensures WritesExpected(env, Flow(cur, rest), Effect(Flow(Ready(rest[0]), rest[1..]), 0, [], [], None))
  {
    hide EndsFrom, Expected, Acyclic;
    assert rest[0] in rest;
    ReadyExpects(env, rest[0]);
    ExpectedOfFlow(env, Ready(rest[0]), rest[1..]);
    ExpectedOfFlow(env, cur, rest);
    ResolvedExpectsNothing(env, cur);
    assert Ids([]) == [] && multiset(Ids([])) == multiset{};
    assert multiset(EndsFrom(env, rest[0].id) + EndsOfNodes(env, rest[1..]))
           == multiset(EndsFrom(env, rest[0].id)) + multiset(EndsOfNodes(env, rest[1..]));
    assert multiset{} + multiset(EndsOfNodes(env, rest)) == multiset(EndsOfNodes(env, rest));
    assert InFlightOk(Flow(Ready(rest[0]), rest[1..]));
  }

  lemma {:induction false} ResolvedExpectsNothing(env: Env, p: Proc)
    requires Acyclic(env) && Ranked(env, p) && Resolved(p)
    ensures Expected(env, p) == multiset{}
  {
    match p
    case Flow(cur, rest) => ResolvedExpectsNothing(env, cur);
    case Fork(head, tail) =>
      ResolvedExpectsNothing(env, head);
      ResolvedExpectsNothing(env, tail);
    case _ =>
  }

  lemma {:induction false} InFlightOkNeverThrows(p: Proc)
    requires InFlightOk(p)
    ensures !Throws(p)
  {
    match p
    case Flow(cur, _) => InFlightOkNeverThrows(cur);
    case Fork(head, tail) => InFlightOkNeverThrows(head); InFlightOkNeverThrows(tail);
    case _ =>
  }

  lemma {:induction false} ScheduleWritesExpected(env: Env, m: Machine, picks: seq<Pick>)
    requires Acyclic(env) && Unhindered(env) && Resolvable(env)
    requires Ranked(env, m.proc) && InFlightOk(m.proc) && Execute(env, m, picks).Some?
    ensures var t := Execute(env, m, picks).value;
            && Ranked(env, t.proc) && InFlightOk(t.proc)
            && multiset(Ids(t.log)) + Expected(env, t.proc) == multiset(Ids(m.log)) + Expected(env, m.proc)
    decreases |picks|
  {
    hide Expected, Step;
    if picks != [] {
      var e := Step(env, m.proc, picks[0], m.step, m.vars).value;
      StepWritesExpected(env, m.proc, picks[0], m.step, m.vars);
      IdsAppend(m.log, e.rows);
      assert multiset(Ids(m.log) + Ids(e.rows)) == multiset(Ids(m.log)) + multiset(Ids(e.rows));
      ScheduleWritesExpected(env, Apply(m, e), picks[1..]);
    }
  }

  /** The paths from `id` that end at `v`. */
  ghost function PathsTo(env: Env, id: string, v: string): seq<Path>
    requires Acyclic(env) && id in env.ranks
  {
    Filter(PathsFrom(env, id), (p: Path) => PathEnd(env.graph, id, p) == v)
  }

  lemma {:induction false} CountEnds(g: Graph, id: string, paths: seq<Path>, ends: seq<string>, v: string)
    requires EndOfEach(g, id, paths, ends)
    ensures multiset(ends)[v] == |Filter(paths, (p: Path) => PathEnd(g, id, p) == v)|
  {
    if paths != [] {
      CountEnds(g, id, paths[1..], ends[1..], v);
      assert ends == [ends[0]] + ends[1..];
    }
  }

  /** Sequential or forking, and whatever the interleaving: a run that nothing holds back completes, and
      the number of rows for a node is the number of paths that end there, even when branches write the
      same variables. */
  lemma EveryScheduleLogsPaths(env: Env, node: Node, vars: Vars, picks: seq<Pick>)
    requires Acyclic(env) && Unhindered(env) && Resolvable(env)
    requires node in env.graph.nodes && node.id in env.ranks
    requires var t := Execute(env, Machine(Ready(node), 0, vars, []), picks);
             t.Some? && !CanStep(env, t.value.proc, t.value.step, t.value.vars)
    ensures var t := Execute(env, Machine(Ready(node), 0, vars, []), picks).value;
            && Resolved(t.proc)
            && (forall v :: multiset(Ids(t.log))[v] == |PathsTo(env, node.id, v)|)
            && Distinct(PathsFrom(env, node.id))
            && (forall p :: p in PathsFrom(env, node.id) <==> IsPath(env.graph, node.id, p))
  {
    hide Execute, Expected, EndsFrom, PathsFrom, EndOfEach, Unhindered, Resolvable, IsPath, Acyclic;
    var m := Machine(Ready(node), 0, vars, []);
    var t := Execute(env, m, picks).value;
    ReadyExpects(env, node);
    ScheduleWritesExpected(env, m, picks);
    InFlightOkNeverThrows(t.proc);
    if !Resolved(t.proc) {
      var pick := UnsettledCanStep(env, t.proc, t.step, t.vars);
      assert false;
    }
    ResolvedExpectsNothing(env, t.proc);
    EndsAreEndsOfPaths(env, node.id);
    PathsFromListsPaths(env, node.id);
    forall v ensures multiset(EndsFrom(env, node.id))[v] == |PathsTo(env, node.id, v)| {
      CountEnds(env.graph, node.id, PathsFrom(env, node.id), EndsFrom(env, node.id), v);
    }
    assert Ids(m.log) == [] && multiset(Ids(m.log)) == multiset{};
    assert multiset(Ids(t.log)) + multiset{} == multiset(Ids(t.log));
  }
}
