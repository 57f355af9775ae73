/** What validation buys: facts about every run that the service can ever start. */
module StoredRuns {
  import opened Collections
  import opened WorkflowGraphs
  import opened GraphValidation
  import opened WorkflowWalk
  import opened ValidatedGraphs
  import opened WorkflowRuns
  import opened WorkflowRunner
  import opened WorkflowMachine
  import opened RunLifecycle
  import GraphPaths
  import WalkPaths
  import PathCount
  import Store = WorkflowStore

  /** The runner finds its way: there is a TRIGGER, no edge lacks a target node, and no cycle can be reached. */
  ghost predicate Sure(env: Env, trigger: Node)
  {
    && FindTrigger(env.graph.nodes) == Some(trigger)
    && (forall e :: e in env.graph.edges ==> GetNode(env.graph, e.target).Some?)
    && Acyclic(env) && trigger.id in env.ranks
  }

  /** The events of a run of the row hold no more steps of the runner than the graph allows. */
  ghost predicate EndsInTime(env: Env, trigger: Node, row: RunRow, evs: seq<Event>)
    requires Sure(env, trigger)
  {
    History(env, Initial(row), evs).Some? ==> RunnerEvents(evs) <= 2 + CostOf(env, trigger.id)
  }

  /** Whatever requests came before: the runner finds the trigger of every stored run, never meets an edge
      without a target node, and takes a bounded number of steps, for all handlers, conditions,
      interleavings and cancel requests. */
  lemma EveryStoredRunEnds(ops: seq<Store.Op>, r: string, handler: Handler, test: Tester, evs: seq<Event>)
    returns (trigger: Node)
    requires Store.AllFresh(Store.EMPTY, ops) && r in Store.HandleAll(Store.EMPTY, ops).runs
    ensures var row := Store.HandleAll(Store.EMPTY, ops).runs[r].row;
            && row.snapshot.Some? && WellFormed(row.snapshot.value)
            && Sure(World(row.snapshot.value, handler, test), trigger)
            && EndsInTime(World(row.snapshot.value, handler, test), trigger, row, evs)
  {
    hide WellFormed, Acyclic, History, CostOf, Store.AllFresh, Store.HandleAll, FindTrigger, GetNode, Triggers,
         RunnerEvents, ReachRanks;
    Store.VersionDeterminesSnapshot(ops);
    var row := Store.HandleAll(Store.EMPTY, ops).runs[r].row;
    trigger := ValidatedGraphRuns(row.snapshot.value, handler, test);
    var env := World(row.snapshot.value, handler, test);
    if History(env, Initial(row), evs).Some? {
      EveryRunEnds(env, Initial(row), trigger, evs);
    }
  }

  /** Path counting on validated graphs: when the conditions, handlers and node types that the trigger reaches hold
      nothing up, any schedule carried to its end has resolved and has logged each node once for every
      path from the trigger to it that leaves no END. */
  lemma ValidatedGraphLogsPaths(g: Graph, handler: Handler, test: Tester, trigger: Node, vars: Vars, picks: seq<Pick>)
    requires WellFormed(g) && FindTrigger(g.nodes) == Some(trigger)
    requires forall n :: n in g.nodes && Reaches(g, Root(g), n.id) ==> n.kind in HANDLED
    requires WalkPaths.Unhindered(World(g, handler, test))
    requires var env := World(g, handler, test);
             var t := Execute(env, Machine(Ready(trigger), 0, vars, []), picks);
             t.Some? && !CanStep(env, t.value.proc, t.value.step, t.value.vars)
    ensures var env := World(g, handler, test);
            var t := Execute(env, Machine(Ready(trigger), 0, vars, []), picks).value;
            && Acyclic(env) && trigger.id in env.ranks
            && Resolved(t.proc)
            && (forall v :: multiset(WalkPaths.Ids(t.log))[v] == |PathCount.PathsTo(env, trigger.id, v)|)
            && WalkPaths.Distinct(WalkPaths.PathsFrom(env, trigger.id))
            && (forall p :: p in WalkPaths.PathsFrom(env, trigger.id) <==> GraphPaths.IsPath(g, trigger.id, p))
  {
    hide WellFormed, Acyclic, Execute, WalkPaths.Unhindered, HANDLED, WalkPaths.PathsFrom, PathCount.PathsTo,
         GraphPaths.IsPath;
    var found := ValidatedGraphRuns(g, handler, test);
    PathCount.EveryScheduleLogsPaths(World(g, handler, test), trigger, vars, picks);
  }
}
