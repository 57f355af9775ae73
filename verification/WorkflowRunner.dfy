/** The recursive runner, with its mutable context, against the meaning of a walk. */
module WorkflowRunner {
  import opened Collections
  import opened WorkflowGraphs
  import opened WorkflowWalk
  import opened WorkflowRuns

  const NO_TRIGGER := "No TRIGGER node found"

  function FindTrigger(nodes: seq<Node>): (r: Option<Node>)
    ensures r.Some? ==> r.value in nodes && r.value.kind == TRIGGER
    ensures r.None? ==> forall n :: n in nodes ==> n.kind != TRIGGER
  {
    if nodes == [] then None
    else if nodes[0].kind == TRIGGER then Some(nodes[0])
    else FindTrigger(nodes[1..])
  }

  /** `run.snapshot ?? opts.snapshot` */
  function SnapshotOf(row: RunRow, fallback: Option<Graph>): Option<Graph>
  {
    if row.snapshot.Some? then row.snapshot else fallback
  }

  /** What a run has in memory and in the database. */
  datatype Progress = Progress(step: nat, vars: Vars, log: seq<LogRow>, row: RunRow)

  /** `currentNode` after the given rows were written. */
  function LastNode(current: Option<string>, log: seq<LogRow>): Option<string>
  {
    if log == [] then current else Some(log[|log| - 1].nodeId)
  }

  /** The progress after an execution with the given outcome. */
  function After(s: Progress, o: Outcome): Progress
  {
    Progress(s.step + o.visits, Merge(s.vars, o.writes), s.log + o.log,
             s.row.(currentNode := LastNode(s.row.currentNode, o.log), context := Merge(s.vars, o.writes)))
  }

  /** The row once `run` has written its verdict. */
  function Verdict(s: Progress, failure: Option<string>): RunRow
  {
    if failure.None? then Succeeded(s.row, s.vars) else Failed(s.row, failure.value)
  }

  lemma AfterBoth(s: Progress, a: Outcome, b: Outcome)
    ensures After(After(s, a), b) == After(s, a.Then(b))
  {
    MergeAppend(s.vars, a.writes, b.writes);
    assert s.log + a.log + b.log == s.log + (a.log + b.log);
    if b.log == [] {
      assert a.log + b.log == a.log;
    } else {
      assert (a.log + b.log)[|a.log + b.log| - 1] == b.log[|b.log| - 1];
    }
  }

  lemma AfterNothing(s: Progress, failure: Option<string>)
    requires s.row.context == s.vars
    ensures After(s, Outcome(0, [], [], failure)) == s
  {
  }

  lemma AfterEntering(s: Progress, error: string)
    requires s.row.context == s.vars
    ensures After(s, Outcome(1, [], [], Some(error))) == s.(step := s.step + 1)
  {
  }

  /** A walk is: enter the node, merge and log, and then go on from there. */
  lemma WalkSplits(env: Env, node: Node, s: Progress)
    requires Acyclic(env) && node.id in env.ranks && node.kind in HANDLED
    ensures var res := env.handler(s.step + 1, node, s.vars);
            var t := Visited(s, node, res);
            var o := WorkflowWalk.Walk(env, node, s.step, s.vars);
            var rest := Conclude(env, node, res, t.step, t.vars);
            After(s, o) == After(t, rest) && o.failure == rest.failure
  {
    var res := env.handler(s.step + 1, node, s.vars);
    var own := Outcome(1, [res.setVars], [Row(node, res)], None);
    AfterBoth(s, own, Conclude(env, node, res, s.step + 1, s.vars + res.setVars));
  }

  /** The progress once the row of a node is written. */
  function Visited(s: Progress, node: Node, res: NodeResult): Progress
  {
    var vars := s.vars + res.setVars;
    Progress(s.step + 1, vars, s.log + [Row(node, res)], Progressed(s.row, node, vars))
  }

  // ---------- the loop over the matching edges ----------

  /** What following `es` from `s` leads to, when `failure` was thrown before. */
  ghost function Follows(env: Env, fork: bool, es: seq<Edge>, s: Progress, failure: Option<string>)
    : (Progress, Option<string>)
    requires Acyclic(env) && AllRanked(env, Successors(env.graph, es))
  {
    if failure.Some? && !fork then (s, failure)
    else
      var o := WalkAll(env, fork, Successors(env.graph, es), s.step, s.vars);
      (After(s, o), if failure.Some? then failure else o.failure)
  }

  /** The edges still to be followed are ranked below the node they leave. */
  ghost predicate Below(env: Env, es: seq<Edge>, bound: nat)
  {
    && Acyclic(env) && AllRanked(env, Successors(env.graph, es))
    && RankBound(env, Successors(env.graph, es)) <= bound
  }

  lemma FollowsSkip(env: Env, fork: bool, es: seq<Edge>, bound: nat, s: Progress, failure: Option<string>)
    requires Below(env, es, bound) && es != [] && GetNode(env.graph, es[0].target).None?
    ensures Below(env, es[1..], bound)
    ensures Follows(env, fork, es, s, failure) == Follows(env, fork, es[1..], s, failure)
  {
  }

  lemma FollowsWalk(env: Env, fork: bool, es: seq<Edge>, bound: nat, s: Progress, failure: Option<string>, next: Node)
    requires Below(env, es, bound) && es != [] && GetNode(env.graph, es[0].target) == Some(next)
    requires failure.None? || fork
    ensures Below(env, es[1..], bound) && next.id in env.ranks && env.ranks[next.id] < bound
    ensures var one := WorkflowWalk.Walk(env, next, s.step, s.vars);
            Follows(env, fork, es, s, failure) ==
            Follows(env, fork, es[1..], After(s, one), if failure.Some? then failure else one.failure)
  {
    var nodes := Successors(env.graph, es);
    assert nodes[1..] == Successors(env.graph, es[1..]);
    var one := WorkflowWalk.Walk(env, next, s.step, s.vars);
    AfterBoth(s, one, WalkAll(env, fork, nodes[1..], s.step + one.visits, Merge(s.vars, one.writes)));
  }

  lemma FollowsEnd(env: Env, fork: bool, s: Progress, failure: Option<string>)
    requires Acyclic(env) && s.row.context == s.vars
    ensures Follows(env, fork, [], s, failure) == (s, failure)
  {
    AfterNothing(s, None);
  }

  /** What `run` on `g` makes of the row: without a TRIGGER only the error is recorded; otherwise the context is that
      of the walk, and the verdict, the current node and the error are as the walk ended. */
  ghost predicate RunEnds(env: Env, before: RunRow, after: RunRow)
    requires FindTrigger(env.graph.nodes).Some? ==>
               Acyclic(env) && FindTrigger(env.graph.nodes).value.id in env.ranks
  {
    && after.workflowId == before.workflowId && after.version == before.version && after.snapshot == before.snapshot
    && match FindTrigger(env.graph.nodes)
       case None =>
         && RecordsError(after, "No TRIGGER node found")
         && after.context == before.context && after.currentNode == before.currentNode
       case Some(trigger) =>
         var o := WorkflowWalk.Walk(env, trigger, 0, before.context);
         && after.context == Merge(before.context, o.writes)
         && match o.failure
            case None =>
              after.status == COMPLETED && after.completedAt && after.currentNode == None && after.error == before.error
            case Some(message) =>
              && RecordsError(after, message)
              && after.currentNode == (if o.log == [] then before.currentNode else Some(o.log[|o.log| - 1].nodeId))
  }

  class Runner {
    const handler: (nat, Node, Vars) -> NodeResult
    const test: (string, Vars) -> bool
    var step: nat
    var vars: Vars
    var log: seq<LogRow>
    var row: RunRow

    constructor (handler: (nat, Node, Vars) -> NodeResult, test: (string, Vars) -> bool, row: RunRow)
      ensures this.handler == handler && this.test == test && this.row == row
      ensures step == 0 && vars == row.context && log == []
    {
      this.handler, this.test, this.row := handler, test, row;
      step, vars, log := 0, row.context, [];
    }

    ghost function World(g: Graph, ranks: Ranks): Env
    {
      Env(g, ranks, handler, test)
    }

    ghost function State(): Progress
      reads this
    {
      Progress(step, vars, log, row)
    }

    /** `walk`; an exception is returned instead of thrown. The branches of a fork run in
        declaration order here; `DeclarationOrder` shows that this is one of the schedules. */
    method Walk(g: Graph, node: Node, ghost ranks: Ranks) returns (failure: Option<string>)
      requires Layered(g, ranks) && node.id in ranks && row.context == vars
      modifies this
      ensures var o := WorkflowWalk.Walk(World(g, ranks), node, old(step), old(vars));
              failure == o.failure && State() == After(old(State()), o)
      decreases ranks[node.id], 1
    {
      if node.kind !in HANDLED {
        step := step + 1;
        AfterEntering(old(State()), NoHandler(node));
        assert WorkflowWalk.Walk(World(g, ranks), node, old(step), vars) == Outcome(1, [], [], Some(NoHandler(node)));
        return Some(NoHandler(node));
      }
      WalkSplits(World(g, ranks), node, State());
      step := step + 1;
      var result := handler(step, node, vars);
      vars := vars + result.setVars;
      row := Progressed(row, node, vars);
      log := log + [Row(node, result)];
      assert State() == Visited(old(State()), node, result);
      if !result.ok {
        AfterNothing(State(), Some(HandlerError(node, result)));
        return Some(HandlerError(node, result));
      }
      if node.kind == END {
        AfterNothing(State(), None);
        return None;
      }
      var matching := Matching(g, test, node.id, vars);
      NextAreBelow(World(g, ranks), node.id, vars);
      failure := Follow(g, Forks(node, matching), matching, ranks, ranks[node.id]);
    }

    /** The loop over the matching edges, which were all chosen before the first of them is followed. */
    method Follow(g: Graph, fork: bool, matching: seq<Edge>, ghost ranks: Ranks, ghost bound: nat)
      returns (failure: Option<string>)
      requires Layered(g, ranks) && AllRanked(World(g, ranks), Successors(g, matching)) && row.context == vars
      requires RankBound(World(g, ranks), Successors(g, matching)) <= bound
      modifies this
      ensures var o := WalkAll(World(g, ranks), fork, Successors(g, matching), old(step), old(vars));
              failure == o.failure && State() == After(old(State()), o)
      decreases bound, 0
    {
      ghost var env := World(g, ranks);
      ghost var goal := Follows(env, fork, matching, State(), None);
      failure := None;
      var i := 0;
      assert matching[0..] == matching;
      while i < |matching| && (fork || failure.None?)
        invariant 0 <= i <= |matching| && row.context == vars
        invariant Below(env, matching[i..], bound)
        invariant goal == Follows(env, fork, matching[i..], State(), failure)
      {
        assert matching[i..][0] == matching[i] && matching[i..][1..] == matching[i + 1..];
        var next := GetNode(g, matching[i].target);
        if next.Some? {
          FollowsWalk(env, fork, matching[i..], bound, State(), failure, next.value);
          var thrown := Walk(g, next.value, ranks);
          if failure.None? {
            failure := thrown;
          }
        } else {
          FollowsSkip(env, fork, matching[i..], bound, State(), failure);
        }
        i := i + 1;
      }
      if failure.None? || fork {
        assert matching[i..] == [];
        FollowsEnd(env, fork, State(), failure);
      }
    }

    /** `run`: false when the run has no snapshot at all, which the code reports by throwing. */
    method Run(fallback: Option<Graph>, ghost ranks: Ranks) returns (hasGraph: bool)
      requires row.context == vars && step == 0
      requires var g := SnapshotOf(row, fallback);
               g.Some? && FindTrigger(g.value.nodes).Some? ==>
                 Layered(g.value, ranks) && FindTrigger(g.value.nodes).value.id in ranks
      modifies this
      ensures hasGraph <==> old(row).snapshot.Some? || fallback.Some?
      ensures !hasGraph ==> State() == old(State())
      ensures hasGraph ==>
                var g := if old(row).snapshot.Some? then old(row).snapshot.value else fallback.value;
                RunEnds(World(g, ranks), old(row), row)
      ensures hasGraph ==>
                var g := SnapshotOf(old(row), fallback).value;
                match FindTrigger(g.nodes)
                case None => State() == old(State()).(row := Failed(old(row), NO_TRIGGER))
                case Some(trigger) =>
                  var o := WorkflowWalk.Walk(World(g, ranks), trigger, 0, old(vars));
                  var s := After(old(State()).(row := Begun(old(row))), o);
                  State() == s.(row := Verdict(s, o.failure))
    {
      var g := SnapshotOf(row, fallback);
      if g.None? {
        return false;
      }
      hasGraph := true;
      var trigger := FindTrigger(g.value.nodes);
      if trigger.None? {
        row := Failed(row, NO_TRIGGER);
        return;
      }
      row := Begun(row);
      var failure := Walk(g.value, trigger.value, ranks);
      if failure.None? {
        row := Succeeded(row, vars);
      } else {
        row := Failed(row, failure.value);
      }
    }
  }
}
