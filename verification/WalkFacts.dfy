/** What holds of every walk in declaration order. */
module WalkFacts {
  import opened Collections
  import opened WorkflowGraphs
  import opened GraphPaths
  import opened WorkflowWalk

  // ---------- a walk is a linear replay ----------

  /** Visits the listed nodes one after the other, each handler seeing every write made before it. */
  function Replay(env: Env, trail: seq<Node>, n: nat, vars: Vars): (seq<Vars>, seq<LogRow>)
    decreases |trail|
  {
    if trail == [] then ([], [])
    else if trail[0].kind !in HANDLED then Replay(env, trail[1..], n + 1, vars)
    else
      var res := env.handler(n + 1, trail[0], vars);
      var (writes, log) := Replay(env, trail[1..], n + 1, vars + res.setVars);
      var row := LogRow(trail[0].id, trail[0].kind, if res.ok then RowCompleted else RowFailed,
                        trail[0].configuration, res.output, res.error);
      ([res.setVars] + writes, [row] + log)
  }

  lemma {:induction false} ReplayAppend(env: Env, a: seq<Node>, b: seq<Node>, n: nat, vars: Vars)
    ensures var (wa, la) := Replay(env, a, n, vars);
            var (wb, lb) := Replay(env, b, n + |a|, Merge(vars, wa));
            Replay(env, a + b, n, vars) == (wa + wb, la + lb)
    decreases |a|
  {
    if a == [] {
      assert a + b == b;
      assert [] + Replay(env, b, n, vars).0 == Replay(env, b, n, vars).0;
      assert [] + Replay(env, b, n, vars).1 == Replay(env, b, n, vars).1;
    } else {
      assert (a + b)[1..] == a[1..] + b;
      if a[0].kind in HANDLED {
        var v := vars + env.handler(n + 1, a[0], vars).setVars;
        var (wa, la) := Replay(env, a[1..], n + 1, v);
        var (wb, lb) := Replay(env, b, n + |a|, Merge(v, wa));
        ReplayAppend(env, a[1..], b, n + 1, v);
        var sv, row := [env.handler(n + 1, a[0], vars).setVars], [Row(a[0], env.handler(n + 1, a[0], vars))];
        assert (sv + wa)[1..] == wa;
        assert sv + wa + wb == sv + (wa + wb) && row + la + lb == row + (la + lb);
      } else {
        ReplayAppend(env, a[1..], b, n + 1, vars);
      }
    }
  }

  /** The trail is one node per visit and replaying it gives the writes and the rows of the walk. */
  ghost predicate IsTrail(env: Env, o: Outcome, trail: seq<Node>, n: nat, vars: Vars)
  {
    |trail| == o.visits && Replay(env, trail, n, vars) == (o.writes, o.log)
  }

  lemma TrailThen(env: Env, a: Outcome, ta: seq<Node>, b: Outcome, tb: seq<Node>, n: nat, vars: Vars)
    requires IsTrail(env, a, ta, n, vars) && IsTrail(env, b, tb, n + a.visits, Merge(vars, a.writes))
    ensures IsTrail(env, a.Then(b), ta + tb, n, vars)
  {
    ReplayAppend(env, ta, tb, n, vars);
  }

  lemma ReplayOne(env: Env, node: Node, n: nat, vars: Vars)
    ensures Replay(env, [node], n, vars) ==
            if node.kind !in HANDLED then ([], [])
            else var res := env.handler(n + 1, node, vars); ([res.setVars], [Row(node, res)])
  {
    var trail := [node];
    assert trail[1..] == [];
    var res := env.handler(n + 1, node, vars);
    var none: (seq<Vars>, seq<LogRow>) := Replay(env, trail[1..], n + 1, vars + res.setVars);
    assert none == ([], []);
    assert [res.setVars] + none.0 == [res.setVars] && [Row(node, res)] + none.1 == [Row(node, res)];
  }

  /** Every walk is a replay of the nodes it visits, starting with the node it enters: the final variables
      are the `Object.assign` fold of the `setVars` in log order, and each row records the handler's answer
      to exactly the variables merged before it. */
  lemma {:induction false} WalkIsReplay(env: Env, node: Node, n: nat, vars: Vars) returns (trail: seq<Node>)
    requires Acyclic(env) && node.id in env.ranks
    ensures IsTrail(env, Walk(env, node, n, vars), trail, n, vars) && trail[0] == node
    decreases env.ranks[node.id], 2, 0
  {
    hide Conclude;
    trail := [node];
    ReplayOne(env, node, n, vars);
    if node.kind in HANDLED {
      var res := env.handler(n + 1, node, vars);
      var own := Outcome(1, [res.setVars], [Row(node, res)], None);
      ReplayOne(env, node, n, vars);
      assert Merge(vars, own.writes) == vars + res.setVars;
      var rest := ConcludeIsReplay(env, node, res, n + 1, vars + res.setVars);
      TrailThen(env, own, [node], Conclude(env, node, res, n + 1, vars + res.setVars), rest, n, vars);
      trail := trail + rest;
    }
  }

  lemma {:induction false} ConcludeIsReplay(env: Env, node: Node, res: NodeResult, n: nat, vars: Vars)
    returns (trail: seq<Node>)
    requires Acyclic(env) && node.id in env.ranks
    ensures IsTrail(env, Conclude(env, node, res, n, vars), trail, n, vars)
    decreases env.ranks[node.id], 1, 0
  {
    hide WalkAll;
    trail := [];
    if res.ok && node.kind != END {
      NextAreBelow(env, node.id, vars);
      trail := WalkAllIsReplay(env, Forks(node, Matching(env.graph, env.test, node.id, vars)),
                               Next(env, node.id, vars), n, vars);
    }
  }

  lemma {:induction false} WalkAllIsReplay(env: Env, fork: bool, nodes: seq<Node>, n: nat, vars: Vars)
    returns (trail: seq<Node>)
    requires Acyclic(env) && AllRanked(env, nodes)
    ensures IsTrail(env, WalkAll(env, fork, nodes, n, vars), trail, n, vars)
    decreases RankBound(env, nodes), 0, |nodes|
  {
    hide WalkAll, Walk, Outcome.Then, Replay;
    trail := [];
    if nodes == [] {
      WalkAllNone(env, fork, n, vars);
      ReplayNone(env, n, vars);
    } else {
      WalkAllUnfold(env, fork, nodes, n, vars);
      var one := Walk(env, nodes[0], n, vars);
      trail := WalkIsReplay(env, nodes[0], n, vars);
      if one.failure.None? || fork {
        var rest := WalkAllIsReplay(env, fork, nodes[1..], n + one.visits, Merge(vars, one.writes));
        TrailThen(env, one, trail, WalkAll(env, fork, nodes[1..], n + one.visits, Merge(vars, one.writes)), rest, n,
                  vars);
        trail := trail + rest;
      }
    }
  }

  lemma ReplayNone(env: Env, n: nat, vars: Vars)
    ensures Replay(env, [], n, vars) == (NOTHING.writes, NOTHING.log)
  {
  }

  // ---------- the rows of a sequential run ----------

  /** At no node that a run from `root` can visit do two edges of a PARALLEL node match at a time. */
  ghost predicate NeverForks(env: Env, root: string)
  {
    forall node, vars :: Visitable(env.graph, root, node) ==>
      !Forks(node, Matching(env.graph, env.test, node.id, vars))
  }

  ghost predicate AllVisitable(env: Env, root: string, nodes: seq<Node>)
  {
    forall x :: x in nodes ==> Visitable(env.graph, root, x)
  }

  lemma NextAreVisitable(env: Env, root: string, node: Node, vars: Vars)
    requires Visitable(env.graph, root, node) && node.kind != END
    ensures AllVisitable(env, root, Next(env, node.id, vars))
  {
    var es := Matching(env.graph, env.test, node.id, vars);
    forall x | x in Next(env, node.id, vars)
      ensures Visitable(env.graph, root, x)
    {
      SuccessorIsTarget(env.graph, es, x);
      var e :| e in es && e.target == x.id;
      MatchingIsEdge(env.graph, env.test, node.id, vars, e);
      NextIsVisitable(env.graph, root, node, e, x);
    }
  }

  predicate AllCompleted(log: seq<LogRow>)
  {
    forall i :: 0 <= i < |log| ==> log[i].status == RowCompleted
  }

  predicate OnlyLastFailed(log: seq<LogRow>)
  {
    log != [] && AllCompleted(log[..|log| - 1]) && log[|log| - 1].status == RowFailed
  }

  /** The shape of a sequential execution: it succeeds with one completed row per visit, or it stops
      at a failed row, or it stops at a node type without a handler, which writes no row. */
  ghost predicate Serial(o: Outcome)
  {
    match o.failure
    case None => |o.log| == o.visits && AllCompleted(o.log)
    case Some(_) =>
      || (|o.log| == o.visits && OnlyLastFailed(o.log))
      || (|o.log| + 1 == o.visits && AllCompleted(o.log))
  }

  lemma SerialThen(a: Outcome, b: Outcome)
    requires Serial(a) && a.failure.None? && Serial(b)
    ensures Serial(a.Then(b))
  {
    if b.log != [] {
      assert (a.log + b.log)[..|a.log + b.log| - 1] == a.log + b.log[..|b.log| - 1];
    }
  }

  /** When nothing forks, a completed run has only completed rows, one per step; a run that a handler
      failed has exactly one failed row, and it is the last one. */
  lemma {:induction false} SequentialRows(env: Env, root: string, node: Node, n: nat, vars: Vars)
    requires Acyclic(env) && NeverForks(env, root) && Visitable(env.graph, root, node) && node.id in env.ranks
    ensures Serial(Walk(env, node, n, vars))
    decreases env.ranks[node.id], 2, 0
  {
    hide NeverForks, Visitable, Matching;
    if node.kind in HANDLED {
      var res := env.handler(n + 1, node, vars);
      var own := Outcome(1, [res.setVars], [Row(node, res)], None);
      var v := vars + res.setVars;
      if res.ok && node.kind != END {
        NextAreBelow(env, node.id, v);
        NextAreVisitable(env, root, node, v);
        assert !Forks(node, Matching(env.graph, env.test, node.id, v)) by { NeverForksHere(env, root, node, v); }
        SequentialRowsAll(env, root, Next(env, node.id, v), n + 1, v);
        SerialThen(own, WalkAll(env, false, Next(env, node.id, v), n + 1, v));
      }
    }
  }

  lemma NeverForksHere(env: Env, root: string, node: Node, vars: Vars)
    requires NeverForks(env, root) && Visitable(env.graph, root, node)
    ensures !Forks(node, Matching(env.graph, env.test, node.id, vars))
  {
  }

  lemma {:induction false} SequentialRowsAll(env: Env, root: string, nodes: seq<Node>, n: nat, vars: Vars)
    requires Acyclic(env) && NeverForks(env, root) && AllRanked(env, nodes) && AllVisitable(env, root, nodes)
    ensures Serial(WalkAll(env, false, nodes, n, vars))
    decreases RankBound(env, nodes), 0, |nodes|
  {
    hide Walk, Outcome.Then, WalkAll, NeverForks, Visitable;
    if nodes == [] {
      WalkAllNone(env, false, n, vars);
    } else {
      WalkAllUnfold(env, false, nodes, n, vars);
      SequentialRows(env, root, nodes[0], n, vars);
      var one := Walk(env, nodes[0], n, vars);
      if one.failure.None? {
        SequentialRowsAll(env, root, nodes[1..], n + one.visits, Merge(vars, one.writes));
        SerialThen(one, WalkAll(env, false, nodes[1..], n + one.visits, Merge(vars, one.writes)));
      }
    }
  }

  // ---------- why a run fails ----------

  /** The message of a failed row, or a message made of the node's name where the handler gave none. */
  ghost predicate Explains(env: Env, row: LogRow, message: string)
  {
    && row.status == RowFailed
    && if row.error.Some? && row.error.value != "" then message == row.error.value
       else exists node ::
         node in env.graph.nodes && node.id == row.nodeId && message == "Node " + node.name + " failed"
  }

  ghost predicate LacksHandler(env: Env, node: Node, message: string)
  {
    && node in env.graph.nodes && message == "No handler for node type " + node.kind
    && node.kind !in {"TRIGGER", "CONDITION", "AGENT", "ACTION", "WAIT", "PARALLEL", "END"}
  }

  /** Without a failure all rows are completed ones; a failure is explained by a failed row or by a node type
      without a handler. */
  ghost predicate Reasoned(env: Env, o: Outcome)
  {
    match o.failure
    case None => AllCompleted(o.log)
    case Some(message) =>
      (exists k :: 0 <= k < |o.log| && Explains(env, o.log[k], message))
      || (exists node :: LacksHandler(env, node, message))
  }

  lemma ReasonedThen(env: Env, a: Outcome, b: Outcome)
    requires Reasoned(env, a) && Reasoned(env, b)
    ensures Reasoned(env, a.Then(b))
  {
    hide Explains, LacksHandler;
    var log := a.log + b.log;
    if a.failure.Some? {
      if k :| 0 <= k < |a.log| && Explains(env, a.log[k], a.failure.value) {
        assert log[k] == a.log[k];
      }
    } else if b.failure.Some? {
      if k :| 0 <= k < |b.log| && Explains(env, b.log[k], b.failure.value) {
        assert log[|a.log| + k] == b.log[k];
      }
    }
  }

  /** Forks or no forks: a run in declaration order fails exactly when a handler answered `ok: false` or a node type has
      no handler, and with the message of that. */
  lemma {:induction false} FailuresHaveReasons(env: Env, node: Node, n: nat, vars: Vars)
    requires Acyclic(env) && node in env.graph.nodes && node.id in env.ranks
    ensures Reasoned(env, Walk(env, node, n, vars))
    decreases env.ranks[node.id], 2, 0
  {
    hide WalkAll;
    if node.kind !in HANDLED {
      assert LacksHandler(env, node, NoHandler(node));
    } else {
      var res := env.handler(n + 1, node, vars);
      var v := vars + res.setVars;
      var own := Outcome(1, [res.setVars], [Row(node, res)], None);
      if !res.ok {
        assert Walk(env, node, n, vars).log[0] == Row(node, res);
        assert Explains(env, Row(node, res), HandlerError(node, res));
      } else if node.kind != END {
        NextAreBelow(env, node.id, v);
        var fork := Forks(node, Matching(env.graph, env.test, node.id, v));
        AllHaveReasons(env, fork, Next(env, node.id, v), n + 1, v);
        ReasonedThen(env, own, WalkAll(env, fork, Next(env, node.id, v), n + 1, v));
      }
    }
  }

  lemma {:induction false} AllHaveReasons(env: Env, fork: bool, nodes: seq<Node>, n: nat, vars: Vars)
    requires Acyclic(env) && AllRanked(env, nodes) && Listed(env, nodes)
    ensures Reasoned(env, WalkAll(env, fork, nodes, n, vars))
    decreases RankBound(env, nodes), 0, |nodes|
  {
    hide Walk, Outcome.Then, WalkAll, Reasoned;
    if nodes == [] {
      WalkAllNone(env, fork, n, vars);
      NothingHasReasons(env);
    } else {
      assert nodes[0] in nodes;
      WalkAllUnfold(env, fork, nodes, n, vars);
      FailuresHaveReasons(env, nodes[0], n, vars);
      var one := Walk(env, nodes[0], n, vars);
      if one.failure.None? || fork {
        AllHaveReasons(env, fork, nodes[1..], n + one.visits, Merge(vars, one.writes));
        ReasonedThen(env, one, WalkAll(env, fork, nodes[1..], n + one.visits, Merge(vars, one.writes)));
      }
    }
  }

  lemma NothingHasReasons(env: Env)
    ensures Reasoned(env, NOTHING)
  {
  }
}
