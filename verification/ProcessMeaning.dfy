/** What a suspended run amounts to when it is completed in declaration order. */
module ProcessMeaning {
  import opened Collections
  import opened WorkflowGraphs
  import opened WorkflowWalk
  import opened WorkflowMachine

  /** What a process amounts to when it is completed in declaration order. */
  ghost function Eval(env: Env, p: Proc, n: nat, vars: Vars): Outcome
    requires Acyclic(env) && Ranked(env, p)
  {
    match p
    case Ready(node) => Walk(env, node, n, vars)
    case Executing(node, res) =>
      Outcome(0, [res.setVars], [Row(node, res)], None).Then(Conclude(env, node, res, n, vars + res.setVars))
    case Merged(node, res) =>
      Outcome(0, [], [Row(node, res)], None).Then(Conclude(env, node, res, n, vars))
    case Logged(node, res) => Conclude(env, node, res, n, vars)
    case Flow(cur, rest) =>
      var o := Eval(env, cur, n, vars);
      if o.failure.Some? then o
      else o.Then(WalkAll(env, false, rest, n + o.visits, Merge(vars, o.writes)))
    case Fork(head, tail) =>
      var o := Eval(env, head, n, vars);
      o.Then(Eval(env, tail, n + o.visits, Merge(vars, o.writes)))
    case Finished => NOTHING
    case Rejected(error) => Outcome(0, [], [], Some(error))
  }

  /** A process suspended inside one node. */
  predicate IsLeaf(p: Proc)
  {
    p.Ready? || p.Executing? || p.Merged? || p.Logged?
  }

  lemma FlowUnfold(env: Env, p: Proc, n: nat, vars: Vars)
    requires Acyclic(env) && p.Flow? && Ranked(env, p)
    ensures Eval(env, p, n, vars) ==
            var o := Eval(env, p.cur, n, vars);
            if o.failure.Some? then o else o.Then(WalkAll(env, false, p.rest, n + o.visits, Merge(vars, o.writes)))
  {
    hide Walk, Conclude, WalkAll, Outcome.Then, Merge;
  }

  lemma ForkUnfold(env: Env, p: Proc, n: nat, vars: Vars)
    requires Acyclic(env) && p.Fork? && Ranked(env, p)
    ensures Eval(env, p, n, vars) ==
            var o := Eval(env, p.head, n, vars);
            o.Then(Eval(env, p.tail, n + o.visits, Merge(vars, o.writes)))
  {
    hide Walk, Conclude, WalkAll, Outcome.Then, Merge;
  }

  lemma NothingFirst(o: Outcome)
    ensures NOTHING.Then(o) == o
  {
    assert [] + o.writes == o.writes && [] + o.log == o.log;
  }

  lemma RejectedLeft(env: Env, error: string, n: nat, vars: Vars)
    requires Acyclic(env)
    ensures Eval(env, Rejected(error), n, vars) == Outcome(0, [], [], Some(error))
  {
  }

  lemma NothingLeft(env: Env, n: nat, vars: Vars)
    requires Acyclic(env)
    ensures Eval(env, Finished, n, vars) == NOTHING && WalkAll(env, false, [], n, vars) == NOTHING
  {
  }

  lemma {:induction false} ResolvedIsDone(env: Env, p: Proc, n: nat, vars: Vars)
    requires Acyclic(env) && Ranked(env, p) && Resolved(p)
    ensures Eval(env, p, n, vars) == NOTHING
  {
    hide Eval, WalkAll, Outcome.Then;
    NothingFirst(NOTHING);
    NothingLeft(env, n, vars);
    match p
    case Flow(cur, rest) =>
      ResolvedIsDone(env, cur, n, vars);
      FlowUnfold(env, p, n, vars);
    case Fork(head, tail) =>
      ResolvedIsDone(env, head, n, vars);
      ResolvedIsDone(env, tail, n, vars);
      ForkUnfold(env, p, n, vars);
    case _ =>
  }

  lemma {:induction false} ForkOfMeansWalkAll(env: Env, nodes: seq<Node>, n: nat, vars: Vars)
    requires Acyclic(env) && AllRanked(env, nodes) && Listed(env, nodes)
    ensures Ranked(env, ForkOf(nodes)) && Eval(env, ForkOf(nodes), n, vars) == WalkAll(env, true, nodes, n, vars)
    decreases |nodes|
  {
    ForkOfRanked(env, nodes);
    if nodes != [] {
      var o := Walk(env, nodes[0], n, vars);
      ForkOfMeansWalkAll(env, nodes[1..], n + o.visits, Merge(vars, o.writes));
      ForkOfUnfold(env, nodes, n, vars);
    }
  }

  lemma ForkOfUnfold(env: Env, nodes: seq<Node>, n: nat, vars: Vars)
    requires Acyclic(env) && nodes != [] && Ranked(env, ForkOf(nodes))
    ensures Ranked(env, Ready(nodes[0])) && Ranked(env, ForkOf(nodes[1..]))
    ensures var o := Walk(env, nodes[0], n, vars);
            Eval(env, ForkOf(nodes), n, vars) ==
            o.Then(Eval(env, ForkOf(nodes[1..]), n + o.visits, Merge(vars, o.writes)))
  {
    hide Walk, Outcome.Then;
  }

  lemma ResumeMeansConclude(env: Env, node: Node, res: NodeResult, n: nat, vars: Vars)
    requires Acyclic(env) && node.id in env.ranks && node in env.graph.nodes
    ensures var q := Resume(env, node, res, vars);
            Ranked(env, q) && Conclude(env, node, res, n, vars) == Eval(env, q, n, vars)
  {
    hide WalkAll;
    NextAreBelow(env, node.id, vars);
    var next := Next(env, node.id, vars);
    if res.ok && node.kind != END {
      if Forks(node, Matching(env.graph, env.test, node.id, vars)) {
        ForkOfMeansWalkAll(env, next, n, vars);
      } else {
        FlowRanked(env, Finished, next);
        FlowUnfold(env, Flow(Finished, next), n, vars);
        NothingLeft(env, n, vars);
        NothingFirst(WalkAll(env, false, next, n, vars));
      }
    }
  }

  /** A process that cannot take a step has nothing left to do. */
  lemma {:induction false} StillIsDone(env: Env, p: Proc, n: nat, vars: Vars)
    requires Acyclic(env) && Ranked(env, p) && !CanStep(env, p, n, vars)
    ensures var o := Eval(env, p, n, vars);
            o == Outcome(0, [], [], o.failure) && (o.failure.Some? <==> Throws(p)) && (o.failure.None? <==> Resolved(p))
    decreases p, 1
  {
    hide Walk, Conclude, WalkAll;
    if !Throws(p) && !Resolved(p) {
      var pick := UnsettledCanStep(env, p, n, vars);
      assert false;
    } else if Resolved(p) {
      ResolvedIsDone(env, p, n, vars);
      ResolvedIsStill(env, p, Here, n, vars);
    } else {
      ThrownIsDone(env, p, n, vars);
    }
  }

  lemma {:induction false} ThrownIsDone(env: Env, p: Proc, n: nat, vars: Vars)
    requires Acyclic(env) && Ranked(env, p) && !CanStep(env, p, n, vars) && Throws(p)
    ensures var o := Eval(env, p, n, vars); o == Outcome(0, [], [], o.failure) && o.failure.Some?
    decreases p, 0
  {
    hide Walk, Conclude, WalkAll, Resolved;
    match p
    case Rejected(_) =>
    case Flow(cur, rest) =>
      forall pick ensures Step(env, cur, pick, n, vars).None? {
        ThrownNotResolved(cur);
        assert Step(env, p, pick, n, vars).None?;
      }
      ThrownIsDone(env, cur, n, vars);
      FlowUnfold(env, p, n, vars);
    case Fork(head, tail) =>
      forall pick ensures Step(env, head, pick, n, vars).None? && Step(env, tail, pick, n, vars).None? {
        assert Step(env, p, InHead(pick), n, vars).None? && Step(env, p, InTail(pick), n, vars).None?;
      }
      StillIsDone(env, head, n, vars);
      StillIsDone(env, tail, n, vars);
      ForkUnfold(env, p, n, vars);
      NothingFirst(Eval(env, tail, n, vars));
  }

  lemma {:induction false} ThrownNotResolved(p: Proc)
    requires Throws(p)
    ensures !Resolved(p)
  {
    match p
    case Flow(cur, _) => ThrownNotResolved(cur);
    case Fork(head, tail) =>
      if Throws(head) {
        ThrownNotResolved(head);
      } else {
        ThrownNotResolved(tail);
      }
    case Rejected(_) =>
  }
}
