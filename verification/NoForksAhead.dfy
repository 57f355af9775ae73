/** Where a run can come to no fork, it writes no row after a failure. */
module NoForksAhead {
  import opened Collections
  import opened WorkflowGraphs
  import opened WorkflowWalk
  import opened WorkflowMachine
  import opened Flows
  import opened ReachableForks

  /** The process will not resolve, whatever handlers and conditions answer. */
  ghost predicate Blocked(env: Env, p: Proc)
    requires Acyclic(env) && Ranked(env, p)
  {
    match p
    case Flow(cur, rest) =>
      RestIsRanked(env, cur, rest);
      Blocked(env, cur) || !AllPass(env.graph, env.ranks, rest)
    case Fork(head, tail) => Blocked(env, head) || Blocked(env, tail)
    case Finished => false
    case Rejected(_) => true
    case _ => !Passes(env.graph, env.ranks, p.node.id)
  }

  /** A fork of which no branch has a handler, so that none of them writes a row. */
  predicate Barren(p: Proc)
  {
    match p
    case Ready(node) => node.kind !in HANDLED
    case Fork(head, tail) => Barren(head) && Barren(tail)
    case Finished => true
    case Rejected(_) => true
    case _ => false
  }

  /** The process comes to no fork but a barren one. */
  ghost predicate Calm(env: Env, p: Proc)
    requires Acyclic(env) && Ranked(env, p)
  {
    match p
    case Ready(node) => !CanFork(env.graph, env.ranks, node.id)
    case Flow(cur, rest) =>
      RestIsRanked(env, cur, rest);
      Calm(env, cur) && (Blocked(env, cur) || NoForkIn(env.graph, env.ranks, rest))
    case Fork(_, _) => Barren(p)
    case Finished => true
    case Rejected(_) => true
    case _ => p.node.kind in HANDLED && !CanFork(env.graph, env.ranks, p.node.id)
  }

  lemma {:induction false} ResolvedIsNotBlocked(env: Env, p: Proc)
    requires Acyclic(env) && Ranked(env, p) && Resolved(p)
    ensures !Blocked(env, p)
  {
    match p
    case Flow(cur, rest) => ResolvedIsNotBlocked(env, cur);
    case Fork(head, tail) =>
      ResolvedIsNotBlocked(env, head);
      ResolvedIsNotBlocked(env, tail);
    case _ =>
  }

  // ---------- leaving a node ----------

  function Matches(env: Env, vars: Vars): Edge -> bool
  {
    (e: Edge) => Holds(env.test, e.condition, vars)
  }

  lemma NextIsFollowed(env: Env, id: string, vars: Vars)
    ensures Next(env, id, vars) == Followed(env.graph, env.graph.edges, id, Matches(env, vars))
    ensures Matching(env.graph, env.test, id, vars) == Filter(OutgoingEdges(env.graph, id), Matches(env, vars))
    ensures ByCondition(Matches(env, vars))
  {
  }

  lemma {:induction false} ForkOfBlocked(env: Env, nodes: seq<Node>, x: Node)
    requires Acyclic(env) && RankedNodes(env.graph, env.ranks, nodes) && x in nodes
    requires !Passes(env.graph, env.ranks, x.id)
    ensures Ranked(env, ForkOf(nodes)) && Blocked(env, ForkOf(nodes))
  {
    ForkOfRanked(env, nodes);
    if x != nodes[0] {
      ForkOfBlocked(env, nodes[1..], x);
    }
  }

  lemma {:induction false} ForkOfBarren(nodes: seq<Node>)
    requires forall x :: x in nodes ==> x.kind !in HANDLED
    ensures Barren(ForkOf(nodes))
  {
    if nodes != [] {
      ForkOfBarren(nodes[1..]);
    }
  }

  lemma ResumeBlocked(env: Env, node: Node, res: NodeResult, vars: Vars)
    requires Acyclic(env) && Intact(env.graph) && node in env.graph.nodes && node.id in env.ranks
    requires node.kind in HANDLED && !Passes(env.graph, env.ranks, node.id)
    ensures var q := Resume(env, node, res, vars); Ranked(env, q) && Blocked(env, q)
  {
    hide Next, Matching, Followed, Passes;
    ResumeRanked(env, node, res, vars);
    NextIsFollowed(env, node.id, vars);
    BlockAfter(env.graph, env.ranks, node, Matches(env, vars));
    var next := Next(env, node.id, vars);
    var x :| x in next && !Passes(env.graph, env.ranks, x.id);
    ForkOfBlocked(env, next, x);
  }

  lemma ResumeCalm(env: Env, node: Node, res: NodeResult, vars: Vars)
    requires Acyclic(env) && Intact(env.graph) && node in env.graph.nodes && node.id in env.ranks
    requires node.kind in HANDLED && !CanFork(env.graph, env.ranks, node.id)
    ensures var q := Resume(env, node, res, vars); Ranked(env, q) && Calm(env, q)
  {
    hide Next, Matching, Followed, NoForkIn;
    ResumeRanked(env, node, res, vars);
    if res.ok && node.kind != END {
      NextIsFollowed(env, node.id, vars);
      var next := Next(env, node.id, vars);
      if Forks(node, Matching(env.graph, env.test, node.id, vars)) {
        NoHandlerAfter(env.graph, node, Matches(env, vars));
        ForkOfBarren(next);
      } else {
        NoForkAfter(env.graph, env.ranks, node, Matches(env, vars));
      }
    }
  }

  // ---------- one step ----------

  /** Being blocked is for good. */
  lemma {:induction false} StepKeepsBlocked(env: Env, p: Proc, pick: Pick, n: nat, vars: Vars)
    requires Acyclic(env) && Intact(env.graph) && Ranked(env, p) && Calm(env, p) && Blocked(env, p)
    requires Step(env, p, pick, n, vars).Some?
    ensures var q := Step(env, p, pick, n, vars).value.proc; Ranked(env, q) && Blocked(env, q)
  {
    hide Resume, Acyclic, Passes, CanFork, NoForkIn, Intact;
    StepKeepsRanked(env, p, pick, n, vars);
    match p
    case Logged(node, res) =>
      assert node in Pending(p);
      ResumeBlocked(env, node, res, vars);
    case Flow(cur, rest) =>
      RestIsRanked(env, cur, rest);
      if Resolved(cur) && rest != [] {
        ResolvedIsNotBlocked(env, cur);
        RestRanked(env, cur, rest);
        RestIsRanked(env, Ready(rest[0]), rest[1..]);
        assert rest == [rest[0]] + rest[1..];
      } else if Blocked(env, cur) {
        StepKeepsBlocked(env, cur, pick, n, vars);
      }
    case Fork(head, tail) => BarrenStep(env, p, pick, n, vars);
    case _ =>
  }

  lemma {:induction false} BarrenStep(env: Env, p: Proc, pick: Pick, n: nat, vars: Vars)
    requires Barren(p) && Step(env, p, pick, n, vars).Some?
    ensures var e := Step(env, p, pick, n, vars).value;
            Barren(e.proc) && e.rows == [] && (Throws(p) ==> Throws(e.proc)) && (p.Fork? ==> e.proc.Fork?)
    ensures Acyclic(env) && Ranked(env, p) && Ranked(env, Step(env, p, pick, n, vars).value.proc) && Blocked(env, p) ==>
              Blocked(env, Step(env, p, pick, n, vars).value.proc)
  {
    match p
    case Fork(head, tail) => BarrenStep(env, if pick.InHead? then head else tail, pick.pick, n, vars);
    case _ =>
  }

  lemma AdvanceCalm(env: Env, cur: Proc, rest: seq<Node>)
    requires Acyclic(env) && Ranked(env, Flow(cur, rest)) && rest != [] && RankedNodes(env.graph, env.ranks, rest)
    requires NoForkIn(env.graph, env.ranks, rest)
    ensures var q := Flow(Ready(rest[0]), rest[1..]); Ranked(env, q) && Calm(env, q)
  {
    hide Passes, CanFork;
    var g, ranks := env.graph, env.ranks;
    RestRanked(env, cur, rest);
    RestIsRanked(env, Ready(rest[0]), rest[1..]);
    if Passes(g, ranks, rest[0].id) {
      forall i | 0 <= i < |rest[1..]| && CanFork(g, ranks, rest[1..][i].id)
        ensures exists j :: 0 <= j < i && !Passes(g, ranks, rest[1..][j].id)
      {
        assert CanFork(g, ranks, rest[i + 1].id);
        var j :| 0 <= j < i + 1 && !Passes(g, ranks, rest[j].id);
        assert rest[1..][j - 1] == rest[j];
      }
    }
  }

  /** So is being calm. */
  lemma {:induction false} StepKeepsCalm(env: Env, p: Proc, pick: Pick, n: nat, vars: Vars)
    requires Acyclic(env) && Intact(env.graph) && Ranked(env, p) && Calm(env, p) && Step(env, p, pick, n, vars).Some?
    ensures var q := Step(env, p, pick, n, vars).value.proc; Ranked(env, q) && Calm(env, q)
  {
    hide Resume, Acyclic, Passes, CanFork, NoForkIn, Intact;
    StepKeepsRanked(env, p, pick, n, vars);
    match p
    case Logged(node, res) =>
      assert node in Pending(p);
      ResumeCalm(env, node, res, vars);
    case Flow(cur, rest) =>
      RestIsRanked(env, cur, rest);
      if Resolved(cur) && rest != [] {
        ResolvedIsNotBlocked(env, cur);
        AdvanceCalm(env, cur, rest);
      } else {
        StepKeepsCalm(env, cur, pick, n, vars);
        if Blocked(env, cur) {
          StepKeepsBlocked(env, cur, pick, n, vars);
        }
      }
    case Fork(head, tail) => BarrenStep(env, p, pick, n, vars);
    case _ =>
  }

  /** A calm process that has rejected writes no row any more. */
  lemma {:induction false} ThrownIsSilent(env: Env, p: Proc, pick: Pick, n: nat, vars: Vars)
    requires Acyclic(env) && Ranked(env, p) && Calm(env, p) && Throws(p) && Step(env, p, pick, n, vars).Some?
    ensures Step(env, p, pick, n, vars).value.rows == [] && Throws(Step(env, p, pick, n, vars).value.proc)
  {
    match p
    case Flow(cur, rest) =>
      if Resolved(cur) {
        ResolvedIsStill(env, cur, pick, n, vars);
      }
      ThrownIsSilent(env, cur, pick, n, vars);
    case Fork(_, _) => BarrenStep(env, p, pick, n, vars);
    case _ =>
  }
}
