/** Schedules of suspended walks: what happens inside the flows, in a branch of a fork, and in another world. */
module Flows {
  import opened Collections
  import opened WorkflowGraphs
  import opened WorkflowWalk
  import opened WorkflowMachine
  import opened ReachableForks

  // ---------- processes without a fork ----------

  /** The process inside all the flows. */
  function Leaf(p: Proc): Proc
  {
    match p
    case Flow(cur, _) => Leaf(cur)
    case _ => p
  }

  function WithLeaf(p: Proc, q: Proc): Proc
  {
    match p
    case Flow(cur, rest) => Flow(WithLeaf(cur, q), rest)
    case _ => q
  }

  predicate Forkless(p: Proc)
  {
    !Leaf(p).Fork?
  }

  function AtLeaf(p: Proc, e: Option<Effect>): Option<Effect>
  {
    if e.None? then None else Some(e.value.(proc := WithLeaf(p, e.value.proc)))
  }

  lemma {:induction false} ResolvedLeaf(p: Proc)
    requires Resolved(p)
    ensures Resolved(Leaf(p))
  {
    match p
    case Flow(cur, _) => ResolvedLeaf(cur);
    case _ =>
  }

  /** While the process inside the flows has not resolved, the steps are its steps. */
  lemma {:induction false} StepAtLeaf(env: Env, p: Proc, pick: Pick, n: nat, vars: Vars)
    requires !Resolved(Leaf(p))
    ensures Step(env, p, pick, n, vars) == AtLeaf(p, Step(env, Leaf(p), pick, n, vars))
  {
    match p
    case Flow(cur, rest) =>
      if Resolved(cur) {
        ResolvedLeaf(cur);
      }
      StepAtLeaf(env, cur, pick, n, vars);
    case _ =>
  }

  /** What a step makes of a process without a fork. */
  lemma {:induction false} ForklessStep(env: Env, p: Proc, pick: Pick, n: nat, vars: Vars)
    requires Forkless(p) && Step(env, p, pick, n, vars).Some?
    ensures var e := Step(env, p, pick, n, vars).value;
            && (Leaf(p).Logged? ==> e.proc == WithLeaf(p, Resume(env, Leaf(p).node, Leaf(p).res, vars)))
            && (!Leaf(p).Logged? ==> Forkless(e.proc))
            && (e.rows != [] ==> Leaf(p).Merged? && e.proc == WithLeaf(p, Logged(Leaf(p).node, Leaf(p).res))
                                 && e.rows == [Row(Leaf(p).node, Leaf(p).res)])
  {
    match p
    case Flow(cur, rest) =>
      if Resolved(cur) {
        ResolvedLeaf(cur);
        ResolvedIsStill(env, cur, pick, n, vars);
      } else {
        ForklessStep(env, cur, pick, n, vars);
      }
    case _ =>
  }

  lemma {:induction false} LeafOfWithLeaf(p: Proc, q: Proc)
    ensures Leaf(WithLeaf(p, q)) == Leaf(q)
  {
    match p
    case Flow(cur, _) => LeafOfWithLeaf(cur, q);
    case _ =>
  }

  lemma RestIsRanked(env: Env, cur: Proc, rest: seq<Node>)
    requires Ranked(env, Flow(cur, rest))
    ensures RankedNodes(env.graph, env.ranks, rest)
  {
    assert forall x :: x in rest ==> x in Pending(Flow(cur, rest));
  }

  // ---------- the same step in another world ----------

  /** The two worlds have the same graph and conditions, and the same answers of handlers entered at the
      steps after `from` up to `to`. */
  ghost predicate AgreeOn(env: Env, other: Env, from: nat, to: nat)
  {
    && other.graph == env.graph && other.test == env.test
    && forall n: nat, node, vars :: from < n <= to ==> other.handler(n, node, vars) == env.handler(n, node, vars)
  }

  lemma {:induction false} StepAgrees(env: Env, other: Env, p: Proc, pick: Pick, n: nat, vars: Vars)
    requires Step(env, p, pick, n, vars).Some?
    requires AgreeOn(env, other, n, n + Step(env, p, pick, n, vars).value.ticks)
    ensures Step(other, p, pick, n, vars) == Step(env, p, pick, n, vars)
  {
    match p
    case Flow(cur, rest) =>
      if !(Resolved(cur) && rest != []) {
        StepAgrees(env, other, cur, pick, n, vars);
      }
    case Fork(head, tail) =>
      if pick.InHead? {
        StepAgrees(env, other, head, pick.pick, n, vars);
      } else {
        StepAgrees(env, other, tail, pick.pick, n, vars);
      }
    case _ =>
  }

  // ---------- the branches of a fork ----------

  function Branch(p: Proc, i: nat): Option<Proc>
  {
    if !p.Fork? then None else if i == 0 then Some(p.head) else Branch(p.tail, i - 1)
  }

  function WithBranch(p: Proc, i: nat, q: Proc): Proc
  {
    if !p.Fork? then p
    else if i == 0 then Fork(q, p.tail)
    else Fork(p.head, WithBranch(p.tail, i - 1, q))
  }

  function At(i: nat, pick: Pick): Pick
  {
    if i == 0 then InHead(pick) else InTail(At(i - 1, pick))
  }

  lemma {:induction false} BranchStep(env: Env, p: Proc, i: nat, pick: Pick, n: nat, vars: Vars)
    requires Branch(p, i).Some? && Step(env, Branch(p, i).value, pick, n, vars).Some?
    ensures var e := Step(env, Branch(p, i).value, pick, n, vars).value;
            Step(env, p, At(i, pick), n, vars) == Some(e.(proc := WithBranch(p, i, e.proc)))
  {
    if i > 0 {
      BranchStep(env, p.tail, i - 1, pick, n, vars);
    }
  }

  lemma {:induction false} BranchOfWithBranch(p: Proc, i: nat, q: Proc, j: nat)
    requires Branch(p, i).Some? && Branch(p, j).Some?
    ensures Branch(WithBranch(p, i, q), j) == if j == i then Some(q) else Branch(p, j)
    ensures forall r :: WithBranch(WithBranch(p, i, q), i, r) == WithBranch(p, i, r)
  {
    if i > 0 && j > 0 {
      BranchOfWithBranch(p.tail, i - 1, q, j - 1);
    } else if i > 0 {
      BranchOfWithBranch(p.tail, i - 1, q, i - 1);
    }
  }

  lemma {:induction false} SameBranch(p: Proc, i: nat)
    requires Branch(p, i).Some?
    ensures WithBranch(p, i, Branch(p, i).value) == p
  {
    if i > 0 {
      SameBranch(p.tail, i - 1);
    }
  }

  /** A schedule of one branch is one of the fork. */
  lemma {:induction false} BranchRun(env: Env, p: Proc, i: nat, m: Machine, picks: seq<Pick>)
    requires Branch(p, i) == Some(m.proc) && Execute(env, m, picks).Some?
    ensures var t := Execute(env, m, picks).value;
            Execute(env, m.(proc := p), Map(picks, (x: Pick) => At(i, x))) == Some(t.(proc := WithBranch(p, i, t.proc)))
    decreases |picks|
  {
    hide Step;
    if picks == [] {
      SameBranch(p, i);
    } else {
      var e := Step(env, m.proc, picks[0], m.step, m.vars).value;
      BranchStep(env, p, i, picks[0], m.step, m.vars);
      BranchOfWithBranch(p, i, e.proc, i);
      BranchRun(env, WithBranch(p, i, e.proc), i, Apply(m, e), picks[1..]);
      var lifted := Map(picks, (x: Pick) => At(i, x));
      assert lifted[0] == At(i, picks[0]) && lifted[1..] == Map(picks[1..], (x: Pick) => At(i, x));
    }
  }

  // ---------- schedules ----------

  lemma {:induction false} ExecuteAppend(env: Env, m: Machine, a: seq<Pick>, b: seq<Pick>)
    requires Execute(env, m, a).Some?
    ensures Execute(env, m, a + b) == Execute(env, Execute(env, m, a).value, b)
    decreases |a|
  {
    hide Step;
    if a == [] {
      assert a + b == b;
    } else {
      assert (a + b)[1..] == a[1..] + b;
      ExecuteAppend(env, Apply(m, Step(env, m.proc, a[0], m.step, m.vars).value), a[1..], b);
    }
  }

  function InTails(picks: seq<Pick>): seq<Pick>
  {
    Map(picks, (p: Pick) => InTail(p))
  }

  lemma ForkSteps(env: Env, head: Proc, tail: Proc, pick: Pick, n: nat, vars: Vars)
    ensures var e := Step(env, head, pick, n, vars);
            e.Some? ==>
              Step(env, Fork(head, tail), InHead(pick), n, vars) == Some(e.value.(proc := Fork(e.value.proc, tail)))
    ensures var e := Step(env, tail, pick, n, vars);
            e.Some? ==>
              Step(env, Fork(head, tail), InTail(pick), n, vars) == Some(e.value.(proc := Fork(head, e.value.proc)))
  {
  }

  /** One step more in front of a schedule. */
  lemma StepFirst(env: Env, m: Machine, pick: Pick, e: Effect, rest: seq<Pick>)
    requires Step(env, m.proc, pick, m.step, m.vars) == Some(e)
    ensures Execute(env, m, [pick] + rest) == Execute(env, Apply(m, e), rest)
  {
    hide Step;
    assert ([pick] + rest)[1..] == rest;
  }

  lemma {:induction false} TailRun(env: Env, head: Proc, m: Machine, picks: seq<Pick>)
    requires Execute(env, m, picks).Some?
    ensures var t := Execute(env, m, picks).value;
            Execute(env, m.(proc := Fork(head, m.proc)), InTails(picks)) == Some(t.(proc := Fork(head, t.proc)))
    decreases |picks|
  {
    hide Step;
    if picks != [] {
      var e := Step(env, m.proc, picks[0], m.step, m.vars).value;
      ForkSteps(env, head, m.proc, picks[0], m.step, m.vars);
      TailRun(env, head, Apply(m, e), picks[1..]);
      assert InTails(picks) == [InTail(picks[0])] + InTails(picks[1..]);
      StepFirst(env, m.(proc := Fork(head, m.proc)), InTail(picks[0]), e.(proc := Fork(head, e.proc)),
                InTails(picks[1..]));
    }
  }

  /** What entering a node at step `n` makes of its walk. */
  function Entering(env: Env, node: Node, n: nat, vars: Vars): Proc
  {
    if node.kind in HANDLED then Executing(node, env.handler(n + 1, node, vars)) else Rejected(NoHandler(node))
  }

  /** All branches of the fork have started, in order. */
  function Entered(env: Env, nodes: seq<Node>, n: nat, vars: Vars): Proc
  {
    if nodes == [] then Finished
    else Fork(Entering(env, nodes[0], n, vars), Entered(env, nodes[1..], n + 1, vars))
  }

  lemma {:induction false} EnteredBranch(env: Env, nodes: seq<Node>, n: nat, vars: Vars, i: nat)
    requires i < |nodes|
    ensures Branch(Entered(env, nodes, n, vars), i) == Some(Entering(env, nodes[i], n + i, vars))
  {
    if i > 0 {
      EnteredBranch(env, nodes[1..], n + 1, vars, i - 1);
    }
  }

  lemma {:induction false} EnterAll(env: Env, nodes: seq<Node>, n: nat, vars: Vars, log: seq<LogRow>)
    returns (picks: seq<Pick>)
    ensures Execute(env, Machine(ForkOf(nodes), n, vars, log), picks)
            == Some(Machine(Entered(env, nodes, n, vars), n + |nodes|, vars, log))
  {
    hide HANDLED;
    picks := [];
    if nodes != [] {
      var m := Machine(ForkOf(nodes), n, vars, log);
      var head, others := Entering(env, nodes[0], n, vars), nodes[1..];
      var rest := EnterAll(env, others, n + 1, vars, log);
      var inner := Machine(ForkOf(others), n + 1, vars, log);
      TailRun(env, head, inner, rest);
      picks := [InHead(Here)] + InTails(rest);
      assert log + [] == log;
      ForkSteps(env, Ready(nodes[0]), ForkOf(others), Here, n, vars);
      StepFirst(env, m, InHead(Here), Effect(Fork(head, ForkOf(others)), 1, [], [], None), InTails(rest));
    }
  }

  /** A schedule of the fork is one of the flows around it, as long as the fork has not resolved. */
  lemma {:induction false} LeafRun(env: Env, p: Proc, m: Machine, picks: seq<Pick>)
    requires m.proc.Fork? && Execute(env, m, picks).Some? && !Resolved(Execute(env, m, picks).value.proc)
    ensures var t := Execute(env, m, picks).value;
            && t.proc.Fork?
            && Execute(env, m.(proc := WithLeaf(p, m.proc)), picks) == Some(t.(proc := WithLeaf(p, t.proc)))
    decreases |picks|
  {
    hide Resolved, Step;
    if picks != [] {
      var e := Step(env, m.proc, picks[0], m.step, m.vars).value;
      if Resolved(m.proc) {
        ResolvedIsStill(env, m.proc, picks[0], m.step, m.vars);
      }
      LeafOfWithLeaf(p, m.proc);
      StepAtLeaf(env, WithLeaf(p, m.proc), picks[0], m.step, m.vars);
      WithLeafTwice(p, m.proc, e.proc);
      ForkStaysFork(env, m.proc, picks[0], m.step, m.vars);
      LeafRun(env, p, Apply(m, e), picks[1..]);
    }
  }

  lemma ForkStaysFork(env: Env, p: Proc, pick: Pick, n: nat, vars: Vars)
    requires p.Fork? && Step(env, p, pick, n, vars).Some?
    ensures Step(env, p, pick, n, vars).value.proc.Fork?
  {
  }

  lemma {:induction false} WithLeafTwice(p: Proc, q: Proc, r: Proc)
    requires !q.Flow?
    ensures WithLeaf(WithLeaf(p, q), r) == WithLeaf(p, r)
  {
    match p
    case Flow(cur, _) => WithLeafTwice(cur, q, r);
    case _ =>
  }

  lemma {:induction false} LeafSame(p: Proc)
    ensures WithLeaf(p, Leaf(p)) == p
  {
    match p
    case Flow(cur, _) => LeafSame(cur);
    case _ =>
  }

  // ---------- a branch that fails and a branch that succeeds ----------

  const FAILURE := NodeResult(false, map[], None, Some("failed"))
  const SUCCESS := NodeResult(true, map[], None, None)

  const TWICE := [Here] + [Here]
  const THRICE := [Here] + TWICE

  /** What merging, logging and leaving a node do to a suspended walk whose handler answered without `setVars`. */
  lemma WalkSteps(env: Env, node: Node, res: NodeResult, n: nat, vars: Vars)
    requires res.setVars == map[]
    ensures Step(env, Executing(node, res), Here, n, vars)
            == Some(Effect(Merged(node, res), 0, [map[]], [], Some(node)))
    ensures Step(env, Merged(node, res), Here, n, vars)
            == Some(Effect(Logged(node, res), 0, [], [Row(node, res)], None))
    ensures Step(env, Logged(node, res), Here, n, vars) == Some(Effect(Resume(env, node, res, vars), 0, [], [], None))
    ensures Merge(vars, []) == vars && Merge(vars, [map[]]) == vars
  {
    var none: Vars := map[];
    assert vars + none == vars && [none][1..] == [];
  }

  lemma BranchFails(env: Env, a: Node, n: nat, vars: Vars, log: seq<LogRow>)
    ensures Execute(env, Machine(Executing(a, FAILURE), n, vars, log), THRICE)
            == Some(Machine(Rejected("failed"), n, vars, log + [Row(a, FAILURE)]))
  {
    hide Step, Merge, Row;
    WalkSteps(env, a, FAILURE, n, vars);
    assert log + [] == log && log + [Row(a, FAILURE)] + [] == log + [Row(a, FAILURE)];
    StepFirst(env, Machine(Executing(a, FAILURE), n, vars, log), Here,
              Effect(Merged(a, FAILURE), 0, [map[]], [], Some(a)), TWICE);
    StepFirst(env, Machine(Merged(a, FAILURE), n, vars, log), Here,
              Effect(Logged(a, FAILURE), 0, [], [Row(a, FAILURE)], None), [Here]);
    StepFirst(env, Machine(Logged(a, FAILURE), n, vars, log + [Row(a, FAILURE)]), Here,
              Effect(Rejected("failed"), 0, [], [], None), []);
    assert [Here] + [] == [Here];
  }

  lemma BranchLogs(env: Env, b: Node, n: nat, vars: Vars, log: seq<LogRow>)
    ensures Execute(env, Machine(Executing(b, SUCCESS), n, vars, log), TWICE)
            == Some(Machine(Logged(b, SUCCESS), n, vars, log + [Row(b, SUCCESS)]))
  {
    hide Step, Merge, Row;
    WalkSteps(env, b, SUCCESS, n, vars);
    assert log + [] == log;
    StepFirst(env, Machine(Executing(b, SUCCESS), n, vars, log), Here,
              Effect(Merged(b, SUCCESS), 0, [map[]], [], Some(b)), [Here]);
    StepFirst(env, Machine(Merged(b, SUCCESS), n, vars, log), Here,
              Effect(Logged(b, SUCCESS), 0, [], [Row(b, SUCCESS)], None), []);
    assert [Here] + [] == [Here];
  }
}
