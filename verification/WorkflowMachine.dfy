/** The runner between its awaits: a tree of suspended walks that share one context.
    Any suspended walk may take the next step, so a schedule is a sequence of picks. */
module WorkflowMachine {
  import opened Collections
  import opened WorkflowGraphs
  import opened WorkflowWalk

  /** A call of `walk` and where it is suspended. `Fork` is `Promise.all` over a list of branches;
      it rejects as soon as one branch does, but the other branches keep running. */
  datatype Proc =
    | Ready(node: Node)
    | Executing(node: Node, res: NodeResult)
    | Merged(node: Node, res: NodeResult)
    | Logged(node: Node, res: NodeResult)
    | Flow(cur: Proc, rest: seq<Node>)
    | Fork(head: Proc, tail: Proc)
    | Finished
    | Rejected(error: string)

  /** Which suspended walk continues. */
  datatype Pick = Here | InHead(pick: Pick) | InTail(pick: Pick)

  /** What one step does to the shared state, and the process afterwards. */
  datatype Effect = Effect(proc: Proc, ticks: nat, writes: seq<Vars>, rows: seq<LogRow>, saved: Option<Node>)

  predicate Resolved(p: Proc)
  {
    match p
    case Finished => true
    case Flow(cur, rest) => Resolved(cur) && rest == []
    case Fork(head, tail) => Resolved(head) && Resolved(tail)
    case _ => false
  }

  /** The promise of the process has rejected. */
  predicate Throws(p: Proc)
  {
    match p
    case Rejected(_) => true
    case Flow(cur, _) => Throws(cur)
    case Fork(head, tail) => Throws(head) || Throws(tail)
    case _ => false
  }

  /** The errors that the promise of the process may have rejected with. */
  function Errors(p: Proc): set<string>
  {
    match p
    case Rejected(error) => {error}
    case Flow(cur, _) => Errors(cur)
    case Fork(head, tail) => Errors(head) + Errors(tail)
    case _ => {}
  }

  lemma {:induction false} ErrorsAreThrown(p: Proc)
    ensures Throws(p) <==> Errors(p) != {}
  {
    match p
    case Flow(cur, _) => ErrorsAreThrown(cur);
    case Fork(head, tail) =>
      ErrorsAreThrown(head);
      ErrorsAreThrown(tail);
      assert forall x :: x in Errors(head) || x in Errors(tail) ==> x in Errors(p);
    case Rejected(error) => assert error in Errors(p);
    case _ =>
  }

  function ForkOf(nodes: seq<Node>): Proc
  {
    if nodes == [] then Finished else Fork(Ready(nodes[0]), ForkOf(nodes[1..]))
  }

  /** What becomes of a walk whose row is written. */
  function Resume(env: Env, node: Node, res: NodeResult, vars: Vars): Proc
  {
    if !res.ok then Rejected(HandlerError(node, res))
    else if node.kind == END then Finished
    else if Forks(node, Matching(env.graph, env.test, node.id, vars)) then ForkOf(Next(env, node.id, vars))
    else Flow(Finished, Next(env, node.id, vars))
  }

  /** The step of the picked walk, if it can take one, when the context is at step `n` with `vars`. */
  function Step(env: Env, p: Proc, pick: Pick, n: nat, vars: Vars): Option<Effect>
  {
    match p
    case Ready(node) =>
      if pick != Here then None
      else if node.kind !in HANDLED then Some(Effect(Rejected(NoHandler(node)), 1, [], [], None))
      else Some(Effect(Executing(node, env.handler(n + 1, node, vars)), 1, [], [], None))
    case Executing(node, res) =>
      if pick != Here then None else Some(Effect(Merged(node, res), 0, [res.setVars], [], Some(node)))
    case Merged(node, res) =>
      if pick != Here then None else Some(Effect(Logged(node, res), 0, [], [Row(node, res)], None))
    case Logged(node, res) =>
      if pick != Here then None else Some(Effect(Resume(env, node, res, vars), 0, [], [], None))
    case Flow(cur, rest) =>
      if Resolved(cur) && rest != [] then
        if pick != Here then None else Some(Effect(Flow(Ready(rest[0]), rest[1..]), 0, [], [], None))
      else
        (match Step(env, cur, pick, n, vars)
         case None => None
         case Some(e) => Some(e.(proc := Flow(e.proc, rest))))
    case Fork(head, tail) =>
      (match pick
       case Here => None
       case InHead(inner) =>
         (match Step(env, head, inner, n, vars)
          case None => None
          case Some(e) => Some(e.(proc := Fork(e.proc, tail))))
       case InTail(inner) =>
         (match Step(env, tail, inner, n, vars)
          case None => None
          case Some(e) => Some(e.(proc := Fork(head, e.proc)))))
    case Finished => None
    case Rejected(_) => None
  }

  ghost predicate CanStep(env: Env, p: Proc, n: nat, vars: Vars)
  {
    exists pick :: Step(env, p, pick, n, vars).Some?
  }

  /** The process together with the shared context and the rows written so far. */
  datatype Machine = Machine(proc: Proc, step: nat, vars: Vars, log: seq<LogRow>)

  function Apply(m: Machine, e: Effect): Machine
  {
    Machine(e.proc, m.step + e.ticks, Merge(m.vars, e.writes), m.log + e.rows)
  }

  /** Runs a schedule from `m`; `None` when some pick could not take a step. */
  function Execute(env: Env, m: Machine, picks: seq<Pick>): Option<Machine>
    decreases |picks|
  {
    if picks == [] then Some(m)
    else
      var e := Step(env, m.proc, picks[0], m.step, m.vars);
      if e.None? then None else Execute(env, Apply(m, e.value), picks[1..])
  }

  /** `currentNode` after a step. */
  function Mark(current: Option<string>, e: Effect): Option<string>
  {
    if e.saved.Some? then Some(e.saved.value.id) else current
  }

  /** `currentNode` after a schedule. */
  function Marks(env: Env, m: Machine, picks: seq<Pick>, current: Option<string>): Option<string>
    requires Execute(env, m, picks).Some?
    decreases |picks|
  {
    if picks == [] then current
    else
      var e := Step(env, m.proc, picks[0], m.step, m.vars).value;
      Marks(env, Apply(m, e), picks[1..], Mark(current, e))
  }

  /** The nodes the process still refers to. */
  ghost function Pending(p: Proc): set<Node>
  {
    match p
    case Flow(cur, rest) => Pending(cur) + (set x | x in rest)
    case Fork(head, tail) => Pending(head) + Pending(tail)
    case Finished => {}
    case Rejected(_) => {}
    case _ => {p.node}
  }

  /** They are all nodes of the graph and have a rank. */
  ghost predicate Ranked(env: Env, p: Proc)
  {
    forall x :: x in Pending(p) ==> x in env.graph.nodes && x.id in env.ranks
  }

  lemma FlowRanked(env: Env, cur: Proc, rest: seq<Node>)
    requires Ranked(env, cur) && AllRanked(env, rest) && Listed(env, rest)
    ensures Ranked(env, Flow(cur, rest))
  {
  }

  lemma {:induction false} ForkOfRanked(env: Env, nodes: seq<Node>)
    requires AllRanked(env, nodes) && Listed(env, nodes)
    ensures Ranked(env, ForkOf(nodes))
  {
    if nodes != [] {
      assert nodes[0] in nodes;
      ForkOfRanked(env, nodes[1..]);
    }
  }

  lemma ResumeRanked(env: Env, node: Node, res: NodeResult, vars: Vars)
    requires Acyclic(env) && node.id in env.ranks
    ensures Ranked(env, Resume(env, node, res, vars))
  {
    hide Next, Matching;
    NextAreBelow(env, node.id, vars);
    ForkOfRanked(env, Next(env, node.id, vars));
    FlowRanked(env, Finished, Next(env, node.id, vars));
  }

  lemma RestRanked(env: Env, cur: Proc, rest: seq<Node>)
    requires Ranked(env, Flow(cur, rest)) && rest != []
    ensures Ranked(env, Flow(Ready(rest[0]), rest[1..]))
  {
    assert rest[0] in Pending(Flow(cur, rest));
    assert forall x :: x in rest[1..] ==> x in rest;
  }

  lemma {:induction false} StepKeepsRanked(env: Env, p: Proc, pick: Pick, n: nat, vars: Vars)
    requires Acyclic(env) && Ranked(env, p) && Step(env, p, pick, n, vars).Some?
    ensures Ranked(env, Step(env, p, pick, n, vars).value.proc)
  {
    hide Resume, Resolved, Acyclic;
    match p
    case Logged(node, res) =>
      assert node in Pending(p);
      ResumeRanked(env, node, res, vars);
    case Flow(cur, rest) =>
      if Resolved(cur) && rest != [] {
        RestRanked(env, cur, rest);
      } else {
        StepKeepsRanked(env, cur, pick, n, vars);
      }
    case Fork(head, tail) =>
      if pick.InHead? {
        StepKeepsRanked(env, head, pick.pick, n, vars);
      } else {
        StepKeepsRanked(env, tail, pick.pick, n, vars);
      }
    case _ =>
  }

  // ---------- every schedule is finite ----------

  /** The most steps that a walk entered at `id` can take, whatever handlers and conditions answer. */
  ghost function CostOf(env: Env, id: string): nat
    requires Acyclic(env) && id in env.ranks
    decreases env.ranks[id], 1, 0
  {
    OutgoingAreBelow(env, id);
    4 + CostOfEdges(env, env.ranks[id], OutgoingEdges(env.graph, id))
  }

  ghost function CostOfEdges(env: Env, bound: nat, es: seq<Edge>): nat
    requires Acyclic(env) && EdgesBelow(env, bound, es)
    decreases bound, 0, |es|
  {
    if es == [] then 0 else 1 + CostOf(env, es[0].target) + CostOfEdges(env, bound, es[1..])
  }

  ghost predicate EdgesBelow(env: Env, bound: nat, es: seq<Edge>)
  {
    forall i :: 0 <= i < |es| ==> es[i].target in env.ranks && env.ranks[es[i].target] < bound
  }

  lemma OutgoingAreBelow(env: Env, id: string)
    requires Acyclic(env) && id in env.ranks
    ensures EdgesBelow(env, env.ranks[id], OutgoingEdges(env.graph, id))
  {
    var es := OutgoingEdges(env.graph, id);
    forall i | 0 <= i < |es|
      ensures es[i].target in env.ranks && env.ranks[es[i].target] < env.ranks[id]
    {
      OutgoingMember(env.graph, id, es[i]);
    }
  }

  ghost function CostOfNodes(env: Env, nodes: seq<Node>): nat
    requires Acyclic(env) && AllRanked(env, nodes)
  {
    if nodes == [] then 0 else 1 + CostOf(env, nodes[0].id) + CostOfNodes(env, nodes[1..])
  }

  ghost function Cost(env: Env, p: Proc): nat
    requires Acyclic(env) && Ranked(env, p)
  {
    match p
    case Ready(node) => CostOf(env, node.id)
    case Executing(node, _) => CostOf(env, node.id) - 1
    case Merged(node, _) => CostOf(env, node.id) - 2
    case Logged(node, _) => CostOf(env, node.id) - 3
    case Flow(cur, rest) => Cost(env, cur) + CostOfNodes(env, rest)
    case Fork(head, tail) => Cost(env, head) + Cost(env, tail)
    case Finished => 0
    case Rejected(_) => 0
  }

  lemma {:induction false} CostOfForkOf(env: Env, nodes: seq<Node>)
    requires Acyclic(env) && AllRanked(env, nodes) && Listed(env, nodes)
    ensures Ranked(env, ForkOf(nodes)) && Cost(env, ForkOf(nodes)) <= CostOfNodes(env, nodes)
  {
    if nodes != [] {
      assert nodes[0] in nodes;
      CostOfForkOf(env, nodes[1..]);
    }
  }

  lemma {:induction false} CostOfChosen(env: Env, bound: nat, es: seq<Edge>, chosen: Edge -> bool)
    requires Acyclic(env) && EdgesBelow(env, bound, es)
    ensures var next := Successors(env.graph, Filter(es, chosen));
            AllRanked(env, next) && CostOfNodes(env, next) <= CostOfEdges(env, bound, es)
  {
    if es != [] {
      CostOfChosen(env, bound, es[1..], chosen);
      var kept := Filter(es[1..], chosen);
      if chosen(es[0]) {
        assert Filter(es, chosen) == [es[0]] + kept;
        assert Filter(es, chosen)[1..] == kept;
        var next := GetNode(env.graph, es[0].target);
        if next.Some? {
          assert Successors(env.graph, Filter(es, chosen)) == [next.value] + Successors(env.graph, kept);
          assert ([next.value] + Successors(env.graph, kept))[1..] == Successors(env.graph, kept);
        }
      }
    }
  }

  lemma CostsFour(env: Env, id: string)
    requires Acyclic(env) && id in env.ranks
    ensures CostOf(env, id) >= 4
  {
    hide CostOfEdges;
  }

  lemma FirstCost(env: Env, nodes: seq<Node>)
    requires Acyclic(env) && AllRanked(env, nodes) && nodes != []
    ensures CostOfNodes(env, nodes) == 1 + CostOf(env, nodes[0].id) + CostOfNodes(env, nodes[1..])
  {
    hide CostOf;
  }

  lemma ResumeCost(env: Env, node: Node, res: NodeResult, vars: Vars)
    requires Acyclic(env) && node.id in env.ranks
    ensures var q := Resume(env, node, res, vars);
            Ranked(env, q) && Cost(env, q) <= CostOf(env, node.id) - 4
  {
    OutgoingAreBelow(env, node.id);
    CostOfChosen(env, env.ranks[node.id], OutgoingEdges(env.graph, node.id),
                 (e: Edge) => Holds(env.test, e.condition, vars));
    assert AllRanked(env, Next(env, node.id, vars));
    assert CostOfNodes(env, Next(env, node.id, vars)) <= CostOf(env, node.id) - 4;
    hide Next, Matching, CostOf, CostOfNodes;
    var next := Next(env, node.id, vars);
    ResumeRanked(env, node, res, vars);
    NextAreBelow(env, node.id, vars);
    CostsFour(env, node.id);
    CostOfForkOf(env, next);
  }

  lemma {:induction false} StepLowersCost(env: Env, p: Proc, pick: Pick, n: nat, vars: Vars)
    requires Acyclic(env) && Ranked(env, p) && Step(env, p, pick, n, vars).Some?
    ensures var q := Step(env, p, pick, n, vars).value.proc;
            Ranked(env, q) && Cost(env, q) < Cost(env, p)
  {
    hide Resume, CostOf, CostOfNodes, Resolved, Acyclic;
    StepKeepsRanked(env, p, pick, n, vars);
    match p
    case Ready(node) => CostsFour(env, node.id);
    case Executing(node, _) => CostsFour(env, node.id);
    case Merged(node, _) => CostsFour(env, node.id);
    case Logged(node, res) =>
      assert node in Pending(p);
      ResumeCost(env, node, res, vars);
    case Flow(cur, rest) =>
      if Resolved(cur) && rest != [] {
        FirstCost(env, rest);
      } else {
        StepLowersCost(env, cur, pick, n, vars);
      }
    case Fork(head, tail) =>
      if pick.InHead? {
        StepLowersCost(env, head, pick.pick, n, vars);
      } else {
        StepLowersCost(env, tail, pick.pick, n, vars);
      }
    case _ =>
  }

  /** Every run terminates: no schedule is longer than the cost of the process it starts from,
      for all handlers, all conditions and all interleavings. */
  lemma {:induction false} SchedulesAreFinite(env: Env, m: Machine, picks: seq<Pick>)
    requires Acyclic(env) && Ranked(env, m.proc) && Execute(env, m, picks).Some?
    ensures |picks| <= Cost(env, m.proc)
    decreases |picks|
  {
    if picks != [] {
      var e := Step(env, m.proc, picks[0], m.step, m.vars).value;
      StepLowersCost(env, m.proc, picks[0], m.step, m.vars);
      SchedulesAreFinite(env, Apply(m, e), picks[1..]);
    }
  }

  // ---------- where a schedule can stop ----------

  /** Nothing is ever stuck: a process that has neither resolved nor rejected can take a step. */
  lemma {:induction false} UnsettledCanStep(env: Env, p: Proc, n: nat, vars: Vars) returns (pick: Pick)
    requires !Resolved(p) && !Throws(p)
    ensures Step(env, p, pick, n, vars).Some?
  {
    match p
    case Flow(cur, rest) =>
      if Resolved(cur) {
        pick := Here;
      } else {
        pick := UnsettledCanStep(env, cur, n, vars);
      }
    case Fork(head, tail) =>
      if !Resolved(head) {
        var inner := UnsettledCanStep(env, head, n, vars);
        pick := InHead(inner);
      } else {
        var inner := UnsettledCanStep(env, tail, n, vars);
        pick := InTail(inner);
      }
    case _ =>
      pick := Here;
  }

  /** A process whose promise resolved can take no further step. */
  lemma {:induction false} ResolvedIsStill(env: Env, p: Proc, pick: Pick, n: nat, vars: Vars)
    requires Resolved(p)
    ensures Step(env, p, pick, n, vars).None? && !Throws(p)
  {
    match p
    case Flow(cur, rest) => ResolvedIsStill(env, cur, pick, n, vars);
    case Fork(head, tail) =>
      ResolvedIsStill(env, head, if pick.InHead? then pick.pick else Here, n, vars);
      ResolvedIsStill(env, tail, if pick.InTail? then pick.pick else Here, n, vars);
    case _ =>
  }
}
