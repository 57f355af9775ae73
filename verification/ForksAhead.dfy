/** Where a run can come to a fork, some conditions and some schedule lead it there. */
module ForksAhead {
  import opened Collections
  import opened WorkflowGraphs
  import opened WorkflowWalk
  import opened WorkflowMachine
  import opened Flows
  import opened ReachableForks

  // ---------- conditions that a variable switches ----------

  const SWITCH := "on"

  function Code(c: Choice): Json
  {
    match c
    case Off => "0"
    case All => "1"
    case Only(expression) => "2" + expression
  }

  predicate InForce(c: Choice, vars: Vars)
  {
    SWITCH in vars && vars[SWITCH] == Code(c)
  }

  const DIRECTED: Tester :=
    (x: string, vars: Vars) => InForce(All, vars) || InForce(Only(x), vars)

  /** A handler that succeeds and puts the choice in force. */
  function Directing(c: Choice): NodeResult
  {
    NodeResult(true, map[SWITCH := Code(c)], None, None)
  }

  lemma SameCode(c: Choice, d: Choice)
    ensures Code(c) == Code(d) <==> c == d
  {
    assert c.Only? ==> Code(c)[0] == '2' && Code(c)[1..] == c.expression;
    assert d.Only? ==> Code(d)[0] == '2' && Code(d)[1..] == d.expression;
    assert Code(Off)[0] == '0' && Code(All)[0] == '1';
  }

  lemma HoldsIfChosen(c: Choice, e: Edge, vars: Vars)
    requires InForce(c, vars)
    ensures Holds(DIRECTED, e.condition, vars) == Chosen(c)(e)
  {
    hide Code;
    match e.condition
    case Always =>
    case Test(x) =>
      SameCode(c, All);
      SameCode(c, Only(x));
      assert InForce(All, vars) == c.All? && InForce(Only(x), vars) == (c == Only(x));
      assert DIRECTED(x, vars) == (InForce(All, vars) || InForce(Only(x), vars));
  }

  lemma {:induction false} ChosenHold(c: Choice, es: seq<Edge>, vars: Vars)
    requires InForce(c, vars)
    ensures Filter(es, (e: Edge) => Holds(DIRECTED, e.condition, vars)) == Filter(es, Chosen(c))
  {
    if es != [] {
      ChosenHold(c, es[1..], vars);
      HoldsIfChosen(c, es[0], vars);
    }
  }

  lemma NextIsFollowed(env: Env, c: Choice, id: string, vars: Vars)
    requires InForce(c, vars) && env.test == DIRECTED
    ensures Matching(env.graph, env.test, id, vars) == Filter(OutgoingEdges(env.graph, id), Chosen(c))
    ensures Next(env, id, vars) == Followed(env.graph, env.graph.edges, id, Chosen(c))
  {
    ChosenHold(c, OutgoingEdges(env.graph, id), vars);
  }

  // ---------- processes that pass, and processes that come to a fork ----------

  /** The walk was entered with this choice, which is still in force. */
  predicate EnteredWith(p: Proc, c: Choice, vars: Vars)
  {
    (p.Executing? || ((p.Merged? || p.Logged?) && InForce(c, vars))) && p.res == Directing(c)
  }

  /** With all conditions off from now on, the process resolves. */
  ghost predicate Passing(env: Env, p: Proc, vars: Vars)
    requires Acyclic(env) && Ranked(env, p)
  {
    match p
    case Ready(node) => Passes(env.graph, env.ranks, node.id)
    case Flow(cur, rest) =>
      RestIsRanked(env, cur, rest);
      Passing(env, cur, vars) && AllPass(env.graph, env.ranks, rest)
    case Finished => true
    case Fork(_, _) => false
    case Rejected(_) => false
    case _ => Passes(env.graph, env.ranks, p.node.id) && EnteredWith(p, Off, vars)
  }

  /** With the right conditions the process comes to a fork. */
  ghost predicate Awaits(env: Env, p: Proc, vars: Vars)
    requires Acyclic(env) && Ranked(env, p)
  {
    match p
    case Ready(node) => CanFork(env.graph, env.ranks, node.id)
    case Flow(cur, rest) =>
      RestIsRanked(env, cur, rest);
      Awaits(env, cur, vars) || (Passing(env, cur, vars) && !NoForkIn(env.graph, env.ranks, rest))
    case Finished => false
    case Fork(_, _) => false
    case Rejected(_) => false
    case _ => exists c :: Directs(env.graph, env.ranks, p.node, c) && EnteredWith(p, c, vars)
  }

  /** The process has just forked, into branches of which one at least has a handler. */
  ghost predicate JustForked(g: Graph, p: Proc, next: seq<Node>)
  {
    Leaf(p) == ForkOf(next) && |next| >= 2 && exists i :: 0 <= i < |next| && next[i].kind in HANDLED
  }

  lemma ChoiceExists(g: Graph, ranks: Ranks, node: Node)
    requires Layered(g, ranks) && Intact(g) && node in g.nodes && node.id in ranks && CanFork(g, ranks, node.id)
    ensures exists c :: Directs(g, ranks, node, c)
  {
    var c := SomeChoiceDirects(g, ranks, node);
  }

  ghost function SomeChoice(g: Graph, ranks: Ranks, node: Node): (c: Choice)
    requires Layered(g, ranks) && Intact(g) && node in g.nodes && node.id in ranks && CanFork(g, ranks, node.id)
    ensures Directs(g, ranks, node, c)
  {
    ChoiceExists(g, ranks, node);
    var c :| Directs(g, ranks, node, c);
    c
  }

  /** The choice that a node has to put in force if it is entered next. */
  ghost function NextChoice(env: Env, p: Proc, vars: Vars): Choice
    requires Acyclic(env) && Intact(env.graph) && Ranked(env, p) && Awaits(env, p, vars)
  {
    match p
    case Ready(node) =>
      assert node in Pending(p);
      SomeChoice(env.graph, env.ranks, node)
    case Flow(cur, rest) => if Awaits(env, cur, vars) then NextChoice(env, cur, vars) else Off
    case _ => Off
  }

  lemma {:induction false} SameAwaits(env: Env, other: Env, p: Proc, vars: Vars)
    requires Acyclic(env) && other.graph == env.graph && other.ranks == env.ranks && Ranked(env, p)
    ensures Passing(other, p, vars) == Passing(env, p, vars) && Awaits(other, p, vars) == Awaits(env, p, vars)
    ensures Intact(env.graph) && Awaits(env, p, vars) ==> NextChoice(other, p, vars) == NextChoice(env, p, vars)
  {
    hide Passes, CanFork, Intact, NoForkIn;
    match p
    case Flow(cur, _) => SameAwaits(env, other, cur, vars);
    case _ =>
  }

  // ---------- leaving a node ----------

  lemma {:induction false} AllFound(g: Graph, es: seq<Edge>)
    requires forall e :: e in es ==> GetNode(g, e.target).Some?
    ensures |Successors(g, es)| == |es|
  {
    if es != [] {
      assert es[0] in es;
      AllFound(g, es[1..]);
    }
  }

  /** No matching edge is skipped. */
  lemma NextOfMatching(env: Env, node: Node, vars: Vars)
    requires Intact(env.graph)
    ensures |Next(env, node.id, vars)| == |Matching(env.graph, env.test, node.id, vars)|
  {
    hide Matching;
    var es := Matching(env.graph, env.test, node.id, vars);
    forall e | e in es ensures e in env.graph.edges {
      MatchingIsEdge(env.graph, env.test, node.id, vars, e);
    }
    AllFound(env.graph, es);
  }

  lemma ForkIsFork(g: Graph, next: seq<Node>, i: nat)
    requires Intact(g) && i < |next| && |next| >= 2 && next[i] in g.nodes && HasHandler(g, next[i].id)
    ensures JustForked(g, ForkOf(next), next)
  {
  }

  lemma LeavePassing(env: Env, node: Node, vars: Vars)
    requires Acyclic(env) && Intact(env.graph) && env.test == DIRECTED && InForce(Off, vars)
    requires node in env.graph.nodes && node.id in env.ranks && Passes(env.graph, env.ranks, node.id)
    ensures var q := Resume(env, node, Directing(Off), vars);
            Ranked(env, q) && (Passing(env, q, vars) || exists next :: JustForked(env.graph, q, next))
  {
    hide Matching, Next, Intact, CanFork, Followed;
    ResumeRanked(env, node, Directing(Off), vars);
    if node.kind != END {
      var next := Next(env, node.id, vars);
      NextIsFollowed(env, Off, node.id, vars);
      PassAfter(env.graph, env.ranks, node);
      assert AllPass(env.graph, env.ranks, next);
      NextOfMatching(env, node, vars);
      if Forks(node, Matching(env.graph, env.test, node.id, vars)) {
        assert next[0] in next;
        ForkIsFork(env.graph, next, 0);
      }
    }
  }

  lemma {:induction false} AllAreChosen(es: seq<Edge>)
    ensures Filter(es, Chosen(All)) == es
  {
    if es != [] {
      AllAreChosen(es[1..]);
    }
  }

  lemma SplitForks(g: Graph, node: Node)
    requires Intact(g) && Splits(g, node)
    ensures var next := Followed(g, g.edges, node.id, Chosen(All));
            exists i :: 0 <= i < |next| && next[i] in g.nodes && HasHandler(g, next[i].id)
    ensures |Filter(OutgoingEdges(g, node.id), Chosen(All))| >= 2
  {
    AllAreChosen(OutgoingEdges(g, node.id));
    var e :| e in g.edges && e.source == node.id && HasHandler(g, e.target);
    var k :| 0 <= k < |g.edges| && g.edges[k] == e;
    var i := NodeOf(g, g.edges, node.id, Chosen(All), k);
    hide Followed;
    var next := Followed(g, g.edges, node.id, Chosen(All));
    FollowedInGraph(g, g.edges, node.id, Chosen(All), next[i]);
  }

  lemma LeaveAwaiting(env: Env, node: Node, c: Choice, vars: Vars)
    requires Acyclic(env) && Intact(env.graph) && env.test == DIRECTED && InForce(c, vars)
    requires node in env.graph.nodes && node.id in env.ranks && Directs(env.graph, env.ranks, node, c)
    ensures var q := Resume(env, node, Directing(c), vars);
            Ranked(env, q) && (Awaits(env, q, vars) || exists next :: JustForked(env.graph, q, next))
  {
    hide Matching, Next, Intact, CanFork, Passes, Followed, Splits;
    ResumeRanked(env, node, Directing(c), vars);
    var next := Next(env, node.id, vars);
    NextIsFollowed(env, c, node.id, vars);
    NextOfMatching(env, node, vars);
    if Splits(env.graph, node) && c == All {
      SplitForks(env.graph, node);
      assert node.kind == PARALLEL by { SplitIsParallel(env.graph, node); }
      var i :| 0 <= i < |next| && next[i] in env.graph.nodes && HasHandler(env.graph, next[i].id);
      ForkIsFork(env.graph, next, i);
    } else {
      var i :| 0 <= i < |next| && CanFork(env.graph, env.ranks, next[i].id);
      assert HasHandler(env.graph, next[i].id) by { CanForkHasHandler(env.graph, env.ranks, next[i].id); }
      assert next[i] in next;
      if Forks(node, Matching(env.graph, env.test, node.id, vars)) {
        ForkIsFork(env.graph, next, i);
      }
    }
  }

  lemma SplitIsParallel(g: Graph, node: Node)
    requires Splits(g, node)
    ensures node.kind == PARALLEL
  {
  }

  lemma CanForkHasHandler(g: Graph, ranks: Ranks, id: string)
    requires Layered(g, ranks) && id in ranks && CanFork(g, ranks, id)
    ensures HasHandler(g, id)
  {
  }

  // ---------- one step ----------

  /** Handlers entered next put the choice in force. */
  ghost predicate Answers(env: Env, n: nat, c: Choice)
  {
    env.test == DIRECTED && forall k: nat, node, vars :: k == n + 1 ==> env.handler(k, node, vars) == Directing(c)
  }

  lemma {:induction false} PassingStep(env: Env, p: Proc, pick: Pick, n: nat, vars: Vars)
    requires Acyclic(env) && Intact(env.graph) && Ranked(env, p) && Passing(env, p, vars) && Answers(env, n, Off)
    requires Step(env, p, pick, n, vars).Some?
    ensures var e := Step(env, p, pick, n, vars).value;
            && Ranked(env, e.proc)
            && (Passing(env, e.proc, Merge(vars, e.writes)) || exists next :: JustForked(env.graph, e.proc, next))
  {
    hide Intact, Passes, Resume, Acyclic;
    StepKeepsRanked(env, p, pick, n, vars);
    match p
    case Ready(node) => assert node.kind in HANDLED by { PassedHasHandler(env, node); }
    case Executing(node, res) => assert Merge(vars, [res.setVars]) == vars + res.setVars;
    case Merged(node, res) =>
    case Logged(node, res) =>
      assert node in Pending(p);
      LeavePassing(env, node, vars);
    case Flow(cur, rest) =>
      RestIsRanked(env, cur, rest);
      if Resolved(cur) && rest != [] {
        assert rest[0] in rest;
        RestRanked(env, cur, rest);
        RestIsRanked(env, Ready(rest[0]), rest[1..]);
      } else {
        PassingStep(env, cur, pick, n, vars);
        ForkInFlow(env.graph, Step(env, cur, pick, n, vars).value.proc, rest);
      }
    case Finished =>
  }

  lemma PassedHasHandler(env: Env, node: Node)
    requires Acyclic(env) && Intact(env.graph) && Ranked(env, Ready(node)) && Passing(env, Ready(node), map[])
    ensures node.kind in HANDLED
  {
    assert node in Pending(Ready(node));
  }

  lemma ForkInFlow(g: Graph, cur: Proc, rest: seq<Node>)
    ensures forall next :: JustForked(g, cur, next) ==> JustForked(g, Flow(cur, rest), next)
  {
  }

  lemma {:induction false} AwaitsStep(env: Env, p: Proc, pick: Pick, n: nat, vars: Vars)
    requires Acyclic(env) && Intact(env.graph) && Ranked(env, p) && Awaits(env, p, vars)
    requires Answers(env, n, NextChoice(env, p, vars)) && Step(env, p, pick, n, vars).Some?
    ensures var e := Step(env, p, pick, n, vars).value;
            && Ranked(env, e.proc)
            && (Awaits(env, e.proc, Merge(vars, e.writes)) || exists next :: JustForked(env.graph, e.proc, next))
  {
    hide Intact, Passes, CanFork, Directs, NoForkIn, Resume, Merge, JustForked;
    StepKeepsRanked(env, p, pick, n, vars);
    match p
    case Ready(node) => AwaitsEntry(env, node, n, vars);
    case Executing(node, res) => OneWrite(vars, res.setVars);
    case Merged(node, res) => NoWrites(vars);
    case Logged(node, res) =>
      NoWrites(vars);
      assert node in Pending(p);
      var c :| Directs(env.graph, env.ranks, node, c) && EnteredWith(p, c, vars);
      LeaveAwaiting(env, node, c, vars);
    case Flow(cur, rest) =>
      RestIsRanked(env, cur, rest);
      if Awaits(env, cur, vars) {
        AwaitsIsLive(env, cur, vars);
        AwaitsStep(env, cur, pick, n, vars);
        ForkInFlow(env.graph, Step(env, cur, pick, n, vars).value.proc, rest);
      } else if Resolved(cur) {
        AwaitsAdvance(env, cur, rest, vars);
        NoWrites(vars);
      } else {
        PassingStep(env, cur, pick, n, vars);
        ForkInFlow(env.graph, Step(env, cur, pick, n, vars).value.proc, rest);
      }
  }

  lemma OneWrite(vars: Vars, w: Vars)
    ensures Merge(vars, [w]) == vars + w
  {
  }

  lemma NoWrites(vars: Vars)
    ensures Merge(vars, []) == vars
  {
  }

  lemma AwaitsEntry(env: Env, node: Node, n: nat, vars: Vars)
    requires Acyclic(env) && Intact(env.graph) && Ranked(env, Ready(node)) && Awaits(env, Ready(node), vars)
    requires Answers(env, n, NextChoice(env, Ready(node), vars))
    ensures var e := Step(env, Ready(node), Here, n, vars).value;
            Ranked(env, e.proc) && Awaits(env, e.proc, Merge(vars, e.writes))
  {
    hide NoForkIn, Splits;
    assert node in Pending(Ready(node));
    CanForkHasHandler(env.graph, env.ranks, node.id);
    var c := SomeChoice(env.graph, env.ranks, node);
    assert env.handler(n + 1, node, vars) == Directing(c);
    assert EnteredWith(Executing(node, Directing(c)), c, vars);
  }

  /** The first of the remaining nodes is entered; either it can fork or the rest still can. */
  lemma AwaitsAdvance(env: Env, cur: Proc, rest: seq<Node>, vars: Vars)
    requires Acyclic(env) && Ranked(env, Flow(cur, rest)) && RankedNodes(env.graph, env.ranks, rest)
    requires !NoForkIn(env.graph, env.ranks, rest)
    ensures rest != []
    ensures var q := Flow(Ready(rest[0]), rest[1..]); Ranked(env, q) && Awaits(env, q, vars)
  {
    hide Passes, CanFork;
    var g, ranks := env.graph, env.ranks;
    var i :| 0 <= i < |rest| && CanFork(g, ranks, rest[i].id)
             && forall j :: 0 <= j < i ==> Passes(g, ranks, rest[j].id);
    RestRanked(env, cur, rest);
    RestIsRanked(env, Ready(rest[0]), rest[1..]);
    if i > 0 {
      assert Passes(g, ranks, rest[0].id);
      assert rest[1..][i - 1] == rest[i];
      assert forall j :: 0 <= j < i - 1 ==> rest[1..][j] == rest[j + 1];
      assert !NoForkIn(g, ranks, rest[1..]);
    }
  }

  lemma {:induction false} PassingIsLive(env: Env, p: Proc, vars: Vars)
    requires Acyclic(env) && Ranked(env, p) && Passing(env, p, vars)
    ensures !Throws(p)
  {
    match p
    case Flow(cur, _) => PassingIsLive(env, cur, vars);
    case _ =>
  }

  lemma {:induction false} AwaitsIsLive(env: Env, p: Proc, vars: Vars)
    requires Acyclic(env) && Ranked(env, p) && Awaits(env, p, vars)
    ensures !Resolved(p) && !Throws(p)
  {
    match p
    case Flow(cur, rest) =>
      if Awaits(env, cur, vars) {
        AwaitsIsLive(env, cur, vars);
      } else {
        PassingIsLive(env, cur, vars);
      }
    case _ =>
  }

  // ---------- the whole way ----------

  /** The world lets handlers entered after step `n` put the choices in force, one after the other. */
  ghost predicate Obeys(w: Env, g: Graph, ranks: Ranks, n: nat, cs: seq<Choice>)
  {
    && w.graph == g && w.ranks == ranks && w.test == DIRECTED
    && forall k: nat, node, vars :: n < k <= n + |cs| ==> w.handler(k, node, vars) == Directing(cs[k - n - 1])
  }

  /** The world in which every handler puts `c` in force. */
  function Constant(g: Graph, ranks: Ranks, c: Choice): Env
  {
    Env(g, ranks, (n: nat, node: Node, vars: Vars) => Directing(c), DIRECTED)
  }

  lemma {:induction false} TicksAtMostOne(env: Env, p: Proc, pick: Pick, n: nat, vars: Vars)
    requires Step(env, p, pick, n, vars).Some?
    ensures Step(env, p, pick, n, vars).value.ticks <= 1
  {
    match p
    case Flow(cur, rest) => if !(Resolved(cur) && rest != []) { TicksAtMostOne(env, cur, pick, n, vars); }
    case Fork(head, tail) => TicksAtMostOne(env, if pick.InHead? then head else tail, pick.pick, n, vars);
    case _ =>
  }

  lemma {:induction false} SameCostOf(env: Env, other: Env, id: string)
    requires Acyclic(env) && other.graph == env.graph && other.ranks == env.ranks && id in env.ranks
    ensures CostOf(env, id) == CostOf(other, id)
    decreases env.ranks[id], 1, 0
  {
    OutgoingAreBelow(env, id);
    SameCostOfEdges(env, other, env.ranks[id], OutgoingEdges(env.graph, id));
  }

  lemma {:induction false} SameCostOfEdges(env: Env, other: Env, bound: nat, es: seq<Edge>)
    requires Acyclic(env) && other.graph == env.graph && other.ranks == env.ranks && EdgesBelow(env, bound, es)
    ensures CostOfEdges(env, bound, es) == CostOfEdges(other, bound, es)
    decreases bound, 0, |es|
  {
    if es != [] {
      SameCostOf(env, other, es[0].target);
      SameCostOfEdges(env, other, bound, es[1..]);
    }
  }

  lemma {:induction false} SameCost(env: Env, other: Env, p: Proc)
    requires Acyclic(env) && other.graph == env.graph && other.ranks == env.ranks && Ranked(env, p)
    ensures Cost(env, p) == Cost(other, p)
  {
    hide CostOf;
    match p
    case Flow(cur, rest) =>
      SameCost(env, other, cur);
      RestIsRanked(env, cur, rest);
      SameCostOfNodes(env, other, rest);
    case Fork(head, tail) =>
      SameCost(env, other, head);
      SameCost(env, other, tail);
    case Finished =>
    case Rejected(_) =>
    case _ => SameCostOf(env, other, p.node.id);
  }

  lemma {:induction false} SameCostOfNodes(env: Env, other: Env, nodes: seq<Node>)
    requires Acyclic(env) && other.graph == env.graph && other.ranks == env.ranks && AllRanked(env, nodes)
    ensures CostOfNodes(env, nodes) == CostOfNodes(other, nodes)
  {
    hide CostOf;
    if nodes != [] {
      SameCostOf(env, other, nodes[0].id);
      SameCostOfNodes(env, other, nodes[1..]);
    }
  }

  /** In every world that obeys the choices, the schedule leads from the machine to the fork. */
  ghost predicate Leads(env: Env, m: Machine, cs: seq<Choice>, picks: seq<Pick>, t: Machine)
  {
    && t.step == m.step + |cs|
    && forall w :: Obeys(w, env.graph, env.ranks, m.step, cs) ==> Execute(w, m, picks) == Some(t)
  }

  lemma NoStep(env: Env, t: Machine)
    ensures Leads(env, t, [], [], t)
  {
  }

  lemma ObeysBoth(w: Env, g: Graph, ranks: Ranks, n: nat, a: seq<Choice>, b: seq<Choice>)
    requires Obeys(w, g, ranks, n, a + b)
    ensures Obeys(w, g, ranks, n, a) && Obeys(w, g, ranks, n + |a|, b)
  {
    forall k: nat, node, vars | n + |a| < k <= n + |a| + |b|
      ensures w.handler(k, node, vars) == Directing(b[k - (n + |a|) - 1])
    {
      assert (a + b)[k - n - 1] == b[k - (n + |a|) - 1];
    }
  }

  lemma OneMoreStep(env: Env, m: Machine, pick: Pick, e: Effect, c: Choice, cs: seq<Choice>, picks: seq<Pick>,
                    t: Machine)
    requires Step(Constant(env.graph, env.ranks, c), m.proc, pick, m.step, m.vars) == Some(e) && e.ticks <= 1
    requires Leads(env, Apply(m, e), cs, picks, t)
    ensures Leads(env, m, (if e.ticks == 1 then [c] else []) + cs, [pick] + picks, t)
  {
    hide Step, Execute, Directing;
    var own := if e.ticks == 1 then [c] else [];
    forall w | Obeys(w, env.graph, env.ranks, m.step, own + cs)
      ensures Execute(w, m, [pick] + picks) == Some(t)
    {
      ObeysBoth(w, env.graph, env.ranks, m.step, own, cs);
      StepAgrees(Constant(env.graph, env.ranks, c), w, m.proc, pick, m.step, m.vars);
      StepFirst(w, m, pick, e, picks);
    }
  }

  /** Some choices of conditions and some schedule lead to a fork. */
  lemma {:induction false} ReachFork(env: Env, m: Machine)
    returns (cs: seq<Choice>, picks: seq<Pick>, t: Machine, next: seq<Node>)
    requires Acyclic(env) && Intact(env.graph) && Ranked(env, m.proc) && Awaits(env, m.proc, m.vars)
    ensures Leads(env, m, cs, picks, t) && JustForked(env.graph, t.proc, next)
    decreases Cost(env, m.proc)
  {
    hide Step, Execute, Intact, Resolved, Throws, JustForked, Leads;
    var c := NextChoice(env, m.proc, m.vars);
    var w := Constant(env.graph, env.ranks, c);
    AwaitsIsLive(env, m.proc, m.vars);
    var pick := UnsettledCanStep(w, m.proc, m.step, m.vars);
    SameAwaits(env, w, m.proc, m.vars);
    AwaitsStep(w, m.proc, pick, m.step, m.vars);
    var e := Step(w, m.proc, pick, m.step, m.vars).value;
    TicksAtMostOne(w, m.proc, pick, m.step, m.vars);
    var u := Apply(m, e);
    if Awaits(w, u.proc, u.vars) {
      StepLowersCost(w, m.proc, pick, m.step, m.vars);
      SameCost(env, w, m.proc);
      SameCost(env, w, u.proc);
      SameAwaits(w, env, u.proc, u.vars);
      var others, rest;
      others, rest, t, next := ReachFork(env, u);
      OneMoreStep(env, m, pick, e, c, others, rest, t);
      cs, picks := (if e.ticks == 1 then [c] else []) + others, [pick] + rest;
    } else {
      next :| JustForked(env.graph, u.proc, next);
      t := u;
      NoStep(env, u);
      OneMoreStep(env, m, pick, e, c, [], [], t);
      cs, picks := (if e.ticks == 1 then [c] else []) + [], [pick] + [];
    }
  }
}
